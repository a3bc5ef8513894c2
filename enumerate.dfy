/**
 * The file enumerator `get_m4a_files_in_directory` (main.py:18-25). The
 * directory walk is outside the model: its result enters as the sequence of
 * joined paths in walk order, and the model keeps those whose extension, as
 * POSIX `os.path.splitext` computes it, is on the allow-list.
 */
module Enumerate {
  import opened Text

  /** Some character of `path[lo..hi]` is not a dot. */
  predicate HasNonDot(path: string, lo: int, hi: int)
    requires 0 <= lo && hi <= |path|
  {
    exists k :: lo <= k < hi && path[k] != '.'
  }

  /**
   * `os.path.splitext(path)[1]` with `/` as the only separator: from the
   * last dot of the final path component, provided something other than a
   * dot comes before that dot in the component (leading dots name hidden
   * files, not extensions); otherwise empty.
   */
  function Extension(path: string): (ext: string)
    ensures ext == [] || (ext[0] == '.' && EndsWith(path, ext) && '.' !in ext[1..] && '/' !in ext)
  {
    var slash := LastIndexOf(path, '/');
    var dot := LastIndexOf(path, '.');
    if dot > slash && HasNonDot(path, slash + 1, dot) then
      assert path[dot..][1..] == path[dot + 1..];
      path[dot..]
    else []
  }

  /** The test of main.py:23: the extension is one of the allow-list, exactly. */
  predicate IsAudioExtension(ext: string)
  {
    ext == ".m4a" || ext == ".mp3" || ext == ".flac" || ext == ".wav"
  }

  predicate IsAudioPath(path: string)
  {
    IsAudioExtension(Extension(path))
  }

  /** The paths the enumerator returns, in the order the walk produced them. */
  function AudioPaths(candidates: seq<string>): (kept: seq<string>)
    ensures |kept| <= |candidates|
  {
    if candidates == [] then []
    else (if IsAudioPath(candidates[0]) then [candidates[0]] else []) + AudioPaths(candidates[1..])
  }

  /** The filtering loop of main.py:21-24, appending each accepted path in turn. */
  method CollectAudioPaths(candidates: seq<string>) returns (filePaths: seq<string>)
    ensures filePaths == AudioPaths(candidates)
  {
    ghost var goal := AudioPaths(candidates);
    filePaths := [];
    var i := 0;
    assert candidates[i..] == candidates;
    while i < |candidates|
      invariant i <= |candidates|
      invariant filePaths + AudioPaths(candidates[i..]) == goal
    {
      var path := candidates[i];
      var keep := IsAudioPath(path);
      AudioPathsStep(candidates, i, filePaths, keep);
      if keep {
        filePaths := filePaths + [path];
      }
      i := i + 1;
    }
    assert candidates[i..] == [];
  }

  /** One step of the filter: the candidate at `i` is kept or not, then the rest follow. */
  lemma AudioPathsStep(candidates: seq<string>, i: nat, kept: seq<string>, keep: bool)
    requires i < |candidates| && keep == IsAudioPath(candidates[i])
    ensures kept + AudioPaths(candidates[i..])
            == (if keep then kept + [candidates[i]] else kept) + AudioPaths(candidates[i + 1..])
  {
    var found := if keep then [candidates[i]] else [];
    var rest := AudioPaths(candidates[i + 1..]);
    assert AudioPaths(candidates[i..]) == found + rest by {
      assert candidates[i..][0] == candidates[i] && candidates[i..][1..] == candidates[i + 1..];
    }
    AppendAssoc(kept, found, rest);
  }

  /** Exactly the candidates with an allowed extension are kept. */
  lemma {:induction false} AudioPathsMembers(candidates: seq<string>, path: string)
    ensures path in AudioPaths(candidates) <==> path in candidates && IsAudioPath(path)
  {
    if candidates != [] {
      AudioPathsMembers(candidates[1..], path);
      assert candidates == [candidates[0]] + candidates[1..];
    }
  }

  /** The kept paths keep their relative order. */
  lemma {:induction false} AudioPathsInOrder(candidates: seq<string>)
    ensures IsSubsequence(AudioPaths(candidates), candidates)
  {
    if candidates != [] {
      var path, tail := candidates[0], candidates[1..];
      var rest := AudioPaths(tail);
      AudioPathsInOrder(tail);
      assert candidates == [path] + tail;
      if IsAudioPath(path) {
        var kept := [path] + rest;
        assert AudioPaths(candidates) == kept;
        assert kept[0] == path && kept[1..] == rest;
      } else {
        assert AudioPaths(candidates) == rest;
        SubsequenceCons(rest, path, tail);
      }
    }
  }

  /** The final component of `stem` has a character other than a dot. */
  predicate NamedStem(stem: string)
  {
    HasNonDot(stem, LastIndexOf(stem, '/') + 1, |stem|)
  }

  /** Looking for a non-dot below `|stem|` does not see what is appended after the stem. */
  lemma HasNonDotAppend(stem: string, ext: string, lo: int, hi: int)
    requires 0 <= lo && hi <= |stem|
    ensures HasNonDot(stem + ext, lo, hi) <==> HasNonDot(stem, lo, hi)
  {
    assert forall k :: lo <= k < hi ==> (stem + ext)[k] == stem[k];
  }

  /** Every allowed extension is a dot followed by a dot-free, slash-free suffix. */
  lemma AudioExtensionShape(ext: string)
    requires IsAudioExtension(ext)
    ensures ext != [] && ext[0] == '.' && '.' !in ext[1..] && '/' !in ext
  {
  }

  /** A dot-led suffix without further dots or slashes, after a named stem, is the path's extension. */
  lemma ExtensionAfterStem(stem: string, ext: string)
    requires ext != [] && ext[0] == '.' && '.' !in ext[1..] && '/' !in ext && NamedStem(stem)
    ensures Extension(stem + ext) == ext
  {
    var path := stem + ext;
    assert path[|stem|] == '.' && path[|stem| + 1..] == ext[1..];
    LastIndexOfUnique(path, '.', |stem|);
    LastIndexOfAppend(stem, ext, '/');
    HasNonDotAppend(stem, ext, LastIndexOf(stem, '/') + 1, |stem|);
    assert path[|stem|..] == ext;
  }

  /** An allowed extension at the end of a path with a named stem is its extension. */
  lemma ExtensionOfNamedStem(stem: string, ext: string)
    requires IsAudioExtension(ext) && NamedStem(stem)
    ensures Extension(stem + ext) == ext
  {
    AudioExtensionShape(ext);
    ExtensionAfterStem(stem, ext);
  }

  /** A path with an extension is a named stem followed by that extension. */
  lemma ExtensionSplitsPath(path: string)
    requires Extension(path) != []
    ensures var ext := Extension(path);
            EndsWith(path, ext) && NamedStem(path[..|path| - |ext|])
  {
    var ext := Extension(path);
    var slash := LastIndexOf(path, '/');
    var dot := LastIndexOf(path, '.');
    var stem := path[..dot];
    assert ext == path[dot..] && path == stem + ext;
    LastIndexOfAppend(stem, ext, '/');
    HasNonDotAppend(stem, ext, slash + 1, dot);
  }

  /** An accepted path ends with its extension, and before it comes a named stem. */
  lemma AudioPathHasNamedStem(path: string)
    requires IsAudioPath(path)
    ensures var ext := Extension(path);
            EndsWith(path, ext) && NamedStem(path[..|path| - |ext|])
  {
    AudioExtensionShape(Extension(path));
    ExtensionSplitsPath(path);
  }

  /** `path` is a named stem followed by the allowed extension `ext`. */
  predicate AudioName(path: string, ext: string)
  {
    IsAudioExtension(ext) && EndsWith(path, ext) && NamedStem(path[..|path| - |ext|])
  }

  /**
   * A path is accepted exactly when it ends with an allowed extension and
   * what comes before the extension, within the last component, is more than
   * dots.
   */
  lemma IsAudioPathIff(path: string)
    ensures IsAudioPath(path) <==> exists ext :: AudioName(path, ext)
  {
    if IsAudioPath(path) {
      AudioPathHasNamedStem(path);
      assert AudioName(path, Extension(path));
    }
    if exists ext :: AudioName(path, ext) {
      var ext :| AudioName(path, ext);
      var stem := path[..|path| - |ext|];
      assert path == stem + ext;
      ExtensionOfNamedStem(stem, ext);
    }
  }

  lemma AudioPathAccepted()
    ensures IsAudioPath("./music/drake.m4a")
  {
    var path := "./music/drake.m4a";
    assert path[8] != '.';
    ExtensionFrom(path, 7, 13);
    assert Extension(path) == ".m4a";
  }

  /** The extension of a path whose last `/` and last `.` are known. */
  lemma ExtensionFrom(path: string, slash: nat, dot: nat)
    requires slash < dot < |path| && path[slash] == '/' && path[dot] == '.'
    requires '/' !in path[slash + 1..] && '.' !in path[dot + 1..]
    ensures Extension(path) == if HasNonDot(path, slash + 1, dot) then path[dot..] else []
  {
    LastIndexOfUnique(path, '/', slash);
    LastIndexOfUnique(path, '.', dot);
  }

  /** The extension test is case-sensitive. */
  lemma AudioPathUpperCaseRejected()
    ensures !IsAudioPath("./music/SONG.MP3")
  {
    var path := "./music/SONG.MP3";
    assert path[8] != '.';
    ExtensionFrom(path, 7, 12);
    assert Extension(path) == ".MP3";
  }

  /** A name made of the extension alone is a hidden file, not an audio file. */
  lemma AudioPathHiddenRejected()
    ensures !IsAudioPath("./music/.mp3")
  {
    var path := "./music/.mp3";
    ExtensionFrom(path, 7, 8);
    assert Extension(path) == [];
  }

  lemma AudioPathOtherRejected()
    ensures !IsAudioPath("./music/cover.jpg")
  {
    var path := "./music/cover.jpg";
    assert path[8] != '.';
    ExtensionFrom(path, 7, 13);
    assert Extension(path) == ".jpg";
  }
}
