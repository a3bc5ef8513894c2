/**
 * What a `set` batch, a `remove_lyrics_from_files` batch and the
 * `set_concurrent` split promise, proved about the specifications in
 * `Library`: only the lyrics tag changes, lyrics already present are kept,
 * the missed list is ordered and exact, a second run changes nothing, and
 * the two halves can be processed in either order.
 */
module SyncProperties {
  import opened Wrappers
  import opened Text
  import opened Artist
  import opened Lookup
  import opened Probe
  import opened Library

  /* ---------- one file ---------- */

  /**
   * The skip guard (main.py:79-83): once the tags are read and the probe
   * succeeds, a file is skipped exactly when its lyrics are longer than ten
   * characters, so lyrics of exactly ten characters are fetched again. The
   * probe runs before the guard, so a failing probe stops the batch even on
   * a file that would have been skipped.
   */
  lemma DecideGuard(path: Path, track: Track, env: Env)
    ensures env.probe(path).Some? ==> (Decide(path, Some(track), env).Skip? <==> |track.lyrics| > 10)
    ensures env.probe(path).None? ==> Decide(path, Some(track), env) == Abort(ProbeFailed)
  {
  }

  /**
   * The three ways the lookup can end for a file that is not skipped
   * (main.py:92-110), in terms of the service's reply: a status other than
   * 200 misses the file; a 200 reply with the three fields writes the
   * formatted block followed by the stream summary; a 200 reply without
   * them stops the batch.
   */
  lemma DecideOnReply(path: Path, track: Track, probe: Path -> Option<StreamStats>, respond: string -> Response)
    requires probe(path).Some? && !HasLyrics(track)
    ensures var reply := respond(track.title + " " + Normalize(track.artist));
            var a := Decide(path, Some(track), Env(probe, FetchFrom(respond)));
            (reply.status != 200 ==> a == Miss)
            && (reply.status == 200 && HasLyricsFields(reply.content) ==>
                  a == Write(FormatBlock(reply.content["title"], reply.content["author"], reply.content["lyrics"], reply.retrieved)
                             + AdditionalInfo(probe(path).value)))
            && (reply.status == 200 && !HasLyricsFields(reply.content) ==> a == Abort(NoLyricsText))
  {
    assert Query(track) == track.title + " " + Normalize(track.artist);
  }

  /** The stream summary is two empty lines followed by the three fields, one per line. */
  lemma AdditionalInfoLines(stats: StreamStats)
    requires '\n' !in stats.bitrate && '\n' !in stats.channels && '\n' !in stats.sampleRate
    ensures Split(AdditionalInfo(stats), '\n')
            == ["", "", "Bitrate: " + stats.bitrate, "Channels: " + stats.channels, "Sample Rate: " + stats.sampleRate]
  {
    var first := "\n" + "\n" + "Bitrate: " + stats.bitrate;
    var second := first + "\n" + "Channels: " + stats.channels;
    SplitAround([], [], '\n');
    SplitAppendLine("\n", "Bitrate: ", stats.bitrate, '\n');
    SplitAppendLine(first, "Channels: ", stats.channels, '\n');
    SplitAppendLine(second, "Sample Rate: ", stats.sampleRate, '\n');
  }

  /**
   * Written lyrics read, line by line, as the fetched lines, one blank line
   * and then the bit rate, the channels and the sample rate, one per line
   * (main.py:103-109).
   */
  lemma WrittenLyricsLines(lyrics: string, stats: StreamStats)
    requires '\n' !in stats.bitrate && '\n' !in stats.channels && '\n' !in stats.sampleRate
    ensures Split(lyrics + AdditionalInfo(stats), '\n')
            == Split(lyrics, '\n') + ["", "Bitrate: " + stats.bitrate, "Channels: " + stats.channels,
                                      "Sample Rate: " + stats.sampleRate]
  {
    AdditionalInfoLines(stats);
    SplitAfterSeparator(lyrics, AdditionalInfo(stats), '\n');
  }

  /* ---------- a whole batch ---------- */

  /**
   * Only the lyrics tag is ever written: the batch keeps the same files and
   * every file's title and artist (main.py:98, main.py:109).
   */
  lemma {:induction false} RunKeepsCatalog(tracks: map<Path, Track>, paths: seq<Path>, env: Env)
    ensures var r := Run(tracks, paths, env);
            r.tracks.Keys == tracks.Keys
            && forall p :: p in tracks ==> r.tracks[p].title == tracks[p].title && r.tracks[p].artist == tracks[p].artist
    decreases |paths|
  {
    if paths != [] {
      var p := paths[0];
      var a := Decide(p, Load(tracks, p), env);
      if !a.Abort? {
        RunKeepsCatalog(tracks[p := Apply(tracks[p], a)], paths[1..], env);
      }
    }
  }

  /** A file the batch is not given is left as it was. */
  lemma {:induction false} RunLeavesOthers(tracks: map<Path, Track>, paths: seq<Path>, env: Env, q: Path)
    requires q !in paths
    ensures Load(Run(tracks, paths, env).tracks, q) == Load(tracks, q)
    decreases |paths|
  {
    if paths != [] {
      var p := paths[0];
      var a := Decide(p, Load(tracks, p), env);
      if !a.Abort? {
        assert q != p && q !in paths[1..];
        RunLeavesOthers(tracks[p := Apply(tracks[p], a)], paths[1..], env, q);
      }
    }
  }

  /**
   * Lyrics longer than ten characters are never touched, and their file is
   * never reported as missed (main.py:79-83).
   */
  lemma {:induction false} RunKeepsExistingLyrics(tracks: map<Path, Track>, paths: seq<Path>, env: Env, q: Path)
    requires q in tracks && HasLyrics(tracks[q])
    ensures var r := Run(tracks, paths, env);
            Load(r.tracks, q) == Some(tracks[q]) && (r.outcome.Finished? ==> q !in r.outcome.missed)
    decreases |paths|
  {
    if paths != [] {
      var p := paths[0];
      var a := Decide(p, Load(tracks, p), env);
      if !a.Abort? {
        var next := tracks[p := Apply(tracks[p], a)];
        if p == q {
          assert a.Skip?;
          assert next == tracks;
        }
        assert next[q] == tracks[q];
        RunKeepsExistingLyrics(next, paths[1..], env, q);
      }
    }
  }

  /** The missed list is in the order of the input: it is a subsequence of it (main.py:95). */
  lemma {:induction false} RunMissedInOrder(tracks: map<Path, Track>, paths: seq<Path>, env: Env)
    ensures var r := Run(tracks, paths, env);
            r.outcome.Finished? ==> IsSubsequence(r.outcome.missed, paths)
    decreases |paths|
  {
    if paths != [] {
      var p, rest := paths[0], paths[1..];
      var a := Decide(p, Load(tracks, p), env);
      if !a.Abort? {
        var next := tracks[p := Apply(tracks[p], a)];
        RunMissedInOrder(next, rest, env);
        MissedStep(tracks, paths, env, a, Run(next, rest, env));
      }
    }
  }

  lemma MissedStep(tracks: map<Path, Track>, paths: seq<Path>, env: Env, a: Action, later: RunResult)
    requires paths != [] && a == Decide(paths[0], Load(tracks, paths[0]), env) && !a.Abort?
    requires later == Run(tracks[paths[0] := Apply(tracks[paths[0]], a)], paths[1..], env)
    requires later.outcome.Finished? ==> IsSubsequence(later.outcome.missed, paths[1..])
    ensures var r := Run(tracks, paths, env);
            r.outcome.Finished? ==> IsSubsequence(r.outcome.missed, paths)
  {
    var p, rest := paths[0], paths[1..];
    assert paths == [p] + rest;
    if later.outcome.Finished? {
      var m := later.outcome.missed;
      if a.Miss? {
        assert Run(tracks, paths, env).outcome.missed == [p] + m;
        SubsequenceBoth(m, p, rest);
      } else {
        assert Run(tracks, paths, env) == later;
        SubsequenceCons(m, p, rest);
      }
    }
  }

  lemma DistinctTail<T>(s: seq<T>)
    requires s != [] && Distinct(s)
    ensures Distinct(s[1..]) && s[0] !in s[1..]
  {
    assert forall i, j :: 0 <= i < j < |s| - 1 ==> s[1..][i] == s[i + 1] && s[1..][j] == s[j + 1];
  }

  /**
   * For files listed once, the batch finishes exactly when no file's own
   * pass raises: every file can be read, probed, and either is skipped or
   * gets a text answer.
   */
  lemma {:induction false} RunFinishes(tracks: map<Path, Track>, paths: seq<Path>, env: Env)
    requires Distinct(paths)
    ensures Run(tracks, paths, env).outcome.Finished?
            <==> forall q :: q in paths ==> !Decide(q, Load(tracks, q), env).Abort?
    decreases |paths|
  {
    if paths != [] {
      var p, rest := paths[0], paths[1..];
      var a := Decide(p, Load(tracks, p), env);
      if !a.Abort? {
        var next := tracks[p := Apply(tracks[p], a)];
        DistinctTail(paths);
        RunFinishes(next, rest, env);
        forall q | q in rest ensures Load(next, q) == Load(tracks, q) {
          assert q != p;
        }
        assert forall q :: q in paths <==> q == p || q in rest;
      }
    }
  }

  /**
   * For files listed once, a finished batch missed exactly the files whose
   * lookup answered with the empty string, judged on the tags they had
   * before the batch.
   */
  lemma {:induction false} RunMissedExactly(tracks: map<Path, Track>, paths: seq<Path>, env: Env)
    requires Distinct(paths)
    ensures var r := Run(tracks, paths, env);
            r.outcome.Finished? ==>
              forall q :: q in r.outcome.missed <==> q in paths && Decide(q, Load(tracks, q), env).Miss?
    decreases |paths|
  {
    if paths != [] {
      var p, rest := paths[0], paths[1..];
      var a := Decide(p, Load(tracks, p), env);
      if !a.Abort? {
        var next := tracks[p := Apply(tracks[p], a)];
        DistinctTail(paths);
        RunMissedExactly(next, rest, env);
        forall q | q in rest ensures Load(next, q) == Load(tracks, q) {
          assert q != p;
        }
        assert forall q :: q in paths <==> q == p || q in rest;
      }
    }
  }

  /** Each listed file once settled by its own pass, on the tags it had before the batch. */
  ghost function Settled(tracks: map<Path, Track>, paths: seq<Path>, env: Env): map<Path, Track>
  {
    map q | q in tracks :: if q in paths then Apply(tracks[q], Decide(q, Some(tracks[q]), env)) else tracks[q]
  }

  /**
   * For files listed once, a finished batch leaves each listed file as its
   * own pass decided and every other file alone: the outcome for one file
   * does not depend on the others or on their order.
   */
  lemma {:induction false} RunSettles(tracks: map<Path, Track>, paths: seq<Path>, env: Env)
    requires Distinct(paths)
    ensures var r := Run(tracks, paths, env);
            r.outcome.Finished? ==> r.tracks == Settled(tracks, paths, env)
    decreases |paths|
  {
    if paths != [] {
      var p, rest := paths[0], paths[1..];
      var a := Decide(p, Load(tracks, p), env);
      if !a.Abort? {
        var next := tracks[p := Apply(tracks[p], a)];
        DistinctTail(paths);
        RunSettles(next, rest, env);
        var s, s' := Settled(tracks, paths, env), Settled(next, rest, env);
        assert s.Keys == s'.Keys;
        forall q | q in s ensures s[q] == s'[q] {
          if q != p {
            assert (q in paths) == (q in rest);
          }
        }
      }
    }
  }

  /**
   * Handling one list after another is handling their concatenation: the
   * second starts from the tags the first saved, and the missed lists are
   * joined; a first list that stops the batch stops it for both.
   */
  lemma {:induction false} RunAppend(tracks: map<Path, Track>, first: seq<Path>, second: seq<Path>, env: Env)
    ensures Run(tracks, first + second, env) == Then(Run(tracks, first, env), second, env)
    decreases |first|
  {
    if first == [] {
      assert first + second == second;
      var r := Run(tracks, second, env);
      if r.outcome.Finished? {
        assert [] + r.outcome.missed == r.outcome.missed;
      }
    } else {
      var p := first[0];
      assert (first + second)[0] == p && (first + second)[1..] == first[1..] + second;
      var a := Decide(p, Load(tracks, p), env);
      if !a.Abort? {
        var next := tracks[p := Apply(tracks[p], a)];
        RunAppend(next, first[1..], second, env);
        var r := Run(next, first[1..], env);
        if a.Miss? && r.outcome.Finished? {
          PrependMissedTwice([p], r.outcome.missed, Run(r.tracks, second, env));
        }
      }
    }
  }

  /**
   * A batch that stops does so at the first file whose pass raises: the
   * files before it were all handled, their tags saved, and nothing after
   * it was touched.
   */
  lemma {:induction false} AbortKeepsPrefix(tracks: map<Path, Track>, paths: seq<Path>, env: Env)
    ensures var r := Run(tracks, paths, env);
            r.outcome.Aborted? ==>
              exists i :: 0 <= i < |paths| && paths[i] == r.outcome.at
                          && Run(tracks, paths[..i], env).outcome.Finished?
                          && Run(tracks, paths[..i], env).tracks == r.tracks
                          && Decide(paths[i], Load(r.tracks, paths[i]), env) == Abort(r.outcome.fault)
    decreases |paths|
  {
    if paths != [] {
      var p, rest := paths[0], paths[1..];
      var a := Decide(p, Load(tracks, p), env);
      if a.Abort? {
        assert paths[..0] == [];
      } else {
        var next := tracks[p := Apply(tracks[p], a)];
        var r' := Run(next, rest, env);
        AbortKeepsPrefix(next, rest, env);
        if r'.outcome.Aborted? {
          var j :| 0 <= j < |rest| && rest[j] == r'.outcome.at
                   && Run(next, rest[..j], env).outcome.Finished?
                   && Run(next, rest[..j], env).tracks == r'.tracks
                   && Decide(rest[j], Load(r'.tracks, rest[j]), env) == Abort(r'.outcome.fault);
          var pre := paths[..j + 1];
          assert pre[0] == p && pre[1..] == rest[..j];
          assert paths[j + 1] == rest[j];
        }
      }
    }
  }

  /**
   * Running the batch again over the same files, with the world answering
   * as before, changes nothing: written lyrics now pass the guard, and a
   * missed file is missed again with its lyrics still empty.
   */
  lemma {:induction false} SyncIdempotent(tracks: map<Path, Track>, paths: seq<Path>, env: Env)
    requires Distinct(paths)
    ensures var r := Run(tracks, paths, env);
            r.outcome.Finished? ==> Run(r.tracks, paths, env) == r
    decreases |paths|
  {
    var r := Run(tracks, paths, env);
    if paths != [] && r.outcome.Finished? {
      var p, rest := paths[0], paths[1..];
      var a := Decide(p, Load(tracks, p), env);
      var settled := Apply(tracks[p], a);
      var next := tracks[p := settled];
      var r' := Run(next, rest, env);
      DistinctTail(paths);
      SyncIdempotent(next, rest, env);
      RunLeavesOthers(next, rest, env, p);
      assert r.tracks == r'.tracks;
      assert Load(r.tracks, p) == Some(settled);
      assert Query(settled) == Query(tracks[p]);
      var b := Decide(p, Some(settled), env);
      assert b == (if a.Miss? then Miss else Skip);
      assert r.tracks[p := Apply(settled, b)] == r.tracks;
    }
  }

  /**
   * For files listed once, a missed file ends the batch with empty lyrics,
   * so the guard of the next batch no longer skips it, whatever the world answers then.
   */
  lemma MissedIsRetried(tracks: map<Path, Track>, paths: seq<Path>, env: Env, later: Env, q: Path)
    requires Distinct(paths)
    requires Run(tracks, paths, env).outcome.Finished? && q in Run(tracks, paths, env).outcome.missed
    ensures var r := Run(tracks, paths, env);
            q in r.tracks && r.tracks[q].lyrics == "" && !Decide(q, Some(r.tracks[q]), later).Skip?
  {
    RunMissedExactly(tracks, paths, env);
    RunSettles(tracks, paths, env);
  }

  /* ---------- remove_lyrics_from_files ---------- */

  /** Every listed file with its lyrics cleared, every other file as it was. */
  ghost function Cleared(tracks: map<Path, Track>, paths: seq<Path>): map<Path, Track>
  {
    map q | q in tracks :: if q in paths then tracks[q].(lyrics := "") else tracks[q]
  }

  /**
   * Clearing stops at the first listed file that cannot be read (main.py:133);
   * when every listed file can be read, each of them ends with empty lyrics
   * and nothing else changes.
   */
  lemma {:induction false} ClearLyricsEffect(tracks: map<Path, Track>, paths: seq<Path>)
    ensures var r := ClearLyrics(tracks, paths);
            (r.failedAt.None? <==> forall q :: q in paths ==> q in tracks)
            && (r.failedAt.Some? ==> r.failedAt.value in paths && r.failedAt.value !in tracks)
            && (r.failedAt.None? ==> r.tracks == Cleared(tracks, paths))
    decreases |paths|
  {
    if paths != [] && paths[0] in tracks {
      var p, rest := paths[0], paths[1..];
      var next := tracks[p := tracks[p].(lyrics := "")];
      ClearLyricsEffect(next, rest);
      assert forall q :: q in paths <==> q == p || q in rest;
      var c, c' := Cleared(tracks, paths), Cleared(next, rest);
      assert c.Keys == c'.Keys;
      forall q | q in c ensures c[q] == c'[q] {
        if q != p {
          assert (q in paths) == (q in rest);
        }
      }
    }
  }

  /** Clearing one file and then a list is clearing the list with that file in front. */
  lemma ClearedCons(tracks: map<Path, Track>, p: Path, rest: seq<Path>)
    requires p in tracks
    ensures Cleared(tracks[p := tracks[p].(lyrics := "")], rest) == Cleared(tracks, [p] + rest)
  {
    var c, c' := Cleared(tracks[p := tracks[p].(lyrics := "")], rest), Cleared(tracks, [p] + rest);
    assert forall q :: q in [p] + rest <==> q == p || q in rest;
    assert c.Keys == c'.Keys;
    forall q | q in c ensures c[q] == c'[q] {
    }
  }

  /**
   * A clear that stops does so at the first listed file that cannot be read
   * (main.py:133): every file listed before it was cleared and saved, and
   * nothing from it onwards was touched.
   */
  lemma {:induction false} ClearStopsAtFirstUnreadable(tracks: map<Path, Track>, paths: seq<Path>)
    ensures var r := ClearLyrics(tracks, paths);
            r.failedAt.Some? ==>
              exists i :: 0 <= i < |paths| && paths[i] == r.failedAt.value && paths[i] !in tracks
                          && (forall j :: 0 <= j < i ==> paths[j] in tracks)
                          && r.tracks == Cleared(tracks, paths[..i])
    decreases |paths|
  {
    if paths != [] {
      var p, rest := paths[0], paths[1..];
      if p !in tracks {
        assert paths[..0] == [];
        assert Cleared(tracks, []) == tracks;
      } else {
        var next := tracks[p := tracks[p].(lyrics := "")];
        var r := ClearLyrics(next, rest);
        ClearStopsAtFirstUnreadable(next, rest);
        if r.failedAt.Some? {
          var k :| 0 <= k < |rest| && rest[k] == r.failedAt.value && rest[k] !in next
                   && (forall j :: 0 <= j < k ==> rest[j] in next)
                   && r.tracks == Cleared(next, rest[..k]);
          assert paths == [p] + rest;
          ClearPrefixStep(tracks, p, rest, k);
        }
      }
    }
  }

  /** The witness one step further: the file in front was readable and is cleared too. */
  lemma ClearPrefixStep(tracks: map<Path, Track>, p: Path, rest: seq<Path>, k: nat)
    requires p in tracks && k < |rest|
    requires forall j :: 0 <= j < k ==> rest[j] in tracks
    ensures var paths := [p] + rest;
            paths[k + 1] == rest[k]
            && (forall j :: 0 <= j < k + 1 ==> paths[j] in tracks)
            && Cleared(tracks[p := tracks[p].(lyrics := "")], rest[..k]) == Cleared(tracks, paths[..k + 1])
  {
    var paths := [p] + rest;
    ClearedCons(tracks, p, rest[..k]);
    assert paths[..k + 1] == [p] + rest[..k];
    assert forall j :: 0 < j < k + 1 ==> paths[j] == rest[j - 1];
  }

  /**
   * Even a clear that stops early keeps the set of files, their titles and
   * artists, and every file it was not given.
   */
  lemma {:induction false} ClearLyricsKeepsCatalog(tracks: map<Path, Track>, paths: seq<Path>)
    ensures var r := ClearLyrics(tracks, paths);
            r.tracks.Keys == tracks.Keys
            && (forall q :: q in tracks ==> r.tracks[q].title == tracks[q].title && r.tracks[q].artist == tracks[q].artist)
            && (forall q :: q in tracks && q !in paths ==> r.tracks[q] == tracks[q])
    decreases |paths|
  {
    if paths != [] && paths[0] in tracks {
      var p := paths[0];
      ClearLyricsKeepsCatalog(tracks[p := tracks[p].(lyrics := "")], paths[1..]);
    }
  }

  /** After a clear, the guard of the next `set` batch skips none of the cleared files. */
  lemma ClearedAreFetched(tracks: map<Path, Track>, paths: seq<Path>, env: Env, q: Path)
    requires ClearLyrics(tracks, paths).failedAt.None? && q in paths
    ensures var r := ClearLyrics(tracks, paths);
            q in r.tracks && !Decide(q, Some(r.tracks[q]), env).Skip?
  {
    ClearLyricsEffect(tracks, paths);
  }

  /* ---------- set_concurrent ---------- */

  /** Handling the two halves one after the other is handling the whole list. */
  lemma HalvesInSequence(tracks: map<Path, Track>, paths: seq<Path>, env: Env)
    ensures var halves := Halves(paths);
            Run(tracks, paths, env) == Then(Run(tracks, halves.0, env), halves.1, env)
  {
    RunAppend(tracks, Halves(paths).0, Halves(paths).1, env);
  }

  /** With every path listed once, no file is in both halves, so the two threads never share a file. */
  lemma HalvesDisjoint(paths: seq<Path>)
    requires Distinct(paths)
    ensures var halves := Halves(paths);
            forall q :: q in halves.0 ==> q !in halves.1
  {
    var halves := Halves(paths);
    forall q | q in halves.0 ensures q !in halves.1 {
      var i :| 0 <= i < |halves.0| && halves.0[i] == q;
      forall j | 0 <= j < |halves.1| ensures halves.1[j] != q {
        assert halves.1[j] == paths[|halves.0| + j] && halves.0[i] == paths[i];
      }
    }
  }

  lemma DistinctSwap<T>(a: seq<T>, b: seq<T>)
    requires Distinct(a + b)
    ensures Distinct(b + a)
  {
    forall i, j | 0 <= i < j < |b + a| ensures (b + a)[i] != (b + a)[j] {
      var ki := if i < |b| then |a| + i else i - |b|;
      var kj := if j < |b| then |a| + j else j - |b|;
      assert (b + a)[i] == (a + b)[ki] && (b + a)[j] == (a + b)[kj];
    }
  }

  /**
   * For files listed once, the order does not matter: two lists with the
   * same files give the same tags and miss the same files.
   */
  lemma RunIgnoresOrder(tracks: map<Path, Track>, paths: seq<Path>, reordered: seq<Path>, env: Env)
    requires Distinct(paths) && Distinct(reordered) && forall q :: q in paths <==> q in reordered
    requires Run(tracks, paths, env).outcome.Finished?
    ensures var r, r' := Run(tracks, paths, env), Run(tracks, reordered, env);
            r'.outcome.Finished? && r'.tracks == r.tracks
            && forall q :: q in r'.outcome.missed <==> q in r.outcome.missed
  {
    RunFinishes(tracks, paths, env);
    RunFinishes(tracks, reordered, env);
    RunSettles(tracks, paths, env);
    RunSettles(tracks, reordered, env);
    RunMissedExactly(tracks, paths, env);
    RunMissedExactly(tracks, reordered, env);
    var s, s' := Settled(tracks, paths, env), Settled(tracks, reordered, env);
    assert s.Keys == s'.Keys;
    forall q | q in s ensures s[q] == s'[q] {
      assert (q in paths) == (q in reordered);
    }
  }

  /**
   * With every path listed once, handling the second half before the first
   * gives the same tags and misses the same files as handling the whole list
   * in order: the halves of `set_concurrent` do not depend on each other.
   */
  lemma HalvesCommute(tracks: map<Path, Track>, paths: seq<Path>, env: Env)
    requires Distinct(paths) && Run(tracks, paths, env).outcome.Finished?
    ensures var halves := Halves(paths);
            var whole := Run(tracks, paths, env);
            var swapped := Then(Run(tracks, halves.1, env), halves.0, env);
            swapped.outcome.Finished? && swapped.tracks == whole.tracks
            && forall q :: q in swapped.outcome.missed <==> q in whole.outcome.missed
  {
    var halves := Halves(paths);
    RunAppend(tracks, halves.1, halves.0, env);
    DistinctSwap(halves.0, halves.1);
    assert forall q :: q in halves.1 + halves.0 <==> q in paths;
    RunIgnoresOrder(tracks, paths, halves.1 + halves.0, env);
  }
}
