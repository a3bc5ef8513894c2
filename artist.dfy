/**
 * The artist normaliser of main.py:86-89: the artist tag is searched with
 *   (.*?)\s(?:feat(?:\.|uring)?|&|with|,|and|ft\.|w\.)      (case-insensitive)
 * and, on a match, replaced by group 1 stripped of surrounding whitespace.
 *
 * The pattern is stated here as its meaning (a leftmost, then shortest,
 * match) and the normaliser as a scan for the first separator; the lemmas
 * show that the scan finds exactly the match Python's `re.search` reports.
 */
module Artist {
  import opened Wrappers
  import opened Text

  /**
   * Input character `c` matches pattern character `p` under `re.IGNORECASE`
   * for a `str` pattern: the two cases of an ASCII letter, and for `i` also
   * U+0130 (whose lower case is `i`) and U+0131 (Python's extra fold for `i`).
   */
  predicate FoldsTo(c: char, p: char)
  {
    c == p
    || ('a' <= p <= 'z' && c as int == p as int - 32)
    || (p == 'i' && (c as int == 0x130 || c as int == 0x131))
  }

  /** `token` matches `s` at index `j`, ignoring case. */
  predicate TokenAt(s: string, j: nat, token: string)
  {
    j + |token| <= |s| && forall k :: 0 <= k < |token| ==> FoldsTo(s[j + k], token[k])
  }

  /**
   * One of the separator alternatives matches at `j`. `feat.` and
   * `featuring` extend `feat`, so the optional `(?:\.|uring)?` never changes
   * where a match is found or what group 1 holds.
   */
  predicate SeparatorTokenAt(s: string, j: nat)
  {
    TokenAt(s, j, "feat") || TokenAt(s, j, "&") || TokenAt(s, j, "with") || TokenAt(s, j, ",")
    || TokenAt(s, j, "and") || TokenAt(s, j, "ft.") || TokenAt(s, j, "w.")
  }

  /** `\s` matches at `e` and a separator alternative right after it. */
  predicate SeparatorAt(s: string, e: nat)
  {
    e < |s| && IsWhitespace(s[e]) && SeparatorTokenAt(s, e + 1)
  }

  /** A token spelled exactly as in the pattern matches. */
  lemma TokenAtExact(s: string, j: nat, token: string)
    requires j + |token| <= |s| && s[j..j + |token|] == token
    ensures TokenAt(s, j, token)
  {
    forall k | 0 <= k < |token| ensures FoldsTo(s[j + k], token[k]) {
      assert s[j + k] == s[j..j + |token|][k];
    }
  }

  /**
   * The pattern matches starting at `p` with group 1 = `s[p..e]`:
   * `.` matches anything but a newline.
   */
  ghost predicate MatchesAt(s: string, p: nat, e: nat)
  {
    p <= e && SeparatorAt(s, e) && '\n' !in s[p..e]
  }

  /**
   * What `re.search` reports: the leftmost start position that admits a
   * match, and there the shortest group 1, since `(.*?)` is lazy.
   */
  ghost predicate IsSearchResult(s: string, p: nat, e: nat)
  {
    MatchesAt(s, p, e)
    && forall p': nat, e': nat :: MatchesAt(s, p', e') ==> p < p' || (p == p' && e <= e')
  }

  /** The first position at or after `from` where a separator matches. */
  function FirstSeparator(s: string, from: nat): (r: Option<nat>)
    ensures r.Some? ==> from <= r.value && SeparatorAt(s, r.value)
    ensures r.Some? ==> forall e :: from <= e < r.value ==> !SeparatorAt(s, e)
    ensures r.None? ==> forall e :: from <= e ==> !SeparatorAt(s, e)
    decreases |s| - from
  {
    if from >= |s| then None
    else if SeparatorAt(s, from) then Some(from)
    else FirstSeparator(s, from + 1)
  }

  /** The start of the line that holds index `e`: one past the last newline before it. */
  function LineStart(s: string, e: nat): (p: nat)
    requires e <= |s|
    ensures p <= e && '\n' !in s[p..e]
    ensures p > 0 ==> s[p - 1] == '\n'
  {
    var k := LastIndexOf(s[..e], '\n');
    assert s[..e][k + 1..] == s[k + 1..e];
    k + 1
  }

  /** The artist used in the lookup query (main.py:86-89). */
  function Normalize(artist: string): (r: string)
    ensures |r| <= |artist|
  {
    match FirstSeparator(artist, 0)
    case None => artist
    case Some(e) => Strip(artist[LineStart(artist, e)..e])
  }

  /**
   * The scan agrees with `re.search`: without a match the artist is kept as
   * it is; with one, the result is group 1 of the reported match, stripped.
   */
  lemma NormalizeFollowsSearch(s: string)
    ensures (forall p: nat, e: nat :: !MatchesAt(s, p, e)) ==> Normalize(s) == s
    ensures (exists p: nat, e: nat :: MatchesAt(s, p, e)) ==>
              exists p: nat, e: nat :: IsSearchResult(s, p, e) && Normalize(s) == Strip(s[p..e])
  {
    match FirstSeparator(s, 0)
    case None =>
    case Some(e) =>
      var p := LineStart(s, e);
      assert MatchesAt(s, p, e);
      forall p': nat, e': nat | MatchesAt(s, p', e')
        ensures p < p' || (p == p' && e <= e')
      {
        assert e <= e';
      }
      assert IsSearchResult(s, p, e);
  }

  /** The search result is unique, so the normalised artist is determined by it. */
  lemma SearchResultUnique(s: string, p: nat, e: nat, p': nat, e': nat)
    requires IsSearchResult(s, p, e) && IsSearchResult(s, p', e')
    ensures p == p' && e == e'
  {
  }

  /**
   * On a one-line artist tag the result is the stripped text before the
   * first whitespace that is followed by a separator.
   */
  lemma {:induction false} NormalizeOneLine(s: string, e: nat)
    requires e <= |s| && '\n' !in s[..e]
    requires SeparatorAt(s, e) && forall e' :: 0 <= e' < e ==> !SeparatorAt(s, e')
    ensures Normalize(s) == Strip(s[..e])
  {
    var r := FirstSeparator(s, 0);
    assert r == Some(e);
    assert LineStart(s, e) == 0;
  }

  /** An artist in which no separator matches is used as it is. */
  lemma NormalizeWithoutSeparator(s: string)
    requires forall e :: 0 <= e < |s| ==> !SeparatorAt(s, e)
    ensures Normalize(s) == s
  {
    assert FirstSeparator(s, 0).None?;
  }

  /** The example shape "<word> <separator> ...": the result is the word. */
  lemma NormalizeToWord(s: string, e: nat, w: string)
    requires e <= |s| && s[..e] == w && '\n' !in w
    requires w == [] || (!IsWhitespace(w[0]) && !IsWhitespace(w[|w| - 1]))
    requires SeparatorAt(s, e) && forall e' :: 0 <= e' < e ==> !SeparatorAt(s, e')
    ensures Normalize(s) == w
  {
    NormalizeOneLine(s, e);
    StripKeeps(w);
  }

  lemma NormalizeFeaturing()
    ensures Normalize("Drake feat. Travis Scott") == "Drake"
  {
    var s := "Drake feat. Travis Scott";
    forall e' | 0 <= e' < 5 ensures !SeparatorAt(s, e') { assert !IsWhitespace(s[e']); }
    assert SeparatorAt(s, 5) by {
      assert s[6..10] == "feat";
      TokenAtExact(s, 6, "feat");
    }
    NormalizeToWord(s, 5, "Drake");
  }

  lemma NormalizeAmpersand()
    ensures Normalize("Drake & 21 Savage") == "Drake"
  {
    var s := "Drake & 21 Savage";
    forall e' | 0 <= e' < 5 ensures !SeparatorAt(s, e') { assert !IsWhitespace(s[e']); }
    assert SeparatorAt(s, 5) by {
      assert s[6..7] == "&";
      TokenAtExact(s, 6, "&");
    }
    NormalizeToWord(s, 5, "Drake");
  }

  /** There is no word boundary after the separator: `with` inside `withers` still matches. */
  lemma NormalizeNoWordBoundary()
    ensures Normalize("Drake withers") == "Drake"
  {
    var s := "Drake withers";
    forall e' | 0 <= e' < 5 ensures !SeparatorAt(s, e') { assert !IsWhitespace(s[e']); }
    assert SeparatorAt(s, 5) by {
      assert s[6..10] == "with";
      TokenAtExact(s, 6, "with");
    }
    NormalizeToWord(s, 5, "Drake");
  }

  /** Case is ignored: an upper-case `FT.` separates too. */
  lemma NormalizeIgnoresCase()
    ensures Normalize("Drake FT. Future") == "Drake"
  {
    var s := "Drake FT. Future";
    forall e' | 0 <= e' < 5 ensures !SeparatorAt(s, e') { assert !IsWhitespace(s[e']); }
    assert SeparatorAt(s, 5) by {
      assert FoldsTo(s[6], 'f') && FoldsTo(s[7], 't') && FoldsTo(s[8], '.');
      assert TokenAt(s, 6, "ft.");
    }
    NormalizeToWord(s, 5, "Drake");
  }

  /** Without a separator the artist is kept. */
  lemma NormalizeSingleName()
    ensures Normalize("Drake") == "Drake"
  {
    var s := "Drake";
    forall e | 0 <= e < |s| ensures !SeparatorAt(s, e) { assert !IsWhitespace(s[e]); }
    NormalizeWithoutSeparator(s);
  }

  /** A comma only separates when whitespace comes right before it. */
  lemma NormalizeCommaNeedsSpace()
    ensures Normalize("Drake, X") == "Drake, X"
  {
    var t := "Drake, X";
    forall e | 0 <= e < |t| ensures !SeparatorAt(t, e) {
      if e != 6 {
        assert !IsWhitespace(t[e]);
      } else {
        assert !SeparatorTokenAt(t, 7) by {
          assert t[7] == 'X';
          assert !FoldsTo(t[7], "&"[0]) && !FoldsTo(t[7], ","[0]);
        }
      }
    }
    NormalizeWithoutSeparator(t);
  }
}
