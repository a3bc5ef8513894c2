# Lyrics synchronisation for a music folder, modelled in Dafny

`main.py` fills the lyrics tag of the audio files in a folder. It
enumerates the audio files by extension. For each file that does not
already carry lyrics, it builds a query from the title and a normalised
artist and asks a lyrics service. It then writes either the returned lyrics,
followed by a short summary of the audio stream, or an empty tag, and it
lists the file as missed. A second command clears the lyrics of every file,
and a third splits the work into two halves for two threads.

This project models that core:

| module (file) | what it holds |
|---|---|
| `Text` (`text.dfy`) | Python's `str.isspace`, `strip`, `split(sep)` and `rfind`, and the subsequence relation |
| `Artist` (`artist.dfy`) | the artist normaliser: the `re.search` of main.py:87, stated as its leftmost-then-shortest match, and `strip` |
| `Lookup` (`lookup.dfy`) | how `fetch` turns the service's reply into a result |
| `Probe` (`probe.dfy`) | how `probe_file` reads ffprobe's three output lines |
| `Enumerate` (`enumerate.dfy`) | the `os.path.splitext` extension filter and its collecting loop |
| `Library` (`library.dfy`) | the tag store as a class over a map from path to `Track(title, artist, lyrics)`; the `set` loop and the clearing loop as methods proved against the specification functions `Run` and `ClearLyrics`; the list split of `set_concurrent` |
| `SyncProperties` (`sync_properties.dfy`) | what a batch promises, proved about `Run`, `ClearLyrics` and `Halves` |

The outside world enters as parameters:
- ffprobe's printed output, per path;
- the bit-rate conversion `kbps`;
- the service's reply, per query: a status, a string map and the clock reading.

`Library.World` assembles these into the `Env` the loop uses. The
exceptions the model follows out of `set` are an `Aborted` outcome: tags that
cannot be loaded, a failing probe, and the `None + str` of main.py:109. The
tags saved before them are kept.

Where the code and its description differ, the model follows the code:
- `fetch` accepts only status 200, not every 2xx status.
- A 200 reply that lacks `title`, `author` or `lyrics` makes `fetch` return
  `None`. The concatenation at main.py:109 then raises, so the batch stops
  there (`Fault.NoLyricsText`) rather than missing the file.
- `probe_file` runs before the skip guard, so a file whose probe fails stops
  the batch even if its lyrics would have been kept.
- The returned count is never incremented, so it is always 0.

## Model

| member | source | states |
|---|---|---|
| Text.IsWhitespace | main.py:87-89 | the characters of Python's `str.isspace`, which are also what `\s` matches in a `str` pattern and what `strip` removes |
| Text.TrimStart | main.py:89 | the result is a suffix of the input; everything removed is whitespace; the result does not start with whitespace |
| Text.TrimEnd | main.py:89 | the result is a prefix of the input; everything removed is whitespace; the result does not end with whitespace |
| Text.Strip | main.py:89 | a non-empty result neither starts nor ends with whitespace |
| Text.StripIsSlice | main.py:89 | `strip` keeps one contiguous slice, with only whitespace before and after it |
| Text.StripEmpty | main.py:89 | `strip` gives the empty string exactly when the input is all whitespace |
| Text.StripKeeps | main.py:89 | a string with no whitespace at either end is unchanged by `strip` |
| Text.Split | main.py:39-41 | `split("\n")` always yields at least one part |
| Text.SplitPartsLackSeparator | main.py:39-41 | no part of a split contains the separator |
| Text.JoinSplit | main.py:39-41 | joining the parts with the separator gives back the original string |
| Text.SplitJoin | main.py:39-41 | splitting separator-free parts joined by the separator gives back the parts |
| Text.SplitCount | main.py:39-41 | a split has one more part than the string has separators |
| Text.SplitAround | main.py:39-41 | a string split at one separator splits each side independently |
| Text.LastIndexOf | main.py:23 | `rfind`: -1 exactly when the character is absent, else an index holding it with none after it |
| Text.LastIndexOfUnique | main.py:23 | an occurrence with none after it is the one `rfind` reports |
| Text.LastIndexOfAppend | main.py:23 | appending text without the character does not move its last occurrence |
| Artist.FoldsTo | main.py:87 | how `re.IGNORECASE` lets an input character match a pattern character: the same character, the upper case of an ASCII letter, and for `i` also U+0130 and U+0131 |
| Artist.FirstSeparator | main.py:87 | the first index at or after `from` where whitespace followed by a separator alternative matches, or none if there is none |
| Artist.LineStart | main.py:87 | the start of the line holding an index: no newline lies between them, and a newline lies right before it |
| Artist.Normalize | main.py:86-89 | the normalised artist is never longer than the tag |
| Artist.NormalizeFollowsSearch | main.py:86-89 | without a match the artist is used as it is; with one, the result is the stripped group 1 of the leftmost, then shortest, match, as `re.search` reports it |
| Artist.SearchResultUnique | main.py:87 | the reported match is unique |
| Artist.NormalizeOneLine | main.py:86-89 | on a one-line tag the result is the stripped text before the first whitespace that is followed by a separator |
| Artist.NormalizeWithoutSeparator | main.py:86-89 | a tag where no separator matches is used unchanged |
| Artist.NormalizeToWord | main.py:86-89 | a word followed by a separator normalises to that word |
| Artist.NormalizeFeaturing | main.py:86-89 | "Drake feat. Travis Scott" gives "Drake" |
| Artist.NormalizeAmpersand | main.py:86-89 | "Drake & 21 Savage" gives "Drake" |
| Artist.NormalizeNoWordBoundary | main.py:87 | "Drake withers" gives "Drake": no word boundary follows the separator |
| Artist.NormalizeIgnoresCase | main.py:87 | "Drake FT. Future" gives "Drake": the match ignores case |
| Artist.NormalizeSingleName | main.py:86-89 | "Drake" gives "Drake" |
| Artist.NormalizeCommaNeedsSpace | main.py:87 | "Drake, X" is unchanged: the comma is not preceded by whitespace |
| Artist.TokenAtExact | main.py:87 | a separator spelled exactly as in the pattern matches |
| Lookup.Fetch | main.py:54-64 | the empty string exactly for a status other than 200; nothing exactly for status 200 with a field missing; otherwise the formatted block of the three fields |
| Lookup.FormatBlock | main.py:57-62 | the formatted block starts with the title line |
| Lookup.FormatBlockLines | main.py:57-62 | read line by line, the block gives the title line, the author line, a blank line, the lyrics' own lines and the retrieval line |
| Lookup.BlockBodyLines | main.py:57 | the block up to the retrieval line reads as title, author, a blank line and the lyrics' lines |
| Probe.ParseProbeOutput | main.py:39-41 | a result exists only if the output has at least two newlines |
| Probe.ParseProbeOutputReadsFields | main.py:39-43 | three output lines are read back as the sample rate with " Hz" appended, the channels as printed and the converted bit rate; further lines are ignored |
| Enumerate.Extension | main.py:23 | `splitext(path)[1]` is empty, or a dot followed by dot-free, slash-free text that ends the path |
| Enumerate.IsAudioExtension | main.py:23 | the allow-list `.m4a`, `.mp3`, `.flac`, `.wav`, compared exactly |
| Enumerate.IsAudioPath | main.py:23 | a path is accepted when its `splitext` extension is on the allow-list |
| Enumerate.AudioPaths | main.py:18-25 | the accepted candidates in walk order; never more than the candidates |
| Enumerate.CollectAudioPaths | main.py:18-25 | the loop returns exactly `AudioPaths(candidates)` |
| Enumerate.AudioPathsStep | main.py:21-24 | one step of the loop keeps or drops the next candidate |
| Enumerate.AudioPathsMembers | main.py:18-25 | a path is returned exactly when it is a candidate with an allowed extension |
| Enumerate.AudioPathsInOrder | main.py:18-25 | the returned paths keep their walk order: they form a subsequence of the candidates |
| Enumerate.IsAudioPathIff | main.py:23 | a path is accepted exactly when it ends with an allowed extension after a final component that is more than dots |
| Enumerate.ExtensionOfNamedStem | main.py:23 | an allowed extension after a named stem is the path's extension |
| Enumerate.ExtensionAfterStem | main.py:23 | a dot-led suffix without further dots or slashes, after a named stem, is the extension |
| Enumerate.ExtensionSplitsPath | main.py:23 | a path with an extension is a named stem followed by it |
| Enumerate.AudioPathHasNamedStem | main.py:23 | an accepted path ends with its extension after a named stem |
| Enumerate.HasNonDotAppend | main.py:23 | text appended after the stem does not affect the leading-dots test |
| Enumerate.AudioExtensionShape | main.py:23 | every allowed extension is a dot followed by dot-free, slash-free text |
| Enumerate.ExtensionFrom | main.py:23 | the extension, given the positions of the last slash and the last dot |
| Enumerate.AudioPathAccepted | main.py:23 | "./music/drake.m4a" is accepted |
| Enumerate.AudioPathUpperCaseRejected | main.py:23 | "./music/SONG.MP3" is rejected: the test is case-sensitive |
| Enumerate.AudioPathHiddenRejected | main.py:23 | "./music/.mp3" is rejected: a leading dot names a hidden file |
| Enumerate.AudioPathOtherRejected | main.py:23 | "./music/cover.jpg" is rejected |
| Library.ProbeFrom | main.py:28-43 | `probe_file` for each path, read from what ffprobe prints for it |
| Library.FetchFrom | main.py:49-64 | `fetch` for each query, read from the service's reply to it |
| Library.HasLyrics | main.py:79-80 | the skip guard: lyrics longer than ten characters |
| Library.Query | main.py:86-92 | the lookup query starts with the title and a space (the normalised artist follows) |
| Library.Load | main.py:76 | `music_tag.load_file`: the file's tags when it can be read, otherwise nothing |
| Library.AdditionalInfo | main.py:103-107 | the stream summary is longer than ten characters, so written lyrics always pass the guard later |
| Library.Decide | main.py:76-110 | a write is longer than ten characters; every outcome but an abort needs readable tags and a successful probe; a skip needs lyrics longer than ten characters |
| Library.Apply | main.py:93-110 | saving changes only the lyrics: empty for a miss, the written text for a write, unchanged otherwise |
| Library.Run | main.py:69-115 | a finished batch returns the count 0 |
| Library.RunFirst | main.py:74-110 | how `Run` continues after the first file's action |
| Library.PrependMissedTwice | main.py:95 | appending missed paths in two steps is appending them at once |
| Library.ClearLyrics | main.py:130-136 | `remove_lyrics_from_files` as a specification: the same files remain; a reported failure names a listed file that cannot be read |
| Library.Halves | main.py:122 | the two halves together are the input list; the first has `len(paths) // 2` paths, and the second has as many or one more |
| Library.TagStore.SyncLyrics | main.py:69-115 | the loop leaves the tags and returns the outcome that `Run` specifies on the tags it started from |
| Library.TagStore.RemoveLyrics | main.py:130-136 | the loop leaves the tags and the failing path that `ClearLyrics` specifies |
| Library.TagStore.constructor | main.py:76 | the store starts with the given tags |
| SyncProperties.DecideGuard | main.py:77-83 | once tags and probe succeed, a file is skipped exactly when its lyrics are longer than ten characters; a failing probe aborts even a file that would be skipped |
| SyncProperties.DecideOnReply | main.py:92-110 | the query is title, a space and the normalised artist; a status other than 200 misses the file; status 200 with the fields writes the block and the summary; status 200 without them aborts |
| SyncProperties.AdditionalInfoLines | main.py:103-107 | the summary reads as two empty lines, then the bit-rate, channels and sample-rate lines |
| SyncProperties.WrittenLyricsLines | main.py:103-109 | written lyrics read as the fetched lines, one blank line and the three stream lines |
| SyncProperties.RunKeepsCatalog | main.py:93-110 | a batch keeps the same files, and each file's title and artist |
| SyncProperties.RunLeavesOthers | main.py:74 | a file not given to the batch is untouched |
| SyncProperties.RunKeepsExistingLyrics | main.py:79-83 | lyrics longer than ten characters are never changed, and their file is never listed as missed |
| SyncProperties.RunMissedInOrder | main.py:71-115 | the missed list is a subsequence of the input |
| SyncProperties.MissedStep | main.py:95 | one file's pass keeps the missed list a subsequence |
| SyncProperties.RunFinishes | main.py:74-110 | for distinct paths, a batch finishes exactly when no file's own pass raises |
| SyncProperties.RunMissedExactly | main.py:92-115 | for distinct paths, a finished batch missed exactly the files whose lookup answered with the empty string |
| SyncProperties.RunSettles | main.py:74-110 | for distinct paths, a finished batch leaves each listed file as its own pass decides, and every other file alone |
| SyncProperties.RunAppend | main.py:74 | handling one list after another is handling their concatenation |
| SyncProperties.AbortKeepsPrefix | main.py:74-110 | a stopped batch stops at the first file whose pass raises: files before it are handled, nothing after it is touched |
| SyncProperties.SyncIdempotent | main.py:79-110 | with the world answering as before, a second batch changes no tag and misses the same files |
| SyncProperties.MissedIsRetried | main.py:93-100 | for distinct paths, a missed file is left with empty lyrics, so the guard of the next batch no longer skips it |
| SyncProperties.ClearLyricsEffect | main.py:130-136 | the clear fails exactly when some listed file is unreadable, and the file it reports is listed and unreadable; otherwise every listed file has empty lyrics and nothing else changes |
| SyncProperties.ClearStopsAtFirstUnreadable | main.py:130-136 | a clear that stops does so at the first unreadable listed file: every file listed before it is cleared, and nothing else has changed |
| SyncProperties.ClearedCons | main.py:131-135 | clearing one file and then a list is clearing the list with that file in front |
| SyncProperties.ClearLyricsKeepsCatalog | main.py:130-136 | even a clear that stops early keeps the files, their titles and artists, and every file it was not given |
| SyncProperties.ClearedAreFetched | main.py:130-136 | after a clear that reads every listed file, the guard of the next batch skips none of them |
| SyncProperties.HalvesInSequence | main.py:122 | handling the halves one after the other is handling the whole list |
| SyncProperties.HalvesDisjoint | main.py:122 | with distinct paths, no file is in both halves |
| SyncProperties.RunIgnoresOrder | main.py:74-110 | for distinct paths, a finished batch's tags and missed files do not depend on the order of the list |
| SyncProperties.HalvesCommute | main.py:120-126 | for a finished batch over distinct paths, handling the second half first gives the same tags and missed files as the whole list |

## Left out

- The directory walk `os.walk` and `os.path.join` (main.py:20-22): the walk's joined paths are an input sequence. Only `/` is a separator; the Windows separators are not modelled.
- The HTTP request and JSON decoding (main.py:50-55): the reply is an input status code and a map from string to string. JSON values that are not strings are not modelled.
- The clock `datetime.now()` (main.py:61): its formatted reading is an input string.
- Running ffprobe (main.py:35-37): its printed output is an input string per path, and the UTF-8 decoding is not modelled.
- The floating-point conversion and rounding of the bit rate (main.py:32-33, main.py:41): these are the `kbps` parameter.
- The `music_tag` library: a file's tags are a `Track` in a map; a path missing from the map is a file that cannot be loaded. A tag whose `str` value differs from what was stored is not modelled.
- The progress bar, `print` and the `main`/`argparse` dispatch (main.py:70, 81-82, 112-114, 136, 139-175): display and command-line plumbing.
- The two threads of `set_concurrent` (main.py:125-126): only the split is modelled, and the halves are related to running them one after the other, in either order. Their interleaving is not modelled, and the code itself notes that the tag library is not thread-safe. In the threads an exception in one half does not stop the other, whereas `Library.Then` stops at the first half's abort, so the model does not say what the second half does after the first aborts.
- Failing saves (main.py:99, main.py:110, main.py:135): `f.save()` is modelled as always succeeding, so a save that raises is not an `Aborted` outcome.
- Failing requests (main.py:52, main.py:55): a `requests.get` that raises or a body that is not JSON is not modelled; under `Library.World` every query gets a reply.
- A service whose answers change over time: the world (`Library.Env`) is a fixed function of the query, so one query gets one reply within a run. A later run can be given a different world.
- SyncProperties.RunFinishes, RunMissedExactly, RunSettles, SyncIdempotent, RunIgnoresOrder, HalvesDisjoint and HalvesCommute assume each path is listed once, as the directory walk yields it. With a repeated path, a later pass sees the tags an earlier pass saved.
