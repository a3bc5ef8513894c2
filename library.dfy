/**
 * The lyrics synchronisation of main.py: the per-file loop `set`
 * (main.py:69-115), the bulk clear `remove_lyrics_from_files`
 * (main.py:130-136) and the list split of `set_concurrent` (main.py:122).
 *
 * The tag library is replaced by a map from path to the three tags the tool
 * uses; the outside world (ffprobe's output, the bit-rate conversion and the
 * lyrics service's reply) enters as the functions of an `Env`.
 */
module Library {
  import opened Wrappers
  import opened Text
  import opened Artist
  import opened Lookup
  import opened Probe

  type Path = string

  /** The tags of one audio file that the tool reads or writes. */
  datatype Track = Track(title: string, artist: string, lyrics: string)

  /** The lyrics service's reply to one query, with the clock reading taken when it is formatted. */
  datatype Response = Response(status: int, content: map<string, string>, retrieved: string)

  /**
   * The world outside the model as the loop sees it: `probe_file` for each
   * file and `fetch` for each query. Each is a fixed function, so the same
   * query gets the same answer; `World` builds them from what ffprobe prints
   * and how the service replies.
   */
  datatype Env = Env(probe: Path -> Option<StreamStats>, lookup: string -> Option<string>)

  /** What stops a batch: an exception that propagates out of `set`. */
  datatype Fault =
    | TagsUnreadable   // `music_tag.load_file` fails (main.py:76)
    | ProbeFailed      // `probe_file` raises (main.py:77)
    | NoLyricsText     // `fetch` returned `None` and `None + str` raises (main.py:109)

  /** How a batch ends: with the missed list and the count, or at the file whose exception stopped it. */
  datatype Outcome = Finished(missed: seq<Path>, count: int) | Aborted(at: Path, fault: Fault)

  datatype RunResult = RunResult(tracks: map<Path, Track>, outcome: Outcome)

  /** What the loop body does with one file. */
  datatype Action = Skip | Miss | Write(lyrics: string) | Abort(fault: Fault)

  /**
   * `probe_file` (main.py:28-43) on what ffprobe prints for each file;
   * `kbps` stands for the bit rate's floating-point formatting.
   */
  function ProbeFrom(ffprobe: Path -> string, kbps: string -> Option<string>): Path -> Option<StreamStats>
  {
    path => ParseProbeOutput(ffprobe(path), kbps)
  }

  /** `fetch` (main.py:49-64) on the service's reply to each query. */
  function FetchFrom(respond: string -> Response): string -> Option<string>
  {
    query => var reply := respond(query); Fetch(reply.status, reply.content, reply.retrieved)
  }

  function World(ffprobe: Path -> string, kbps: string -> Option<string>, respond: string -> Response): Env
  {
    Env(ProbeFrom(ffprobe, kbps), FetchFrom(respond))
  }

  /** The skip guard of main.py:79-80: lyrics longer than ten characters are kept. */
  predicate HasLyrics(track: Track)
  {
    |track.lyrics| > 10
  }

  /** The lookup query of main.py:86-92: the title, a space and the normalised artist. */
  function Query(track: Track): (q: string)
    ensures StartsWith(q, track.title + " ")
  {
    track.title + " " + Normalize(track.artist)
  }

  /** The stream summary appended to fetched lyrics (main.py:103-107). */
  function AdditionalInfo(stats: StreamStats): (info: string)
    ensures |info| > 10
  {
    "\n" + "\n" + "Bitrate: " + stats.bitrate + "\n" + "Channels: " + stats.channels + "\n" + "Sample Rate: " + stats.sampleRate
  }

  /** `music_tag.load_file(path)`: the file's tags, or nothing when it cannot be read. */
  function Load(tracks: map<Path, Track>, path: Path): Option<Track>
  {
    if path in tracks then Some(tracks[path]) else None
  }

  /**
   * One pass of the loop body (main.py:76-110) for a file whose tags read as
   * `loaded`. Lyrics it writes are long enough that the guard keeps them on
   * every later pass.
   */
  function Decide(path: Path, loaded: Option<Track>, env: Env): (a: Action)
    ensures a.Write? ==> |a.lyrics| > 10
    ensures !a.Abort? ==> loaded.Some? && env.probe(path).Some?
    ensures a.Skip? ==> HasLyrics(loaded.value)
  {
    match loaded
    case None => Abort(TagsUnreadable)
    case Some(track) =>
      match env.probe(path)
      case None => Abort(ProbeFailed)
      case Some(stats) =>
        if HasLyrics(track) then Skip
        else
          match env.lookup(Query(track))
          case None => Abort(NoLyricsText)
          case Some(lyrics) =>
            if lyrics == "" then Miss else Write(lyrics + AdditionalInfo(stats))
  }

  /** The tags after `a` is saved: only the lyrics can change. */
  function Apply(track: Track, a: Action): (t: Track)
    ensures t.title == track.title && t.artist == track.artist
    ensures a.Miss? ==> t.lyrics == ""
    ensures a.Write? ==> t.lyrics == a.lyrics
    ensures !a.Miss? && !a.Write? ==> t == track
  {
    match a
    case Miss => track.(lyrics := "")
    case Write(lyrics) => track.(lyrics := lyrics)
    case _ => track
  }

  /** A result whose missed list is preceded by `missed`. */
  function PrependMissed(missed: seq<Path>, r: RunResult): RunResult
  {
    match r.outcome
    case Finished(later, count) => RunResult(r.tracks, Finished(missed + later, count))
    case Aborted(_, _) => r
  }

  /**
   * `set(paths)` (main.py:69-115) as a specification: the files are handled
   * in order, each by `Decide` on its current tags; a missed file is listed;
   * the first exception stops the batch with everything saved before it
   * kept. The returned count is never incremented, so it is always 0.
   */
  function Run(tracks: map<Path, Track>, paths: seq<Path>, env: Env): (r: RunResult)
    ensures r.outcome.Finished? ==> r.outcome.count == 0
    decreases |paths|
  {
    if paths == [] then RunResult(tracks, Finished([], 0))
    else
      var path := paths[0];
      var a := Decide(path, Load(tracks, path), env);
      if a.Abort? then RunResult(tracks, Aborted(path, a.fault))
      else
        var r := Run(tracks[path := Apply(tracks[path], a)], paths[1..], env);
        if a.Miss? then PrependMissed([path], r) else r
  }

  /** Running `more` after a run that finished, collecting both missed lists. */
  function Then(r: RunResult, more: seq<Path>, env: Env): RunResult
  {
    if r.outcome.Finished? then PrependMissed(r.outcome.missed, Run(r.tracks, more, env)) else r
  }

  lemma PrependMissedTwice(m1: seq<Path>, m2: seq<Path>, r: RunResult)
    ensures PrependMissed(m1, PrependMissed(m2, r)) == PrependMissed(m1 + m2, r)
  {
    if r.outcome.Finished? {
      AppendAssoc(m1, m2, r.outcome.missed);
    }
  }

  /** `Run` on a non-empty list, once the first file's action `a` is known. */
  lemma RunFirst(tracks: map<Path, Track>, paths: seq<Path>, env: Env, a: Action)
    requires paths != [] && a == Decide(paths[0], Load(tracks, paths[0]), env)
    ensures a.Abort? ==> Run(tracks, paths, env) == RunResult(tracks, Aborted(paths[0], a.fault))
    ensures a.Skip? ==> Run(tracks, paths, env) == Run(tracks, paths[1..], env)
    ensures a.Miss? ==>
              Run(tracks, paths, env)
              == PrependMissed([paths[0]], Run(tracks[paths[0] := tracks[paths[0]].(lyrics := "")], paths[1..], env))
    ensures a.Write? ==>
              Run(tracks, paths, env) == Run(tracks[paths[0] := tracks[paths[0]].(lyrics := a.lyrics)], paths[1..], env)
  {
    if a.Skip? {
      assert tracks[paths[0] := tracks[paths[0]]] == tracks;
    }
  }

  /** How a `remove_lyrics_from_files` batch ends: the map, and the file that could not be read, if any. */
  datatype ClearResult = ClearResult(tracks: map<Path, Track>, failedAt: Option<Path>)

  /** `remove_lyrics_from_files(paths)` (main.py:130-136) as a specification. */
  function ClearLyrics(tracks: map<Path, Track>, paths: seq<Path>): (r: ClearResult)
    ensures r.tracks.Keys == tracks.Keys
    ensures r.failedAt.Some? ==> r.failedAt.value in paths && r.failedAt.value !in tracks
    decreases |paths|
  {
    if paths == [] then ClearResult(tracks, None)
    else if paths[0] !in tracks then ClearResult(tracks, Some(paths[0]))
    else ClearLyrics(tracks[paths[0] := tracks[paths[0]].(lyrics := "")], paths[1..])
  }

  /**
   * The two lists `set_concurrent` hands to its threads (main.py:122):
   * together they are the input, and the first has `len(paths) // 2` paths.
   */
  function Halves(paths: seq<Path>): (halves: (seq<Path>, seq<Path>))
    ensures halves.0 + halves.1 == paths
    ensures |halves.0| == |paths| / 2 && 0 <= |halves.1| - |halves.0| <= 1
  {
    (paths[..|paths| / 2], paths[|paths| / 2..])
  }

  /** The audio files' tags, as `music_tag` reads and saves them. */
  class TagStore {
    var tracks: map<Path, Track>

    constructor(initial: map<Path, Track>)
      ensures tracks == initial
    {
      tracks := initial;
    }

    /** The loop of `set` (main.py:69-115); an exception ends it early with the saved tags kept. */
    method SyncLyrics(paths: seq<Path>, env: Env) returns (outcome: Outcome)
      modifies this
      ensures RunResult(tracks, outcome) == Run(old(tracks), paths, env)
    {
      ghost var goal := Run(tracks, paths, env);
      var missed: seq<Path> := [];
      var count := 0;
      var i := 0;
      assert paths[i..] == paths;
      while i < |paths|
        invariant i <= |paths| && count == 0
        invariant PrependMissed(missed, Run(tracks, paths[i..], env)) == goal
      {
        var path := paths[i];
        ghost var todo := paths[i..];
        assert todo[0] == path && todo[1..] == paths[i + 1..];
        if path !in tracks {
          RunFirst(tracks, todo, env, Abort(TagsUnreadable));
          return Aborted(path, TagsUnreadable);
        }
        var track := tracks[path];
        var probe := env.probe(path);
        if probe.None? {
          RunFirst(tracks, todo, env, Abort(ProbeFailed));
          return Aborted(path, ProbeFailed);
        }
        if HasLyrics(track) {
          RunFirst(tracks, todo, env, Skip);
          i := i + 1;
          continue;
        }
        var artist := Normalize(track.artist);
        var lyrics := env.lookup(track.title + " " + artist);
        assert track.title + " " + artist == Query(track);
        if lyrics == Some("") {
          RunFirst(tracks, todo, env, Miss);
          PrependMissedTwice(missed, [path], Run(tracks[path := track.(lyrics := "")], paths[i + 1..], env));
          missed := missed + [path];
          tracks := tracks[path := track.(lyrics := "")];
          i := i + 1;
          continue;
        }
        if lyrics.None? {
          RunFirst(tracks, todo, env, Abort(NoLyricsText));
          return Aborted(path, NoLyricsText);
        }
        var additionalInfo := AdditionalInfo(probe.value);
        RunFirst(tracks, todo, env, Write(lyrics.value + additionalInfo));
        tracks := tracks[path := track.(lyrics := lyrics.value + additionalInfo)];
        i := i + 1;
      }
      assert paths[i..] == [] && missed + [] == missed;
      return Finished(missed, count);
    }

    /** The loop of `remove_lyrics_from_files` (main.py:130-136). */
    method RemoveLyrics(paths: seq<Path>) returns (failedAt: Option<Path>)
      modifies this
      ensures ClearResult(tracks, failedAt) == ClearLyrics(old(tracks), paths)
    {
      var i := 0;
      while i < |paths|
        invariant i <= |paths|
        invariant ClearLyrics(tracks, paths[i..]) == ClearLyrics(old(tracks), paths)
      {
        var path := paths[i];
        assert paths[i..][0] == path && paths[i..][1..] == paths[i + 1..];
        if path !in tracks {
          return Some(path);
        }
        tracks := tracks[path := tracks[path].(lyrics := "")];
        i := i + 1;
      }
      assert paths[i..] == [];
      return None;
    }
  }
}
