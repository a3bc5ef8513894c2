/**
 * The stream prober `probe_file` (main.py:28-43). Running ffprobe is
 * outside the model; what is modelled is how its text output (one value per
 * line: sample rate, channels, bit rate) becomes the three display strings.
 */
module Probe {
  import opened Wrappers
  import opened Text

  /** The formatted stream statistics that end up in the lyrics tag. */
  datatype StreamStats = StreamStats(bitrate: string, channels: string, sampleRate: string)

  /**
   * `probe_file` on ffprobe's output `out`. A line that is not there raises
   * `IndexError` and a bit rate that `float` cannot read raises `ValueError`;
   * both are `None` here. `kbps` stands for `format_bit_rate(float(line))`,
   * the floating-point conversion and rounding, which is not modelled.
   */
  function ParseProbeOutput(out: string, kbps: string -> Option<string>): (r: Option<StreamStats>)
    ensures r.Some? ==> multiset(out)['\n'] >= 2
  {
    var lines := Split(out, '\n');
    SplitCount(out, '\n');
    if |lines| < 3 then None
    else
      match kbps(lines[2])
      case None => None
      case Some(bitrate) => Some(StreamStats(bitrate, lines[1], lines[0] + " Hz"))
  }

  /**
   * The output ffprobe prints for a stream is read back field by field:
   * the sample rate with " Hz" appended, the channel count as printed, and
   * the bit rate through `kbps`; further lines are ignored.
   */
  lemma {:induction false} ParseProbeOutputReadsFields(rate: string, channels: string, bitrate: string,
                                                       rest: seq<string>, kbps: string -> Option<string>)
    requires '\n' !in rate && '\n' !in channels && '\n' !in bitrate
    requires forall k :: 0 <= k < |rest| ==> '\n' !in rest[k]
    ensures ParseProbeOutput(Join([rate, channels, bitrate] + rest, '\n'), kbps)
            == if kbps(bitrate).Some? then Some(StreamStats(kbps(bitrate).value, channels, rate + " Hz")) else None
  {
    var parts := [rate, channels, bitrate] + rest;
    forall k | 0 <= k < |parts| ensures '\n' !in parts[k] {
      if k >= 3 { assert parts[k] == rest[k - 3]; }
    }
    SplitJoin(parts, '\n');
  }
}
