/**
  The lane's view of the gate controller: the commands it sends and the
  distance gate that decides whether a camera frame is looked at at all.
  Port discovery, serial I/O and the sleep while the gate is held open are
  outside the model; only the bytes sent are kept.
 */
module Gate {
  import opened Options
  import opened Text

  /** Seconds the gate is held open on a grant (`gate_open_time`). */
  const GateOpenSeconds := 15

  const MinDistance: real := 0.0
  const MaxDistance: real := 50.0

  /** A command to the controller. */
  datatype Command = Open(seconds: nat) | Alert

  /** Bytes written for a command: `open_gate` sends '1', holds, then '0'; `trigger_alert` sends '2'. */
  function Bytes(c: Command): string {
    match c
    case Open(_) => "10"
    case Alert => "2"
  }

  /** How many of the commands open the gate. */
  function Opens(cs: seq<Command>): (n: nat)
    ensures n <= |cs|
    decreases |cs|
  {
    if |cs| == 0 then 0 else (if cs[0].Open? then 1 else 0) + Opens(cs[1..])
  }

  /** Everything a sequence of commands puts on the controller's serial line, in order. */
  function Wire(cs: seq<Command>): (w: string)
    ensures |w| == |cs| + Opens(cs)
    decreases |cs|
  {
    if |cs| == 0 then "" else Bytes(cs[0]) + Wire(cs[1..])
  }

  /** Sending one batch of commands after another writes their bytes one after the other. */
  lemma {:induction false} WireAppend(a: seq<Command>, b: seq<Command>)
    ensures Wire(a + b) == Wire(a) + Wire(b)
    decreases |a|
  {
    if |a| == 0 {
      assert a + b == b;
    } else {
      assert (a + b)[1..] == a[1..] + b;
      WireAppend(a[1..], b);
    }
  }

  /**
    Reading the wire back: every '1' is a gate opening and is followed by a
    '0', and every '2' is an alert; nothing else is written.
   */
  lemma {:induction false} WireCounts(cs: seq<Command>)
    ensures Occurrences(Wire(cs), '1') == Opens(cs)
    ensures Occurrences(Wire(cs), '0') == Opens(cs)
    ensures Occurrences(Wire(cs), '2') == |cs| - Opens(cs)
    decreases |cs|
  {
    if |cs| > 0 {
      WireCounts(cs[1..]);
      var b, w := Bytes(cs[0]), Wire(cs[1..]);
      BytesCounts(cs[0]);
      OccurrencesAppend(b, w, '0');
      OccurrencesAppend(b, w, '1');
      OccurrencesAppend(b, w, '2');
    }
  }

  /** The bytes of one command, counted. */
  lemma BytesCounts(c: Command)
    ensures Occurrences(Bytes(c), '1') == Occurrences(Bytes(c), '0') == (if c.Open? then 1 else 0)
    ensures Occurrences(Bytes(c), '2') == (if c.Open? then 0 else 1)
  {
    assert "10"[1..] == "0" && "0"[1..] == "" && "2"[1..] == "";
  }

  /** `read_distance() or (max_distance + 1)`: a missing reading and a zero reading both become 51. */
  function EffectiveDistance(reading: Option<real>): real {
    if reading.None? || reading.value == 0.0 then MaxDistance + 1.0 else reading.value
  }

  /**
    The test in `run`: a frame is processed only when the effective distance
    lies in [0, 50]; hence exactly for present readings in (0, 50].
   */
  function InTriggerRange(reading: Option<real>): (b: bool)
    ensures b <==> reading.Some? && 0.0 < reading.value <= 50.0
    ensures reading.None? ==> !b
  {
    MinDistance <= EffectiveDistance(reading) <= MaxDistance
  }
}
