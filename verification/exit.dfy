/**
  `CarExitSystem`: a trusted plate leaves only on the strength of a paid
  exit stamped within the last five minutes. The frame pipeline is the one
  of the entry lane, with the exit policy at its end.
 */
module ExitLane {
  import opened Options
  import opened RecordStore
  import opened Plates
  import opened Gate

  /** Grace period after payment during which the exit opens (`exit_window_minutes`). */
  const ExitWindowMinutes := 5

  const NoPaymentReason := "No valid payment"

  /** What `_handle_exit` did: whether it let the car out, the store afterwards, and the gate commands it sent. */
  datatype ExitStep = ExitStep(granted: bool, store: Store, commands: seq<Command>)

  /**
    `_handle_exit`: open the gate for a plate with a recent paid exit;
    otherwise log a "No valid payment" incident (subject to suppression) and
    sound the alert. Parking records are only ever read.
   */
  function HandleExit(store: Store, plate: string, now: int): (r: ExitStep)
    ensures r.granted <==>
      exists i :: 0 <= i < |store.records| && IsRecentPaidExit(store.records[i], plate, now - ExitWindowMinutes * 60)
    ensures r.store.records == store.records
    ensures r.granted ==> r.store == store && r.commands == [Open(GateOpenSeconds)]
    ensures !r.granted ==>
      && r.store == AddDenialIncident(store, plate, NoPaymentReason, now).store
      && r.commands == [Alert]
  {
    if HasRecentPaidExit(store, plate, ExitWindowMinutes, now) then
      ExitStep(true, store, [Open(GateOpenSeconds)])
    else
      ExitStep(false, AddDenialIncident(store, plate, NoPaymentReason, now).store, [Alert])
  }

  /**
    Paying is what opens the exit: after a plate's open record is stamped and
    marked paid at `paidAt`, the exit lets it out at any time less than five
    minutes later.
   */
  lemma PaidThenExit(store: Store, plate: string, amount: int, paidAt: int, later: int)
    requires HasUnpaidRecord(store, plate)
    requires paidAt <= later < paidAt + ExitWindowMinutes * 60
    ensures HandleExit(MarkAsPaid(UpdateExitAndPayment(store, plate, amount, paidAt), plate), plate, later).granted
  {
    PaidExitWindow(store, plate, amount, paidAt, later);
  }

  /** A plate none of whose records is paid never gets out, and each refusal is logged unless one was logged in the last five minutes. */
  lemma UnpaidNeverExits(store: Store, plate: string, now: int)
    requires forall i :: 0 <= i < |store.records| && store.records[i].plate == plate ==> !store.records[i].paid
    ensures !HandleExit(store, plate, now).granted
    ensures |HandleExit(store, plate, now).store.incidents| == |store.incidents| +
      (if HasRecentDenial(store, plate, NoPaymentReason, SuppressionMinutes, now) then 0 else 1)
  {
    var w := AddDenialIncident(store, plate, NoPaymentReason, now);
    assert w.id.None? <==> HasRecentDenial(store, plate, NoPaymentReason, SuppressionMinutes, now);
  }

  // ---------------------------------------------------------------------------
  // Frames
  // ---------------------------------------------------------------------------

  /** The exit lane between frames: store, consensus buffer, and every gate command sent so far. */
  datatype Lane = Lane(store: Store, buffer: seq<string>, sent: seq<Command>)

  predicate LaneInvariant(lane: Lane) {
    && |lane.buffer| < CaptureThreshold
    && (forall k :: 0 <= k < |lane.buffer| ==> IsPlateShaped(lane.buffer[k]))
  }

  /**
    One detected plate through the consensus buffer. Below the threshold it
    is only buffered; at the threshold the consensus of the three readings
    goes to the exit policy, whose decision is applied, and the buffer
    empties. A consensus of plate-shaped readings is never empty, so the
    `if consensus_plate` test never drops it.
   */
  function Consider(lane: Lane, plate: string, now: int): (r: Lane)
    requires LaneInvariant(lane) && IsPlateShaped(plate)
    ensures LaneInvariant(r)
    ensures r.store.records == lane.store.records
    ensures AppendOnly(lane.store, r.store)
    ensures IsPrefix(lane.sent, r.sent)
    ensures |lane.buffer| < CaptureThreshold - 1 ==> r == lane.(buffer := lane.buffer + [plate])
    ensures |lane.buffer| == CaptureThreshold - 1 ==>
      var step := HandleExit(lane.store, MostCommon(lane.buffer + [plate]), now);
      r.buffer == [] && r.store == step.store && r.sent == lane.sent + step.commands
  {
    var o := Observe(lane.buffer, plate);
    ObserveKeepsShaped(lane.buffer, plate);
    if o.emitted.Some? && o.emitted.value != "" then Decide(lane.(buffer := o.buffer), o.emitted.value, now)
    else lane.(buffer := o.buffer)
  }

  /** `_handle_exit` on a consensus plate: its incidents and gate commands are applied, the buffer is left alone. */
  function Decide(lane: Lane, plate: string, now: int): (r: Lane)
    ensures var step := HandleExit(lane.store, plate, now);
      r.buffer == lane.buffer && r.store == step.store && r.sent == lane.sent + step.commands
    ensures r.store.records == lane.store.records
    ensures AppendOnly(lane.store, r.store)
    ensures IsPrefix(lane.sent, r.sent)
  {
    var step := HandleExit(lane.store, plate, now);
    assert (lane.sent + step.commands)[..|lane.sent|] == lane.sent;
    Lane(step.store, lane.buffer, lane.sent + step.commands)
  }

  function ConsiderAll(lane: Lane, plates: seq<string>, now: int): (r: Lane)
    requires LaneInvariant(lane)
    requires forall k :: 0 <= k < |plates| ==> IsPlateShaped(plates[k])
    ensures LaneInvariant(r)
    ensures r.store.records == lane.store.records
    ensures AppendOnly(lane.store, r.store)
    ensures IsPrefix(lane.sent, r.sent)
    ensures |lane.buffer| + |plates| < CaptureThreshold ==> r == lane.(buffer := lane.buffer + plates)
    ensures |plates| == 1 ==> r == Consider(lane, plates[0], now)
    decreases |plates|
  {
    if |plates| == 0 then
      assert lane.buffer + plates == lane.buffer;
      lane
    else
      assert (lane.buffer + [plates[0]]) + plates[1..] == lane.buffer + plates;
      ConsiderAll(Consider(lane, plates[0], now), plates[1..], now)
  }

  /** One pass of the exit lane's loop: distance gate, plate filter, consensus, policy. */
  function ExitFrame(lane: Lane, distance: Option<real>, readings: seq<string>, now: int): (r: Lane)
    requires LaneInvariant(lane)
    ensures LaneInvariant(r)
    ensures r.store.records == lane.store.records
    ensures AppendOnly(lane.store, r.store)
    ensures IsPrefix(lane.sent, r.sent)
    ensures InTriggerRange(distance) && |lane.buffer| + |DetectedPlates(readings)| < CaptureThreshold ==>
      r == lane.(buffer := lane.buffer + DetectedPlates(readings))
    ensures !InTriggerRange(distance) ==> r == lane
  {
    if InTriggerRange(distance) then ConsiderAll(lane, DetectedPlates(readings), now) else lane
  }

  /** A frame in range with a single reading that validates considers exactly that reading's plate. */
  lemma ExitFrameOfOne(lane: Lane, distance: Option<real>, reading: string, now: int)
    requires LaneInvariant(lane) && InTriggerRange(distance) && ValidatePlate(reading).Some?
    ensures ExitFrame(lane, distance, [reading], now) == Consider(lane, ValidatePlate(reading).value, now)
  {
    var p := ValidatePlate(reading).value;
    assert DetectedPlates([reading]) == [p];
    var c := Consider(lane, p, now);
    assert [p][1..] == [];
    assert ConsiderAll(lane, [p], now) == ConsiderAll(c, [], now);
  }

  /**
    A plate read in three frames in a row from an empty buffer reaches the
    exit policy on the third: the store and the gate commands are exactly
    what `_handle_exit` does for it at that moment, and the buffer is empty
    again.
   */
  lemma ThreeSightingsExit(lane: Lane, d1: Option<real>, d2: Option<real>, d3: Option<real>, reading: string,
                           n1: int, n2: int, n3: int)
    requires LaneInvariant(lane) && lane.buffer == []
    requires InTriggerRange(d1) && InTriggerRange(d2) && InTriggerRange(d3)
    requires ValidatePlate(reading).Some?
    ensures var p := ValidatePlate(reading).value;
      var r := ExitFrame(ExitFrame(ExitFrame(lane, d1, [reading], n1), d2, [reading], n2), d3, [reading], n3);
      var step := HandleExit(lane.store, p, n3);
      r.buffer == [] && r.store == step.store && r.sent == lane.sent + step.commands
  {
    var p := ValidatePlate(reading).value;
    ExitFrameOfOne(lane, d1, reading, n1);
    var l1 := ExitFrame(lane, d1, [reading], n1);
    assert l1 == lane.(buffer := [p]);
    ExitFrameOfOne(l1, d2, reading, n2);
    var l2 := ExitFrame(l1, d2, [reading], n2);
    assert l2 == lane.(buffer := [p, p]);
    ExitFrameOfOne(l2, d3, reading, n3);
    ConsensusOfThree(p, p, p);
    assert [p, p] + [p] == [p, p, p];
  }

  /** What the exit lane puts on the wire for one plate: '1' then '0' when it lets the car out, a lone '2' otherwise. */
  lemma ExitWire(store: Store, plate: string, now: int)
    ensures var step := HandleExit(store, plate, now);
      Wire(step.commands) == if step.granted then "10" else "2"
  {
    var step := HandleExit(store, plate, now);
    assert Wire([Alert]) == "2" + Wire([]);
    assert Wire([Open(GateOpenSeconds)]) == "10" + Wire([]);
  }

  /** Considering two batches of plates one after the other is considering them together. */
  lemma {:induction false} ConsiderAllAppend(lane: Lane, a: seq<string>, b: seq<string>, now: int)
    requires LaneInvariant(lane)
    requires forall k :: 0 <= k < |a| ==> IsPlateShaped(a[k])
    requires forall k :: 0 <= k < |b| ==> IsPlateShaped(b[k])
    ensures forall k :: 0 <= k < |a + b| ==> IsPlateShaped((a + b)[k])
    ensures ConsiderAll(lane, a + b, now) == ConsiderAll(ConsiderAll(lane, a, now), b, now)
    decreases |a|
  {
    if |a| == 0 {
      assert a + b == b;
    } else {
      assert (a + b)[0] == a[0] && (a + b)[1..] == a[1..] + b;
      ConsiderAllAppend(Consider(lane, a[0], now), a[1..], b, now);
    }
  }

  /**
    A frame's readings are taken in order: in range, the frame of `a + b`
    is the frame of `a` followed by the plates of `b`, each through the
    consensus buffer and, at every third, the policy.
   */
  lemma ExitFrameAppend(lane: Lane, distance: Option<real>, a: seq<string>, b: seq<string>, now: int)
    requires LaneInvariant(lane) && InTriggerRange(distance)
    ensures ExitFrame(lane, distance, a + b, now) == ConsiderAll(ExitFrame(lane, distance, a, now), DetectedPlates(b), now)
  {
    DetectedPlatesAppend(a, b);
    ConsiderAllAppend(lane, DetectedPlates(a), DetectedPlates(b), now);
  }

  /**
    Three readings of one plate in a single in-range frame, from an empty
    buffer, reach `_handle_exit` once, and what it decides is applied.
   */
  lemma OneFrameThreeReadingsExit(lane: Lane, distance: Option<real>, reading: string, now: int)
    requires LaneInvariant(lane) && lane.buffer == []
    requires InTriggerRange(distance) && ValidatePlate(reading).Some?
    ensures var p := ValidatePlate(reading).value;
      var r := ExitFrame(lane, distance, [reading, reading, reading], now);
      var step := HandleExit(lane.store, p, now);
      r.buffer == [] && r.store == step.store && r.sent == lane.sent + step.commands
  {
    var p := ValidatePlate(reading).value;
    DetectedThrice(reading);
    ConsiderThrice(lane, p, now);
  }

  /** Three sightings of one plate from an empty buffer: the first two wait in the buffer, the third goes through `_handle_exit`. */
  lemma ConsiderThrice(lane: Lane, p: string, now: int)
    requires LaneInvariant(lane) && lane.buffer == [] && IsPlateShaped(p)
    ensures var r := ConsiderAll(lane, [p, p, p], now);
      var step := HandleExit(lane.store, p, now);
      r.buffer == [] && r.store == step.store && r.sent == lane.sent + step.commands
  {
    ConsiderAllOfThree(lane, p, now);
    var l2 := Consider(Consider(lane, p, now), p, now);
    assert l2.buffer == [p, p] && l2.store == lane.store && l2.sent == lane.sent;
    ThirdSighting(l2, p, now);
  }

  /** A batch of three plates is three `Consider` steps. */
  lemma ConsiderAllOfThree(lane: Lane, p: string, now: int)
    requires LaneInvariant(lane) && IsPlateShaped(p)
    ensures ConsiderAll(lane, [p, p, p], now) == Consider(Consider(Consider(lane, p, now), p, now), p, now)
  {
    assert [p, p, p][1..] == [p, p];
    assert [p, p][1..] == [p];
  }

  /** A third sighting of the plate both buffered readings name hands that plate to `_handle_exit`. */
  lemma ThirdSighting(lane: Lane, p: string, now: int)
    requires LaneInvariant(lane) && lane.buffer == [p, p] && IsPlateShaped(p)
    ensures var r := Consider(lane, p, now);
      var step := HandleExit(lane.store, p, now);
      r.buffer == [] && r.store == step.store && r.sent == lane.sent + step.commands
  {
    ConsensusOfThree(p, p, p);
    assert lane.buffer + [p] == [p, p, p];
  }
}
