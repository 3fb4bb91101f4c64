/**
  `CarEntrySystem`: the policy applied to each trusted plate, and the frame
  pipeline that feeds it (distance gate, plate filter, consensus buffer).
  The lane remembers the last plate it let in and when; the camera, the
  previews, logging and image files are outside the model.
 */
module EntryLane {
  import opened Options
  import opened RecordStore
  import opened Plates
  import opened Gate

  /** Seconds during which the plate just let in is refused again (`entry_cooldown`). */
  const EntryCooldownSeconds := 300

  const UnpaidReason := "Unpaid parking record"
  const CooldownReason := "Cooldown period active"
  const ErrorPrefix := "Processing error: "

  /** `last_saved_plate` and `last_entry_time`. */
  datatype Memory = Memory(lastPlate: Option<string>, lastEntryTime: int)

  const InitialMemory := Memory(None, 0)

  /**
    Whether an exception interrupts the entry branch, and where: while the
    row is inserted (nothing written), or after it (the row stays, but the
    gate is not opened and the lane does not remember the plate). `detail`
    is the exception's text.
   */
  datatype Fault = NoFault | InsertFails(detail: string) | FailsAfterInsert(detail: string)

  datatype Decision = Granted(id: nat) | DeniedUnpaid | DeniedCooldown | Failed(detail: string)

  /** What `_handle_entry` did: its decision, the store and memory afterwards, and the gate commands it sent. */
  datatype EntryStep = EntryStep(decision: Decision, store: Store, memory: Memory, commands: seq<Command>)

  /** The plate is the one last let in, and the cooldown has not run out. */
  predicate InCooldown(memory: Memory, plate: string, now: int) {
    memory.lastPlate == Some(plate) && now - memory.lastEntryTime < EntryCooldownSeconds
  }

  /** The incident reason a decision logs, if it logs one. */
  function ReasonOf(d: Decision): Option<string> {
    match d
    case Granted(_) => None
    case DeniedUnpaid => Some(UnpaidReason)
    case DeniedCooldown => Some(CooldownReason)
    case Failed(detail) => Some(ErrorPrefix + detail)
  }

  /** The row an entry inserts. */
  function NewRecord(plate: string, now: int): Record {
    Record(now, None, plate, 0, false)
  }

  /**
    `_handle_entry`: refuse a plate with an open record; then refuse the
    plate just let in during the cooldown; otherwise insert its record, open
    the gate and remember it. Refusals log an incident (subject to
    suppression) and sound the alert; a failure logs the error as an
    incident and changes nothing else.
   */
  function HandleEntry(store: Store, memory: Memory, plate: string, now: int, fault: Fault): (r: EntryStep)
    ensures r.decision.DeniedUnpaid? <==> HasUnpaidRecord(store, plate)
    ensures r.decision.DeniedCooldown? <==> !HasUnpaidRecord(store, plate) && InCooldown(memory, plate, now)
    ensures r.decision.Granted? <==> !HasUnpaidRecord(store, plate) && !InCooldown(memory, plate, now) && fault.NoFault?
    ensures r.decision.Failed? ==> fault.detail == r.decision.detail
    ensures r.decision.Granted? ==>
      && r.decision.id == |store.records| + 1
      && r.memory == Memory(Some(plate), now)
      && r.commands == [Open(GateOpenSeconds)]
      && r.store.incidents == store.incidents
    ensures !r.decision.Granted? ==> r.memory == memory
    ensures r.decision.DeniedUnpaid? || r.decision.DeniedCooldown? ==> r.commands == [Alert]
    ensures r.decision.Failed? ==> r.commands == []
    ensures ReasonOf(r.decision).Some? ==>
      r.store.incidents == AddDenialIncident(store, plate, ReasonOf(r.decision).value, now).store.incidents
    ensures var inserted := r.decision.Granted? || (fault.FailsAfterInsert? && r.decision.Failed?);
      r.store.records == if inserted then store.records + [NewRecord(plate, now)] else store.records
  {
    if HasUnpaidRecord(store, plate) then
      EntryStep(DeniedUnpaid, AddDenialIncident(store, plate, UnpaidReason, now).store, memory, [Alert])
    else if memory.lastPlate == Some(plate) && now - memory.lastEntryTime < EntryCooldownSeconds then
      EntryStep(DeniedCooldown, AddDenialIncident(store, plate, CooldownReason, now).store, memory, [Alert])
    else
      match fault
      case NoFault =>
        var w := AddEntry(store, plate, now);
        EntryStep(Granted(w.id), w.store, Memory(Some(plate), now), [Open(GateOpenSeconds)])
      case InsertFails(detail) =>
        EntryStep(Failed(detail), AddDenialIncident(store, plate, ErrorPrefix + detail, now).store, memory, [])
      case FailsAfterInsert(detail) =>
        var w := AddEntry(store, plate, now);
        EntryStep(Failed(detail), AddDenialIncident(w.store, plate, ErrorPrefix + detail, now).store, memory, [])
  }

  // ---------------------------------------------------------------------------
  // Properties of the policy
  // ---------------------------------------------------------------------------

  /**
    The cooldown blocks only the plate last let in, and only for strictly
    less than 300 s: at 300 s, or for any other plate, a plate without an
    open record is let in.
   */
  lemma CooldownBoundary(store: Store, plate: string, other: string, since: int, elapsed: int)
    requires !HasUnpaidRecord(store, plate) && !HasUnpaidRecord(store, other)
    requires other != plate
    ensures var memory := Memory(Some(plate), since);
      && (HandleEntry(store, memory, plate, since + elapsed, NoFault).decision.DeniedCooldown? <==> elapsed < 300)
      && HandleEntry(store, memory, plate, since + 300, NoFault).decision.Granted?
      && HandleEntry(store, memory, other, since + elapsed, NoFault).decision.Granted?
  {
  }

  /** Once a plate is let in, it is refused for its open record until that record is paid, whatever the clock says. */
  lemma GrantBlocksUntilPaid(store: Store, memory: Memory, plate: string, now: int, later: int, fault: Fault)
    requires HandleEntry(store, memory, plate, now, NoFault).decision.Granted?
    ensures var step := HandleEntry(store, memory, plate, now, NoFault);
      HandleEntry(step.store, step.memory, plate, later, fault).decision.DeniedUnpaid?
  {
    var step := HandleEntry(store, memory, plate, now, NoFault);
    assert IsOpenFor(step.store.records[|store.records|], plate);
  }

  /** The entry policy never leaves a plate with two open records, whatever fails along the way. */
  lemma EntryKeepsOneOpen(store: Store, memory: Memory, plate: string, now: int, fault: Fault)
    requires AtMostOneOpen(store.records)
    ensures AtMostOneOpen(HandleEntry(store, memory, plate, now, fault).store.records)
  {
    var r := HandleEntry(store, memory, plate, now, fault);
    if r.store.records != store.records {
      AddEntryKeepsOneOpen(store, plate, now);
    }
  }

  /** The entry policy writes records and incidents only by appending. */
  lemma EntryAppendsOnly(store: Store, memory: Memory, plate: string, now: int, fault: Fault)
    ensures var r := HandleEntry(store, memory, plate, now, fault);
      IsPrefix(store.records, r.store.records) && AppendOnly(store, r.store)
  {
    var r := HandleEntry(store, memory, plate, now, fault);
    var w := AddEntry(store, plate, now);
    assert AppendOnly(store, w.store);
    match ReasonOf(r.decision)
    case None =>
    case Some(reason) =>
      assert AppendOnly(store, AddDenialIncident(store, plate, reason, now).store);
  }

  // ---------------------------------------------------------------------------
  // Frames
  // ---------------------------------------------------------------------------

  /** The lane between frames: store, memory, the consensus buffer, and every gate command sent so far. */
  datatype Lane = Lane(store: Store, memory: Memory, buffer: seq<string>, sent: seq<Command>)

  const InitialLane := Lane(EmptyStore, InitialMemory, [], [])

  /** What holds between frames: a short buffer of well-formed readings. */
  predicate LaneInvariant(lane: Lane) {
    && |lane.buffer| < CaptureThreshold
    && (forall k :: 0 <= k < |lane.buffer| ==> IsPlateShaped(lane.buffer[k]))
  }

  /** `lane` grew into `after`: records and incidents appended, commands appended. */
  predicate Grew(lane: Lane, after: Lane) {
    && IsPrefix(lane.store.records, after.store.records)
    && AppendOnly(lane.store, after.store)
    && IsPrefix(lane.sent, after.sent)
  }

  /** Every record from index `from` on is for a well-formed plate. */
  predicate ShapedFrom(rs: seq<Record>, from: nat) {
    forall k :: from <= k < |rs| ==> IsPlateShaped(rs[k].plate)
  }

  /**
    One detected plate through `get_consensus_plate`. Below the threshold it
    is only buffered; at the threshold the consensus of the three readings
    goes through `_handle_entry`, whose decision is applied, and the buffer
    empties. A consensus of plate-shaped readings is never empty, so the
    `if consensus_plate` test never drops it. Exceptions inside the policy
    are not modelled at this level.
   */
  function Consider(lane: Lane, plate: string, now: int): (r: Lane)
    requires LaneInvariant(lane) && IsPlateShaped(plate)
    ensures LaneInvariant(r)
    ensures Grew(lane, r)
    ensures ShapedFrom(r.store.records, |lane.store.records|)
    ensures AtMostOneOpen(lane.store.records) ==> AtMostOneOpen(r.store.records)
    ensures |lane.buffer| < CaptureThreshold - 1 ==> r == lane.(buffer := lane.buffer + [plate])
    ensures |lane.buffer| == CaptureThreshold - 1 ==>
      var step := HandleEntry(lane.store, lane.memory, MostCommon(lane.buffer + [plate]), now, NoFault);
      && r.buffer == [] && r.store == step.store && r.memory == step.memory
      && r.sent == lane.sent + step.commands
  {
    var o := Observe(lane.buffer, plate);
    ObserveKeepsShaped(lane.buffer, plate);
    if o.emitted.Some? && o.emitted.value != "" then Admit(lane.(buffer := o.buffer), o.emitted.value, now)
    else lane.(buffer := o.buffer)
  }

  /** `_handle_entry` on a consensus plate: its records, incidents, memory and gate commands are applied, the buffer is left alone. */
  function Admit(lane: Lane, plate: string, now: int): (r: Lane)
    requires IsPlateShaped(plate)
    ensures var step := HandleEntry(lane.store, lane.memory, plate, now, NoFault);
      && r.buffer == lane.buffer && r.store == step.store && r.memory == step.memory
      && r.sent == lane.sent + step.commands
    ensures Grew(lane, r)
    ensures ShapedFrom(r.store.records, |lane.store.records|)
    ensures AtMostOneOpen(lane.store.records) ==> AtMostOneOpen(r.store.records)
  {
    var step := HandleEntry(lane.store, lane.memory, plate, now, NoFault);
    assert AtMostOneOpen(lane.store.records) ==> AtMostOneOpen(step.store.records) by {
      if AtMostOneOpen(lane.store.records) {
        EntryKeepsOneOpen(lane.store, lane.memory, plate, now, NoFault);
      }
    }
    EntryAppendsOnly(lane.store, lane.memory, plate, now, NoFault);
    assert (lane.sent + step.commands)[..|lane.sent|] == lane.sent;
    Lane(step.store, step.memory, lane.buffer, lane.sent + step.commands)
  }

  function ConsiderAll(lane: Lane, plates: seq<string>, now: int): (r: Lane)
    requires LaneInvariant(lane)
    requires forall k :: 0 <= k < |plates| ==> IsPlateShaped(plates[k])
    ensures LaneInvariant(r)
    ensures Grew(lane, r)
    ensures ShapedFrom(r.store.records, |lane.store.records|)
    ensures AtMostOneOpen(lane.store.records) ==> AtMostOneOpen(r.store.records)
    ensures |lane.buffer| + |plates| < CaptureThreshold ==> r == lane.(buffer := lane.buffer + plates)
    ensures |plates| == 1 ==> r == Consider(lane, plates[0], now)
    decreases |plates|
  {
    if |plates| == 0 then
      assert lane.buffer + plates == lane.buffer;
      lane
    else
      assert (lane.buffer + [plates[0]]) + plates[1..] == lane.buffer + plates;
      var next := Consider(lane, plates[0], now);
      var r := ConsiderAll(next, plates[1..], now);
      ShapedAcross(lane.store.records, next.store.records, r.store.records);
      GrewAcross(lane, next, r);
      r
  }

  lemma ShapedAcross(a: seq<Record>, b: seq<Record>, c: seq<Record>)
    requires IsPrefix(b, c) && ShapedFrom(b, |a|) && ShapedFrom(c, |b|)
    ensures ShapedFrom(c, |a|)
  {
    forall k | |a| <= k < |c|
      ensures IsPlateShaped(c[k].plate)
    {
      if k < |b| {
        assert c[k] == c[..|b|][k];
      }
    }
  }

  lemma GrewAcross(a: Lane, b: Lane, c: Lane)
    requires Grew(a, b) && Grew(b, c)
    ensures Grew(a, c)
  {
    assert c.store.records[..|a.store.records|] == c.store.records[..|b.store.records|][..|a.store.records|];
    assert c.store.incidents[..|a.store.incidents|] == c.store.incidents[..|b.store.incidents|][..|a.store.incidents|];
    assert c.sent[..|a.sent|] == c.sent[..|b.sent|][..|a.sent|];
  }

  /**
    One pass of `run`'s loop: the frame is looked at only when the distance
    reading is in range; then each OCR reading that validates as a plate is
    considered in turn.
   */
  function EntryFrame(lane: Lane, distance: Option<real>, readings: seq<string>, now: int): (r: Lane)
    requires LaneInvariant(lane)
    ensures LaneInvariant(r)
    ensures Grew(lane, r)
    ensures InTriggerRange(distance) && |lane.buffer| + |DetectedPlates(readings)| < CaptureThreshold ==>
      r == lane.(buffer := lane.buffer + DetectedPlates(readings))
    ensures !InTriggerRange(distance) ==> r == lane
    ensures ShapedFrom(r.store.records, |lane.store.records|)
    ensures AtMostOneOpen(lane.store.records) ==> AtMostOneOpen(r.store.records)
  {
    if InTriggerRange(distance) then ConsiderAll(lane, DetectedPlates(readings), now) else lane
  }

  /** Readings none of which is a plate never reach the policy, whatever the distance. */
  lemma NoiseIsIgnored(lane: Lane, distance: Option<real>, readings: seq<string>, now: int)
    requires LaneInvariant(lane)
    requires forall k :: 0 <= k < |readings| ==> ValidatePlate(readings[k]).None?
    ensures EntryFrame(lane, distance, readings, now) == lane
  {
  }

  /** A frame in range with a single reading that validates considers exactly that reading's plate. */
  lemma EntryFrameOfOne(lane: Lane, distance: Option<real>, reading: string, now: int)
    requires LaneInvariant(lane) && InTriggerRange(distance) && ValidatePlate(reading).Some?
    ensures EntryFrame(lane, distance, [reading], now) == Consider(lane, ValidatePlate(reading).value, now)
  {
    var p := ValidatePlate(reading).value;
    assert DetectedPlates([reading]) == [p];
    var c := Consider(lane, p, now);
    assert [p][1..] == [];
    assert ConsiderAll(lane, [p], now) == ConsiderAll(c, [], now);
  }

  /**
    A plate read in three frames in a row from an empty buffer reaches the
    entry policy on the third, and what `_handle_entry` decides at that
    moment is applied. In particular a plate with no open record and no
    cooldown is let in: the gate opens and one open record is added.
   */
  lemma ThreeSightingsEnter(lane: Lane, d1: Option<real>, d2: Option<real>, d3: Option<real>, reading: string,
                            n1: int, n2: int, n3: int)
    requires LaneInvariant(lane) && lane.buffer == []
    requires InTriggerRange(d1) && InTriggerRange(d2) && InTriggerRange(d3)
    requires ValidatePlate(reading).Some?
    ensures var p := ValidatePlate(reading).value;
      var r := EntryFrame(EntryFrame(EntryFrame(lane, d1, [reading], n1), d2, [reading], n2), d3, [reading], n3);
      var step := HandleEntry(lane.store, lane.memory, p, n3, NoFault);
      && r.buffer == [] && r.store == step.store && r.memory == step.memory && r.sent == lane.sent + step.commands
      && (!HasUnpaidRecord(lane.store, p) && !InCooldown(lane.memory, p, n3) ==>
            && r.sent == lane.sent + [Open(GateOpenSeconds)]
            && r.store.records == lane.store.records + [NewRecord(p, n3)])
  {
    var p := ValidatePlate(reading).value;
    EntryFrameOfOne(lane, d1, reading, n1);
    var l1 := EntryFrame(lane, d1, [reading], n1);
    assert l1 == lane.(buffer := [p]);
    EntryFrameOfOne(l1, d2, reading, n2);
    var l2 := EntryFrame(l1, d2, [reading], n2);
    assert l2 == lane.(buffer := [p, p]);
    EntryFrameOfOne(l2, d3, reading, n3);
    ConsensusOfThree(p, p, p);
    assert [p, p] + [p] == [p, p, p];
  }

  /** What the entry lane puts on the wire for one plate: '1' then '0' on a grant, a lone '2' on a refusal, nothing on a failure. */
  lemma EntryWire(store: Store, memory: Memory, plate: string, now: int, fault: Fault)
    ensures var step := HandleEntry(store, memory, plate, now, fault);
      Wire(step.commands) == match step.decision
        case Granted(_) => "10"
        case Failed(_) => ""
        case _ => "2"
  {
    assert Wire([Alert]) == "2" + Wire([]);
    assert Wire([Open(GateOpenSeconds)]) == "10" + Wire([]);
  }

  /** Considering two batches of plates one after the other is considering them together. */
  lemma {:induction false} ConsiderAllAppend(lane: Lane, a: seq<string>, b: seq<string>, now: int)
    requires LaneInvariant(lane)
    requires forall k :: 0 <= k < |a| ==> IsPlateShaped(a[k])
    requires forall k :: 0 <= k < |b| ==> IsPlateShaped(b[k])
    ensures forall k :: 0 <= k < |a + b| ==> IsPlateShaped((a + b)[k])
    ensures ConsiderAll(lane, a + b, now) == ConsiderAll(ConsiderAll(lane, a, now), b, now)
    decreases |a|
  {
    if |a| == 0 {
      assert a + b == b;
    } else {
      assert (a + b)[0] == a[0] && (a + b)[1..] == a[1..] + b;
      ConsiderAllAppend(Consider(lane, a[0], now), a[1..], b, now);
    }
  }

  /**
    A frame's readings are taken in order: in range, the frame of `a + b`
    is the frame of `a` followed by the plates of `b`, each through the
    consensus buffer and, at every third, the policy.
   */
  lemma EntryFrameAppend(lane: Lane, distance: Option<real>, a: seq<string>, b: seq<string>, now: int)
    requires LaneInvariant(lane) && InTriggerRange(distance)
    ensures EntryFrame(lane, distance, a + b, now) == ConsiderAll(EntryFrame(lane, distance, a, now), DetectedPlates(b), now)
  {
    DetectedPlatesAppend(a, b);
    ConsiderAllAppend(lane, DetectedPlates(a), DetectedPlates(b), now);
  }

  /**
    Three readings of one plate in a single in-range frame, from an empty
    buffer, reach `_handle_entry` once, and what it decides is applied.
   */
  lemma OneFrameThreeReadingsEnter(lane: Lane, distance: Option<real>, reading: string, now: int)
    requires LaneInvariant(lane) && lane.buffer == []
    requires InTriggerRange(distance) && ValidatePlate(reading).Some?
    ensures var p := ValidatePlate(reading).value;
      var r := EntryFrame(lane, distance, [reading, reading, reading], now);
      var step := HandleEntry(lane.store, lane.memory, p, now, NoFault);
      r.buffer == [] && r.store == step.store && r.memory == step.memory && r.sent == lane.sent + step.commands
  {
    var p := ValidatePlate(reading).value;
    DetectedThrice(reading);
    ConsiderThrice(lane, p, now);
  }

  /** Three sightings of one plate from an empty buffer: the first two wait in the buffer, the third goes through `_handle_entry`. */
  lemma ConsiderThrice(lane: Lane, p: string, now: int)
    requires LaneInvariant(lane) && lane.buffer == [] && IsPlateShaped(p)
    ensures var r := ConsiderAll(lane, [p, p, p], now);
      var step := HandleEntry(lane.store, lane.memory, p, now, NoFault);
      r.buffer == [] && r.store == step.store && r.memory == step.memory && r.sent == lane.sent + step.commands
  {
    ConsiderAllOfThree(lane, p, now);
    var l2 := Consider(Consider(lane, p, now), p, now);
    assert l2.buffer == [p, p] && l2.store == lane.store && l2.memory == lane.memory && l2.sent == lane.sent;
    ThirdSighting(l2, p, now);
  }

  /** A batch of three plates is three `Consider` steps. */
  lemma ConsiderAllOfThree(lane: Lane, p: string, now: int)
    requires LaneInvariant(lane) && IsPlateShaped(p)
    ensures ConsiderAll(lane, [p, p, p], now) == Consider(Consider(Consider(lane, p, now), p, now), p, now)
  {
    assert [p, p, p][1..] == [p, p];
    assert [p, p][1..] == [p];
  }

  /** A third sighting of the plate both buffered readings name hands that plate to `_handle_entry`. */
  lemma ThirdSighting(lane: Lane, p: string, now: int)
    requires LaneInvariant(lane) && lane.buffer == [p, p] && IsPlateShaped(p)
    ensures var r := Consider(lane, p, now);
      var step := HandleEntry(lane.store, lane.memory, p, now, NoFault);
      r.buffer == [] && r.store == step.store && r.memory == step.memory && r.sent == lane.sent + step.commands
  {
    ConsensusOfThree(p, p, p);
    assert lane.buffer + [p] == [p, p, p];
  }
}
