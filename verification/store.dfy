/**
  The ledger of parking records and denial incidents kept by
  `DatabaseManager`, as an immutable value. Each query is a scan of the rows
  the corresponding SQL statement selects; each update returns the new store.
  Timestamps are whole seconds: the source stores them as second-resolution
  text and compares them chronologically.
 */
module RecordStore {
  import opened Options

  /** A row of `parking_records`. `due` is the fee stamped on exit; `paid` is `payment_status = 1`. */
  datatype Record = Record(entryTime: int, exitTime: Option<int>, plate: string, due: int, paid: bool)

  /** A row of `denial_incidents`. */
  datatype Incident = Incident(plate: string, time: int, reason: string)

  /** Rows in insertion order; a row's id is its position plus one (AUTOINCREMENT, rows never deleted). */
  datatype Store = Store(records: seq<Record>, incidents: seq<Incident>)

  /** The result of an INSERT: the new row's id and the new store. */
  datatype Inserted = Inserted(id: nat, store: Store)

  /** The result of a suppressible INSERT: `None` when nothing was written. */
  datatype Logged = Logged(id: Option<nat>, store: Store)

  const EmptyStore := Store([], [])

  /** Look-back window of the denial suppression, in minutes (`has_recent_denial`'s default). */
  const SuppressionMinutes := 5

  /** The earliest instant a look-back of `minutes` still excludes: rows must lie strictly after it. */
  function Cutoff(now: int, minutes: int): int {
    now - minutes * 60
  }

  /** An open record of `plate`: `car_plate = plate AND payment_status = 0`. */
  predicate IsOpenFor(r: Record, plate: string) {
    r.plate == plate && !r.paid
  }

  predicate IsRecentDenial(d: Incident, plate: string, reason: string, cutoff: int) {
    d.plate == plate && d.reason == reason && d.time > cutoff
  }

  predicate IsRecentPaidExit(r: Record, plate: string, cutoff: int) {
    r.plate == plate && r.paid && r.exitTime.Some? && r.exitTime.value > cutoff
  }

  predicate IsPrefix<T(==)>(a: seq<T>, b: seq<T>) {
    |a| <= |b| && b[..|a|] == a
  }

  /** Rows written before stay as they were: what every operation promises the incident log. */
  predicate AppendOnly(before: Store, after: Store) {
    IsPrefix(before.incidents, after.incidents)
  }

  // ---------------------------------------------------------------------------
  // Denial incidents
  // ---------------------------------------------------------------------------

  function AnyRecentDenial(ds: seq<Incident>, plate: string, reason: string, cutoff: int): (b: bool)
    ensures b <==> exists i :: 0 <= i < |ds| && IsRecentDenial(ds[i], plate, reason, cutoff)
    decreases |ds|
  {
    if |ds| == 0 then false
    else
      var rest := AnyRecentDenial(ds[1..], plate, reason, cutoff);
      assert forall i :: 1 <= i < |ds| ==> ds[i] == ds[1..][i - 1];
      IsRecentDenial(ds[0], plate, reason, cutoff) || rest
  }

  /** `has_recent_denial`: an incident with this plate and reason lies strictly inside the last `minutes`. */
  function HasRecentDenial(store: Store, plate: string, reason: string, minutes: int, now: int): (b: bool)
    ensures b <==>
      exists i :: 0 <= i < |store.incidents| &&
        store.incidents[i].plate == plate &&
        store.incidents[i].reason == reason &&
        store.incidents[i].time > now - minutes * 60
  {
    AnyRecentDenial(store.incidents, plate, reason, Cutoff(now, minutes))
  }

  /**
    `add_denial_incident`: suppressed (nothing written, no id) while the same
    plate and reason were logged within the last five minutes; otherwise
    exactly one incident stamped `now` is appended. Parking records are never
    touched.
   */
  function AddDenialIncident(store: Store, plate: string, reason: string, now: int): (w: Logged)
    ensures w.store.records == store.records
    ensures AppendOnly(store, w.store)
    ensures w.id.None? <==> HasRecentDenial(store, plate, reason, SuppressionMinutes, now)
    ensures w.id.None? ==> w.store == store
    ensures w.id.Some? ==>
      && w.id.value == |store.incidents| + 1
      && w.store.incidents == store.incidents + [Incident(plate, now, reason)]
  {
    if HasRecentDenial(store, plate, reason, SuppressionMinutes, now) then
      Logged(None, store)
    else
      Logged(Some(|store.incidents| + 1), store.(incidents := store.incidents + [Incident(plate, now, reason)]))
  }

  // ---------------------------------------------------------------------------
  // Parking records
  // ---------------------------------------------------------------------------

  /** `add_entry`: one new open record stamped `now`, no exit time, nothing due. */
  function AddEntry(store: Store, plate: string, now: int): (w: Inserted)
    ensures w.id == |store.records| + 1
    ensures |w.store.records| == |store.records| + 1
    ensures w.store.records[..|store.records|] == store.records
    ensures w.store.records[|store.records|] == Record(now, None, plate, 0, false)
    ensures w.store.incidents == store.incidents
  {
    Inserted(|store.records| + 1, store.(records := store.records + [Record(now, None, plate, 0, false)]))
  }

  function AnyOpen(rs: seq<Record>, plate: string): (b: bool)
    ensures b <==> exists i :: 0 <= i < |rs| && IsOpenFor(rs[i], plate)
    decreases |rs|
  {
    if |rs| == 0 then false
    else
      var rest := AnyOpen(rs[1..], plate);
      assert forall i :: 1 <= i < |rs| ==> rs[i] == rs[1..][i - 1];
      IsOpenFor(rs[0], plate) || rest
  }

  /** `has_unpaid_record`. */
  function HasUnpaidRecord(store: Store, plate: string): (b: bool)
    ensures b <==> exists i :: 0 <= i < |store.records| && store.records[i].plate == plate && !store.records[i].paid
  {
    AnyOpen(store.records, plate)
  }

  /** The open record of `plate` with the latest entry time; among equal times, the earliest row. */
  function LatestOpen(rs: seq<Record>, plate: string): (r: Option<Record>)
    ensures r.None? <==> forall i :: 0 <= i < |rs| ==> !IsOpenFor(rs[i], plate)
    ensures r.Some? ==> r.value in rs && IsOpenFor(r.value, plate)
    ensures r.Some? ==> forall i :: 0 <= i < |rs| && IsOpenFor(rs[i], plate) ==> rs[i].entryTime <= r.value.entryTime
    decreases |rs|
  {
    if |rs| == 0 then None
    else
      var rest := LatestOpen(rs[1..], plate);
      assert forall i :: 1 <= i < |rs| ==> rs[i] == rs[1..][i - 1];
      if IsOpenFor(rs[0], plate) && (rest.None? || rest.value.entryTime <= rs[0].entryTime) then Some(rs[0])
      else rest
  }

  /**
    `get_unpaid_record`: nothing exactly when `plate` has no open record;
    otherwise an open record of `plate` whose entry time no other open record
    of `plate` exceeds.
   */
  function GetUnpaidRecord(store: Store, plate: string): (r: Option<Record>)
    ensures r.None? <==> !HasUnpaidRecord(store, plate)
    ensures r.Some? ==> r.value in store.records && r.value.plate == plate && !r.value.paid
    ensures r.Some? ==> forall i :: 0 <= i < |store.records| && IsOpenFor(store.records[i], plate) ==>
      store.records[i].entryTime <= r.value.entryTime
  {
    LatestOpen(store.records, plate)
  }

  function StampOpen(rs: seq<Record>, plate: string, amount: int, now: int): (out: seq<Record>)
    ensures |out| == |rs|
    ensures forall i :: 0 <= i < |rs| ==>
      out[i] == (if IsOpenFor(rs[i], plate) then rs[i].(exitTime := Some(now), due := amount) else rs[i])
    decreases |rs|
  {
    if |rs| == 0 then []
    else
      var head := if IsOpenFor(rs[0], plate) then rs[0].(exitTime := Some(now), due := amount) else rs[0];
      [head] + StampOpen(rs[1..], plate, amount, now)
  }

  /**
    `update_exit_and_payment`: every open record of `plate` gets exit time
    `now` and the amount due; paid records and other plates' records are
    left as they were.
   */
  function UpdateExitAndPayment(store: Store, plate: string, amount: int, now: int): (s: Store)
    ensures |s.records| == |store.records|
    ensures forall i :: 0 <= i < |store.records| && IsOpenFor(store.records[i], plate) ==>
      s.records[i] == store.records[i].(exitTime := Some(now), due := amount)
    ensures forall i :: 0 <= i < |store.records| && !IsOpenFor(store.records[i], plate) ==>
      s.records[i] == store.records[i]
    ensures s.incidents == store.incidents
  {
    store.(records := StampOpen(store.records, plate, amount, now))
  }

  function CloseOpen(rs: seq<Record>, plate: string): (out: seq<Record>)
    ensures |out| == |rs|
    ensures forall i :: 0 <= i < |rs| ==>
      out[i] == (if IsOpenFor(rs[i], plate) then rs[i].(paid := true) else rs[i])
    decreases |rs|
  {
    if |rs| == 0 then []
    else
      var head := if IsOpenFor(rs[0], plate) then rs[0].(paid := true) else rs[0];
      [head] + CloseOpen(rs[1..], plate)
  }

  /** `mark_as_paid`: every open record of `plate` becomes paid, nothing else changes. */
  function MarkAsPaid(store: Store, plate: string): (s: Store)
    ensures |s.records| == |store.records|
    ensures forall i :: 0 <= i < |store.records| && IsOpenFor(store.records[i], plate) ==>
      s.records[i] == store.records[i].(paid := true)
    ensures forall i :: 0 <= i < |store.records| && !IsOpenFor(store.records[i], plate) ==>
      s.records[i] == store.records[i]
    ensures !HasUnpaidRecord(s, plate)
    ensures s.incidents == store.incidents
  {
    store.(records := CloseOpen(store.records, plate))
  }

  function AnyRecentPaidExit(rs: seq<Record>, plate: string, cutoff: int): (b: bool)
    ensures b <==> exists i :: 0 <= i < |rs| && IsRecentPaidExit(rs[i], plate, cutoff)
    decreases |rs|
  {
    if |rs| == 0 then false
    else
      var rest := AnyRecentPaidExit(rs[1..], plate, cutoff);
      assert forall i :: 1 <= i < |rs| ==> rs[i] == rs[1..][i - 1];
      IsRecentPaidExit(rs[0], plate, cutoff) || rest
  }

  /**
    `has_recent_paid_exit`: some paid record of `plate` carries an exit time
    strictly later than `minutes` before `now`.
   */
  function HasRecentPaidExit(store: Store, plate: string, minutes: int, now: int): (b: bool)
    ensures b <==>
      exists i :: 0 <= i < |store.records| &&
        store.records[i].plate == plate &&
        store.records[i].paid &&
        store.records[i].exitTime.Some? &&
        store.records[i].exitTime.value > now - minutes * 60
  {
    AnyRecentPaidExit(store.records, plate, Cutoff(now, minutes))
  }

  // ---------------------------------------------------------------------------
  // Properties relating several operations
  // ---------------------------------------------------------------------------

  /** Marking a plate paid twice is the same as marking it once. */
  lemma MarkAsPaidIdempotent(store: Store, plate: string)
    ensures MarkAsPaid(MarkAsPaid(store, plate), plate) == MarkAsPaid(store, plate)
  {
    var once := MarkAsPaid(store, plate);
    var twice := MarkAsPaid(once, plate);
    assert forall i :: 0 <= i < |once.records| ==> !IsOpenFor(once.records[i], plate);
    assert twice.records == once.records;
  }

  /** A new entry is an open record of its plate, and leaves other plates' open state alone. */
  lemma AddEntryOpensRecord(store: Store, plate: string, other: string, now: int)
    requires other != plate
    ensures HasUnpaidRecord(AddEntry(store, plate, now).store, plate)
    ensures HasUnpaidRecord(AddEntry(store, plate, now).store, other) == HasUnpaidRecord(store, other)
  {
    var s := AddEntry(store, plate, now).store;
    assert IsOpenFor(s.records[|store.records|], plate);
    if HasUnpaidRecord(s, other) {
      var i :| 0 <= i < |s.records| && IsOpenFor(s.records[i], other);
      assert i < |store.records| && s.records[i] == store.records[i];
    }
    if HasUnpaidRecord(store, other) {
      var i :| 0 <= i < |store.records| && IsOpenFor(store.records[i], other);
      assert s.records[i] == store.records[i];
    }
  }

  /**
    Stamping the exit of a plate that has an open record and then marking it
    paid leaves a recent paid exit on record for the next five minutes.
   */
  lemma PaidExitWindow(store: Store, plate: string, amount: int, paidAt: int, later: int)
    requires HasUnpaidRecord(store, plate)
    requires paidAt <= later
    ensures var s := MarkAsPaid(UpdateExitAndPayment(store, plate, amount, paidAt), plate);
      later - paidAt < 300 ==> HasRecentPaidExit(s, plate, 5, later)
  {
    var stamped := UpdateExitAndPayment(store, plate, amount, paidAt);
    var s := MarkAsPaid(stamped, plate);
    var i :| 0 <= i < |store.records| && IsOpenFor(store.records[i], plate);
    assert stamped.records[i] == store.records[i].(exitTime := Some(paidAt), due := amount);
    assert IsOpenFor(stamped.records[i], plate);
    assert s.records[i] == stamped.records[i].(paid := true);
    if later - paidAt < 300 {
      assert IsRecentPaidExit(s.records[i], plate, Cutoff(later, 5));
    }
  }

  /** No plate has two open records at once. */
  predicate AtMostOneOpen(rs: seq<Record>) {
    forall i, j :: 0 <= i < j < |rs| && !rs[i].paid ==> !IsOpenFor(rs[j], rs[i].plate)
  }

  /** An entry for a plate without an open record keeps every plate at one open record at most. */
  lemma AddEntryKeepsOneOpen(store: Store, plate: string, now: int)
    requires AtMostOneOpen(store.records)
    requires !HasUnpaidRecord(store, plate)
    ensures AtMostOneOpen(AddEntry(store, plate, now).store.records)
  {
    var rs := AddEntry(store, plate, now).store.records;
    forall i, j | 0 <= i < j < |rs| && !rs[i].paid
      ensures !IsOpenFor(rs[j], rs[i].plate)
    {
      if j == |store.records| {
        assert rs[i] == store.records[i];
        assert rs[i].plate != plate;
      } else {
        assert rs[i] == store.records[i] && rs[j] == store.records[j];
      }
    }
  }

  /** Stamping exit and fee changes no plate and no paid flag, so it keeps one open record per plate. */
  lemma StampKeepsOneOpen(store: Store, plate: string, amount: int, now: int)
    requires AtMostOneOpen(store.records)
    ensures AtMostOneOpen(UpdateExitAndPayment(store, plate, amount, now).records)
  {
    var rs := UpdateExitAndPayment(store, plate, amount, now).records;
    assert forall i :: 0 <= i < |rs| ==> rs[i].plate == store.records[i].plate && rs[i].paid == store.records[i].paid;
  }

  /** Marking paid only closes records, so it keeps one open record per plate. */
  lemma MarkKeepsOneOpen(store: Store, plate: string)
    requires AtMostOneOpen(store.records)
    ensures AtMostOneOpen(MarkAsPaid(store, plate).records)
  {
    var rs := MarkAsPaid(store, plate).records;
    assert forall i :: 0 <= i < |rs| ==> rs[i].plate == store.records[i].plate && (!rs[i].paid ==> !store.records[i].paid);
  }

  /** Times of repeated incidents of one plate and reason lie at least five minutes apart. */
  ghost predicate SuppressionSpaced(ds: seq<Incident>) {
    forall i, j :: 0 <= i < j < |ds| && ds[i].plate == ds[j].plate && ds[i].reason == ds[j].reason ==>
      ds[i].time <= ds[j].time - SuppressionMinutes * 60
  }

  /**
    With a clock that never runs backwards, suppression keeps the incident
    log spaced: no plate and reason are logged twice within five minutes.
   */
  lemma AddDenialKeepsSpacing(store: Store, plate: string, reason: string, now: int)
    requires SuppressionSpaced(store.incidents)
    requires forall i :: 0 <= i < |store.incidents| ==> store.incidents[i].time <= now
    ensures SuppressionSpaced(AddDenialIncident(store, plate, reason, now).store.incidents)
  {
    var w := AddDenialIncident(store, plate, reason, now);
    if w.id.Some? {
      var ds := w.store.incidents;
      var n := |store.incidents|;
      forall i, j | 0 <= i < j < |ds| && ds[i].plate == ds[j].plate && ds[i].reason == ds[j].reason
        ensures ds[i].time <= ds[j].time - SuppressionMinutes * 60
      {
        if j == n {
          assert ds[i] == store.incidents[i];
          assert !IsRecentDenial(store.incidents[i], plate, reason, Cutoff(now, SuppressionMinutes));
        } else {
          assert ds[i] == store.incidents[i] && ds[j] == store.incidents[j];
        }
      }
    }
  }

  /** Once an incident is logged, the same plate and reason inside the next five minutes write nothing. */
  lemma RepeatDenialSuppressed(store: Store, plate: string, reason: string, first: int, second: int)
    requires AddDenialIncident(store, plate, reason, first).id.Some?
    requires second - first < SuppressionMinutes * 60
    ensures var s1 := AddDenialIncident(store, plate, reason, first).store;
      var w2 := AddDenialIncident(s1, plate, reason, second);
      w2.id.None? && w2.store == s1
  {
    var w1 := AddDenialIncident(store, plate, reason, first);
    var k := |store.incidents|;
    assert IsRecentDenial(w1.store.incidents[k], plate, reason, Cutoff(second, SuppressionMinutes));
  }
}
