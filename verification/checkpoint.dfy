/**
  The three lanes share one store: entry inserts records, the payment lane
  stamps and settles them, the exit lane reads them. These are the
  properties of the checkpoint as a whole, each operation taken as atomic.
 */
module Checkpoint {
  import opened Options
  import opened RecordStore
  import opened Payment
  import opened EntryLane
  import opened ExitLane
  import opened Gate

  /** A payment attempt only stamps and closes open records, so no plate gains a second open record. */
  lemma PaymentKeepsOneOpen(store: Store, plate: string, balance: nat, now: int, lines: seq<Inbound>)
    requires AtMostOneOpen(store.records)
    ensures AtMostOneOpen(ProcessPayment(store, plate, balance, now, lines).store.records)
  {
    PaymentSettles(store, plate, balance, now, lines);
    var after := ProcessPayment(store, plate, balance, now, lines).store.records;
    assert |after| == |store.records|;
    assert forall i :: 0 <= i < |after| ==>
      after[i].plate == store.records[i].plate && (!after[i].paid ==> !store.records[i].paid);
  }

  /** A paid record is never changed again: not by an entry, a payment attempt or an exit. */
  lemma PaidRecordsFrozen(store: Store, i: nat, plate: string, now: int, memory: Memory, fault: Fault,
                          balance: nat, lines: seq<Inbound>)
    requires i < |store.records| && store.records[i].paid
    ensures var r := HandleEntry(store, memory, plate, now, fault).store.records;
      i < |r| && r[i] == store.records[i]
    ensures var r := ProcessPayment(store, plate, balance, now, lines).store.records;
      i < |r| && r[i] == store.records[i]
    ensures HandleExit(store, plate, now).store.records[i] == store.records[i]
  {
    PaymentSettles(store, plate, balance, now, lines);
    var entered := HandleEntry(store, memory, plate, now, fault).store.records;
    assert IsPrefix(store.records, entered) by {
      EntryAppendsOnly(store, memory, plate, now, fault);
    }
    assert entered[..|store.records|][i] == entered[i];
  }

  /** Every lane only appends to the incident log. */
  lemma IncidentsAppendOnly(store: Store, plate: string, now: int, memory: Memory, fault: Fault,
                            balance: nat, lines: seq<Inbound>)
    ensures AppendOnly(store, HandleEntry(store, memory, plate, now, fault).store)
    ensures AppendOnly(store, ProcessPayment(store, plate, balance, now, lines).store)
    ensures AppendOnly(store, HandleExit(store, plate, now).store)
  {
    EntryAppendsOnly(store, memory, plate, now, fault);
    var d := AddDenialIncident(store, plate, NoPaymentReason, now);
    assert AppendOnly(store, d.store);
  }

  /**
    A payment that goes through at `now` opens the exit for the same plate
    at any time in the next five minutes.
   */
  lemma PaymentOpensExit(store: Store, plate: string, balance: nat, now: int, lines: seq<Inbound>, later: int)
    requires ProcessPayment(store, plate, balance, now, lines).status == Paid
    requires now <= later < now + 300
    ensures HandleExit(ProcessPayment(store, plate, balance, now, lines).store, plate, later).granted
  {
    PaymentSettles(store, plate, balance, now, lines);
    var a := ProcessPayment(store, plate, balance, now, lines);
    var due := AmountDue(store, plate, now);
    var i :| 0 <= i < |store.records| && IsOpenFor(store.records[i], plate);
    assert Settled(store.records[i], a.store.records[i], plate, due, now, true);
    assert IsRecentPaidExit(a.store.records[i], plate, later - ExitWindowMinutes * 60);
  }

  // ---------------------------------------------------------------------------
  // Runs of the three lanes on the shared store
  // ---------------------------------------------------------------------------

  /** One operation on the shared store, by whichever lane performs it. */
  datatype Event =
    | Arrive(plate: string, now: int, fault: Fault)
    | Pay(plate: string, balance: nat, now: int, lines: seq<Inbound>)
    | Leave(plate: string, now: int)

  /** The shared store and the entry lane's memory of the last plate it let in. */
  datatype Site = Site(store: Store, memory: Memory)

  function Apply(site: Site, e: Event): Site {
    match e
    case Arrive(plate, now, fault) =>
      var step := HandleEntry(site.store, site.memory, plate, now, fault);
      Site(step.store, step.memory)
    case Pay(plate, balance, now, lines) =>
      Site(ProcessPayment(site.store, plate, balance, now, lines).store, site.memory)
    case Leave(plate, now) =>
      Site(HandleExit(site.store, plate, now).store, site.memory)
  }

  /** The events applied one after the other. */
  function Run(site: Site, events: seq<Event>): Site
    decreases |events|
  {
    if |events| == 0 then site else Run(Apply(site, events[0]), events[1..])
  }

  /** Whether `e` is a payment for `plate` that goes through on `site`. */
  predicate SettlesPlate(site: Site, e: Event, plate: string) {
    e.Pay? && e.plate == plate && ProcessPayment(site.store, plate, e.balance, e.now, e.lines).status == Paid
  }

  /** Whether some payment for `plate` goes through during the run. */
  predicate PaidDuring(site: Site, events: seq<Event>, plate: string)
    decreases |events|
  {
    |events| > 0 && (SettlesPlate(site, events[0], plate) || PaidDuring(Apply(site, events[0]), events[1..], plate))
  }

  /** An unpaid record of `plate` survives every operation except a payment for `plate` that goes through. */
  lemma StepKeepsUnpaid(site: Site, e: Event, plate: string)
    requires HasUnpaidRecord(site.store, plate)
    requires !SettlesPlate(site, e, plate)
    ensures HasUnpaidRecord(Apply(site, e).store, plate)
  {
    var i :| 0 <= i < |site.store.records| && IsOpenFor(site.store.records[i], plate);
    match e
    case Arrive(p, now, fault) =>
      var after := HandleEntry(site.store, site.memory, p, now, fault).store.records;
      EntryAppendsOnly(site.store, site.memory, p, now, fault);
      assert after[..|site.store.records|][i] == after[i];
    case Pay(p, balance, now, lines) =>
      PaymentSettles(site.store, p, balance, now, lines);
      if p != plate {
        var after := ProcessPayment(site.store, p, balance, now, lines).store.records;
        assert IsOpenFor(after[i], plate);
      }
    case Leave(p, now) =>
  }

  /** Without a payment for `plate` that goes through, its unpaid record is still there at the end of the run. */
  lemma {:induction false} UnpaidUntilPaid(site: Site, events: seq<Event>, plate: string)
    requires HasUnpaidRecord(site.store, plate)
    requires !PaidDuring(site, events, plate)
    ensures HasUnpaidRecord(Run(site, events).store, plate)
    decreases |events|
  {
    if |events| > 0 {
      StepKeepsUnpaid(site, events[0], plate);
      UnpaidUntilPaid(Apply(site, events[0]), events[1..], plate);
    }
  }

  /**
    Once a plate is let in, the entry lane refuses it as unpaid at any later
    attempt, whatever entries, payment attempts and exits happen in
    between, until a payment for it goes through.
   */
  lemma RefusedUntilPaid(store: Store, memory: Memory, plate: string, now: int, events: seq<Event>,
                         later: int, fault: Fault)
    requires HandleEntry(store, memory, plate, now, NoFault).decision.Granted?
    ensures var step := HandleEntry(store, memory, plate, now, NoFault);
      var site := Site(step.store, step.memory);
      var end := Run(site, events);
      !PaidDuring(site, events, plate) ==> HandleEntry(end.store, end.memory, plate, later, fault).decision.DeniedUnpaid?
  {
    var step := HandleEntry(store, memory, plate, now, NoFault);
    var site := Site(step.store, step.memory);
    assert IsOpenFor(step.store.records[|store.records|], plate);
    if !PaidDuring(site, events, plate) {
      UnpaidUntilPaid(site, events, plate);
    }
  }

  const Plate := "RAB123C"

  /** A plate parked at time 0 that pays within the first hour, with the device answering promptly, owes 500 and ends settled and paid. */
  lemma PromptPayment(store: Store, now: int)
    requires store.records == [Record(0, None, Plate, 0, false)]
    requires 0 < now <= SecondsPerHour
    ensures var a := ProcessPayment(store, Plate, 1000, now, PromptDevice);
      a.status == Paid && a.store.records == [Record(0, Some(now), Plate, 500, true)]
  {
    assert IsOpenFor(store.records[0], Plate);
    assert GetUnpaidRecord(store, Plate).value.entryTime == 0;
    FeeForHours(now, 1);
    ExampleHandshakes();
    PaymentSucceedsIff(store, Plate, 1000, now, PromptDevice);
    PaymentSettles(store, Plate, 1000, now, PromptDevice);
    var a := ProcessPayment(store, Plate, 1000, now, PromptDevice);
    assert Settled(store.records[0], a.store.records[0], Plate, 500, now, true);
  }

  /**
    A car enters at time 0 and is let in. Shown again 10 s later it is
    refused, and for its unpaid record: that check comes before the
    cooldown. Once it has paid at 301 s with the device answering promptly,
    it is let in again at 301 s, and it may drive out at 400 s.
   */
  lemma EnterPayReenter()
    ensures var first := HandleEntry(EmptyStore, InitialMemory, Plate, 0, NoFault);
      && first.decision.Granted?
      && first.store.records == [Record(0, None, Plate, 0, false)]
      && var again := HandleEntry(first.store, first.memory, Plate, 10, NoFault);
      && again.decision.DeniedUnpaid?
      && again.commands == [Alert]
      && var paid := ProcessPayment(again.store, Plate, 1000, 301, PromptDevice);
      && paid.status == Paid
      && HandleEntry(paid.store, again.memory, Plate, 301, NoFault).decision.Granted?
      && HandleExit(paid.store, Plate, 400).granted
  {
    var first := HandleEntry(EmptyStore, InitialMemory, Plate, 0, NoFault);
    var again := HandleEntry(first.store, first.memory, Plate, 10, NoFault);
    GrantBlocksUntilPaid(EmptyStore, InitialMemory, Plate, 0, 10, NoFault);
    assert again.store.records == [Record(0, None, Plate, 0, false)];
    PromptPayment(again.store, 301);
    var paid := ProcessPayment(again.store, Plate, 1000, 301, PromptDevice);
    assert !IsOpenFor(paid.store.records[0], Plate);
    assert IsRecentPaidExit(paid.store.records[0], Plate, 400 - ExitWindowMinutes * 60);
  }

  /**
    The cooldown on its own: a car let in at 0 whose record is settled at
    5 s is refused at 10 s for the cooldown, and let in from 300 s on.
   */
  lemma PaidEarlyThenCooldown()
    ensures var first := HandleEntry(EmptyStore, InitialMemory, Plate, 0, NoFault);
      && var paid := ProcessPayment(first.store, Plate, 1000, 5, PromptDevice);
      && paid.status == Paid
      && HandleEntry(paid.store, first.memory, Plate, 10, NoFault).decision.DeniedCooldown?
      && HandleEntry(paid.store, first.memory, Plate, 300, NoFault).decision.Granted?
  {
    var first := HandleEntry(EmptyStore, InitialMemory, Plate, 0, NoFault);
    PromptPayment(first.store, 5);
    var paid := ProcessPayment(first.store, Plate, 1000, 5, PromptDevice);
    assert !IsOpenFor(paid.store.records[0], Plate);
  }
}
