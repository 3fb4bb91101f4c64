/**
  `PaymentProcessor`: the fee rule, the parser for the balance reports the
  payment device sends, and the READY / new balance / DONE handshake that
  settles a parking record. The serial link is a script of timestamped
  inbound lines plus the bytes written back; the store clock is `now` in
  seconds, the link clock is milliseconds since the attempt began.
 */
module Payment {
  import opened Options
  import opened Text
  import opened RecordStore

  const RatePerHour := 500
  const SecondsPerHour := 3600

  /** How long the device has to report READY, and then DONE (milliseconds). */
  const ReadyTimeoutMs := 5000
  const ConfirmTimeoutMs := 10000

  // ---------------------------------------------------------------------------
  // Fee
  // ---------------------------------------------------------------------------

  /** The ceiling of `a / b` for positive `b`, for every integer `a` (Python's `ceil`). */
  function CeilDiv(a: int, b: int): (q: int)
    requires b > 0
    ensures b * (q - 1) < a <= b * q
  {
    var m := -a;
    assert m == b * (m / b) + m % b;
    -(m / b)
  }

  /**
    `calculate_parking_fee`: the stay rounded up to whole hours at 500 per
    hour, i.e. 500 times the fewest hours that cover the elapsed seconds.
   */
  function ParkingFee(entryTime: int, now: int): (fee: int)
    ensures fee % RatePerHour == 0
    ensures SecondsPerHour * (fee / RatePerHour - 1) < now - entryTime <= SecondsPerHour * (fee / RatePerHour)
  {
    CeilDiv(now - entryTime, SecondsPerHour) * RatePerHour
  }

  /** A longer stay never costs less. */
  lemma FeeMonotone(entryTime: int, now1: int, now2: int)
    requires now1 <= now2
    ensures ParkingFee(entryTime, now1) <= ParkingFee(entryTime, now2)
  {
    var h1 := ParkingFee(entryTime, now1) / RatePerHour;
    var h2 := ParkingFee(entryTime, now2) / RatePerHour;
    assert SecondsPerHour * (h1 - 1) < SecondsPerHour * h2;
  }

  /** The fee for `hours` billed hours is charged exactly for stays in (3600 (hours - 1), 3600 hours]. */
  lemma FeeForHours(elapsed: int, hours: int)
    ensures ParkingFee(0, elapsed) == hours * RatePerHour <==>
      SecondsPerHour * (hours - 1) < elapsed <= SecondsPerHour * hours
  {
    var h := ParkingFee(0, elapsed) / RatePerHour;
    if SecondsPerHour * (hours - 1) < elapsed <= SecondsPerHour * hours {
      assert h - 1 < hours && hours - 1 < h;
    }
  }

  lemma FeeExamples()
    ensures ParkingFee(0, 1) == 500 && ParkingFee(0, 3600) == 500
    ensures ParkingFee(0, 3601) == 1000 && ParkingFee(0, 7200) == 1000
    ensures ParkingFee(0, 0) == 0
  {
    FeeForHours(1, 1);
    FeeForHours(3600, 1);
    FeeForHours(3601, 2);
    FeeForHours(7200, 2);
    FeeForHours(0, 0);
  }

  // ---------------------------------------------------------------------------
  // Balance reports
  // ---------------------------------------------------------------------------

  /** A balance report: `PLATE,BALANCE`. */
  datatype Report = Report(plate: string, balance: nat)

  /** `i` is the position of the one and only comma of `s`. */
  predicate OnlyCommaAt(s: string, i: int) {
    0 <= i < |s| && s[i] == ',' && ',' !in s[..i] && ',' !in s[i + 1..]
  }

  /**
    `parse_arduino_data`: the stripped line must split on ',' into exactly
    two fields; the plate is the first field stripped, the balance the
    number spelled by the digits of the second field with everything else
    dropped. A line with the wrong number of fields or no digit in the
    second is rejected.
   */
  function ParseReport(line: string): (r: Option<Report>)
    ensures var s := Strip(line);
      r.Some? <==> exists i :: OnlyCommaAt(s, i) && KeepDigits(s[i + 1..]) != ""
    ensures var s := Strip(line);
      forall i :: OnlyCommaAt(s, i) && r.Some? ==>
        r.value == Report(Strip(s[..i]), DecimalValue(KeepDigits(s[i + 1..])))
  {
    var s := Strip(line);
    var parts := Split(s, ',');
    ParseFields(s);
    if |parts| != 2 then
      None
    else
      var digits := KeepDigits(parts[1]);
      if digits == "" then None else Some(Report(Strip(parts[0]), DecimalValue(digits)))
  }

  /** `s.split(',')` has two fields exactly when `s` has one comma, and the fields are what surrounds it. */
  lemma ParseFields(s: string)
    ensures |Split(s, ',')| == 2 <==> exists i :: OnlyCommaAt(s, i)
    ensures forall i :: OnlyCommaAt(s, i) ==> Split(s, ',') == [s[..i], s[i + 1..]]
  {
    var parts := Split(s, ',');
    if |parts| == 2 {
      var i := |parts[0]|;
      assert Join(parts, ',') == parts[0] + [','] + parts[1];
      assert s[..i] == parts[0] && s[i + 1..] == parts[1];
      assert OnlyCommaAt(s, i);
    }
    forall i | OnlyCommaAt(s, i)
      ensures Split(s, ',') == [s[..i], s[i + 1..]]
    {
      assert s == s[..i] + [','] + s[i + 1..];
      SplitJoin([s[..i], s[i + 1..]], ',');
      assert Join([s[..i], s[i + 1..]], ',') == s[..i] + [','] + Join([s[i + 1..]], ',');
    }
  }

  /** The line a device sends for `plate` and `balance`. */
  function FormatReport(plate: string, balance: nat): string {
    plate + "," + NatToString(balance)
  }

  /** A report parses back to the plate and balance it was written from. */
  lemma ParseFormatRoundTrip(plate: string, balance: nat)
    requires ',' !in plate
    requires |plate| > 0 ==> !IsSpace(plate[0]) && !IsSpace(plate[|plate| - 1])
    ensures ParseReport(FormatReport(plate, balance)) == Some(Report(plate, balance))
  {
    var digits := NatToString(balance);
    var line := FormatReport(plate, balance);
    assert line == plate + [','] + digits;
    assert line[|line| - 1] == digits[|digits| - 1];
    assert |line| > 0 && !IsSpace(line[|line| - 1]);
    assert !IsSpace(line[0]) by {
      if |plate| == 0 { assert line[0] == ','; } else { assert line[0] == plate[0]; }
    }
    StripUnpadded(line);
    var i := |plate|;
    assert line[..i] == plate && line[i + 1..] == digits;
    assert OnlyCommaAt(line, i) by {
      assert forall k :: 0 <= k < |digits| ==> digits[k] != ',' by {
        assert AllDigits(digits);
      }
    }
    StripUnpadded(plate);
  }

  // ---------------------------------------------------------------------------
  // Waiting for the device
  // ---------------------------------------------------------------------------

  /** A line from the device, arriving `at` milliseconds after the payment attempt began. */
  datatype Inbound = Inbound(at: int, text: string)

  /** What a wait listens for. */
  datatype Token = ReadyToken | DoneToken

  /**
    `_wait_for_arduino_ready` wants the stripped line to be exactly READY;
    `_wait_for_confirmation` wants DONE inside the stripped line, which is
    the same as DONE inside the line (`DoneIgnoresStrip`).
   */
  predicate Answers(token: Token, text: string) {
    match token
    case ReadyToken => Strip(text) == "READY"
    case DoneToken => Contains(text, "DONE")
  }

  lemma DoneIgnoresStrip(text: string)
    ensures Contains(Strip(text), "DONE") <==> Answers(DoneToken, text)
  {
    var w := "DONE";
    assert forall k :: 0 <= k < |w| ==> !IsSpace(w[k]);
    StripKeepsWord(text, w);
  }

  /**
    When a wait that began at `start` reads line `k`: lines are read in
    order, each no earlier than it arrives and no earlier than the line
    before it.
   */
  function ReadAt(lines: seq<Inbound>, start: int, k: nat): (t: int)
    requires k < |lines|
    ensures t >= start && t >= lines[k].at
    decreases k
  {
    var before := if k == 0 then start else ReadAt(lines, start, k - 1);
    if lines[k].at > before then lines[k].at else before
  }

  lemma {:induction false} ReadAtMonotone(lines: seq<Inbound>, start: int, j: nat, k: nat)
    requires j <= k < |lines|
    ensures ReadAt(lines, start, j) <= ReadAt(lines, start, k)
    decreases k - j
  {
    if j < k {
      ReadAtMonotone(lines, start, j, k - 1);
    }
  }

  /** Reading resumes where an earlier wait stopped: the clock carries over to the remaining lines. */
  lemma {:induction false} ReadAtResumes(lines: seq<Inbound>, start: int, i: nat, m: nat)
    requires i + 1 + m < |lines|
    ensures ReadAt(lines[i + 1..], ReadAt(lines, start, i), m) == ReadAt(lines, start, i + 1 + m)
    decreases m
  {
    if m > 0 {
      ReadAtResumes(lines, start, i, m - 1);
    }
  }

  /** How a wait ended: the index and read time of the answering line, or how many lines it read before the deadline. */
  datatype Wait = Answered(index: nat, at: int) | TimedOut(consumed: nat)

  /** The lines before `k` have been read in time and none of them answered. */
  predicate ReadInTimeWithoutAnswer(token: Token, lines: seq<Inbound>, start: int, timeout: int, k: nat)
    requires k <= |lines|
    decreases k
  {
    k == 0 ||
      (ReadInTimeWithoutAnswer(token, lines, start, timeout, k - 1)
       && !Answers(token, lines[k - 1].text)
       && ReadAt(lines, start, k - 1) - start < timeout)
  }

  /** What `ReadInTimeWithoutAnswer` says about one line `j` before `k`. */
  lemma {:induction false} Unanswered(token: Token, lines: seq<Inbound>, start: int, timeout: int, k: nat, j: nat)
    requires j < k <= |lines| && ReadInTimeWithoutAnswer(token, lines, start, timeout, k)
    ensures !Answers(token, lines[j].text) && ReadAt(lines, start, j) - start < timeout
    decreases k
  {
    if j < k - 1 {
      Unanswered(token, lines, start, timeout, k - 1, j);
    }
  }

  function WaitFrom(token: Token, lines: seq<Inbound>, start: int, timeout: int, k: nat): (w: Wait)
    requires k <= |lines|
    requires ReadInTimeWithoutAnswer(token, lines, start, timeout, k)
    ensures w.Answered? ==>
      && k <= w.index < |lines|
      && ReadInTimeWithoutAnswer(token, lines, start, timeout, w.index)
      && Answers(token, lines[w.index].text)
      && w.at == ReadAt(lines, start, w.index)
      && w.at - start < timeout
    ensures w.TimedOut? ==>
      && k <= w.consumed <= |lines|
      && ReadInTimeWithoutAnswer(token, lines, start, timeout, w.consumed)
      && (w.consumed < |lines| ==> ReadAt(lines, start, w.consumed) - start >= timeout)
    decreases |lines| - k
  {
    if k == |lines| then
      TimedOut(k)
    else
      var t := ReadAt(lines, start, k);
      if t - start >= timeout then TimedOut(k)
      else if Answers(token, lines[k].text) then Answered(k, t)
      else
        WaitFrom(token, lines, start, timeout, k + 1)
  }

  /**
    The polling loop of both waits: read lines while the clock is short of
    `start + timeout`; stop at the first answering line. Lines read before it
    are discarded; lines not yet read stay on the link.
   */
  function WaitFor(token: Token, lines: seq<Inbound>, start: int, timeout: int): (w: Wait)
    ensures w.Answered? ==>
      && w.index < |lines|
      && ReadInTimeWithoutAnswer(token, lines, start, timeout, w.index)
      && Answers(token, lines[w.index].text)
      && w.at == ReadAt(lines, start, w.index)
      && w.at - start < timeout
    ensures w.TimedOut? ==>
      && w.consumed <= |lines|
      && ReadInTimeWithoutAnswer(token, lines, start, timeout, w.consumed)
      && (w.consumed < |lines| ==> ReadAt(lines, start, w.consumed) - start >= timeout)
  {
    WaitFrom(token, lines, start, timeout, 0)
  }

  /** A wait times out exactly when no answering line can be read before its deadline. */
  lemma TimedOutIffNoTimelyAnswer(token: Token, lines: seq<Inbound>, start: int, timeout: int)
    ensures WaitFor(token, lines, start, timeout).TimedOut? <==>
      forall k :: 0 <= k < |lines| && Answers(token, lines[k].text) ==> ReadAt(lines, start, k) - start >= timeout
  {
    var w := WaitFor(token, lines, start, timeout);
    if w.TimedOut? {
      forall k | 0 <= k < |lines| && Answers(token, lines[k].text)
        ensures ReadAt(lines, start, k) - start >= timeout
      {
        if k < w.consumed {
          Unanswered(token, lines, start, timeout, w.consumed, k);
        }
        ReadAtMonotone(lines, start, w.consumed, k);
      }
    }
  }

  // ---------------------------------------------------------------------------
  // The payment handshake
  // ---------------------------------------------------------------------------

  /** How `process_payment` ended; only `Paid` is a `True` return. */
  datatype Status = Paid | NoUnpaidRecord | InsufficientBalance | DeviceNotReady | ConfirmationTimeout

  /** What the lane writes back to the device during an attempt. */
  datatype Reply = NoReply | Refusal | NewBalance(balance: nat)

  /** The outcome, the store afterwards, what was written back, and how many inbound lines the attempt read. */
  datatype Attempt = Attempt(status: Status, store: Store, reply: Reply, consumed: nat)

  /** The bytes of a reply: nothing; `I` and a newline; the new balance in decimal followed by CR LF. */
  function ReplyBytes(r: Reply): (bytes: string)
    ensures r.NoReply? <==> bytes == ""
    ensures r.Refusal? ==> bytes == "I\n"
    ensures r.NewBalance? ==>
      && |bytes| > 2 && bytes[|bytes| - 2..] == "\r\n"
      && AllDigits(bytes[..|bytes| - 2]) && DecimalValue(bytes[..|bytes| - 2]) == r.balance
  {
    match r
    case NoReply => ""
    case Refusal => "I\n"
    case NewBalance(b) =>
      var digits := NatToString(b);
      assert (digits + "\r\n")[..|digits|] == digits;
      digits + "\r\n"
  }

  /** The device can tell every reply apart: no two replies are written as the same bytes. */
  lemma RepliesDistinct(r1: Reply, r2: Reply)
    requires ReplyBytes(r1) == ReplyBytes(r2)
    ensures r1 == r2
  {
    var bytes := ReplyBytes(r1);
    if r1.Refusal? || r2.Refusal? {
      assert !IsDigit(bytes[0]);
    }
  }

  /** The fee owed by the most recent open record of `plate`. */
  function AmountDue(store: Store, plate: string, now: int): int
    requires HasUnpaidRecord(store, plate)
  {
    ParkingFee(GetUnpaidRecord(store, plate).value.entryTime, now)
  }

  /** `after` is `before` with an open record of `plate` stamped (exit `now`, `due`) and its paid flag set to `paid`. */
  predicate Settled(before: Record, after: Record, plate: string, due: int, now: int, paid: bool) {
    if IsOpenFor(before, plate) then after == before.(exitTime := Some(now), due := due, paid := paid)
    else after == before
  }

  /** How the device side of a payment ended, and how many inbound lines it read. */
  datatype Handshake = NotReady(consumed: nat) | Unconfirmed(consumed: nat) | Confirmed(consumed: nat)

  /**
    The second half of the handshake, once READY has been read at
    `readyAt`: wait up to 10 s from then for DONE among the lines after it.
   */
  function Confirm(after: seq<Inbound>, readyAt: int): (h: Handshake)
    ensures !h.NotReady?
    ensures h.Confirmed? <==> WaitFor(DoneToken, after, readyAt, ConfirmTimeoutMs).Answered?
    ensures h.consumed <= |after|
  {
    match WaitFor(DoneToken, after, readyAt, ConfirmTimeoutMs)
    case TimedOut(n) => Unconfirmed(n)
    case Answered(j, _) => Confirmed(j + 1)
  }

  /**
    The device side of a payment: wait up to 5 s for READY; the new balance
    is sent at that point; then wait for DONE.
   */
  function RunHandshake(lines: seq<Inbound>): (h: Handshake)
    ensures h.consumed <= |lines|
  {
    match WaitFor(ReadyToken, lines, 0, ReadyTimeoutMs)
    case TimedOut(n) => NotReady(n)
    case Answered(i, readyAt) =>
      var h := Confirm(lines[i + 1..], readyAt);
      h.(consumed := i + 1 + h.consumed)
  }

  /**
    The part of `process_payment` after the balance check: the new balance
    goes out once the device is ready, and the plate's records are marked
    paid only when the device confirms.
   */
  function Exchange(stamped: Store, plate: string, newBalance: nat, lines: seq<Inbound>): (a: Attempt)
    ensures a.consumed <= |lines|
  {
    match RunHandshake(lines)
    case NotReady(n) => Attempt(DeviceNotReady, stamped, NoReply, n)
    case Unconfirmed(n) => Attempt(ConfirmationTimeout, stamped, NewBalance(newBalance), n)
    case Confirmed(n) => Attempt(Paid, MarkAsPaid(stamped, plate), NewBalance(newBalance), n)
  }

  /** Every record of `before` is settled in `after`, record for record, and the incident log is untouched. */
  predicate SettledStore(before: Store, after: Store, plate: string, due: int, now: int, paid: bool) {
    && after.incidents == before.incidents
    && |after.records| == |before.records|
    && forall i :: 0 <= i < |before.records| ==> Settled(before.records[i], after.records[i], plate, due, now, paid)
  }

  /** Stamping leaves the plate's records settled but open; marking them paid afterwards settles and closes them. */
  lemma StampSettles(store: Store, plate: string, due: int, now: int)
    requires HasUnpaidRecord(store, plate)
    ensures var stamped := UpdateExitAndPayment(store, plate, due, now);
      && HasUnpaidRecord(stamped, plate)
      && SettledStore(store, stamped, plate, due, now, false)
      && SettledStore(store, MarkAsPaid(stamped, plate), plate, due, now, true)
  {
    var stamped := UpdateExitAndPayment(store, plate, due, now);
    var i :| 0 <= i < |store.records| && IsOpenFor(store.records[i], plate);
    assert IsOpenFor(stamped.records[i], plate);
    forall k | 0 <= k < |store.records|
      ensures IsOpenFor(stamped.records[k], plate) == IsOpenFor(store.records[k], plate)
    {
    }
  }

  /** Whatever the device does, the exchange after a stamp leaves every record settled, and paid exactly when it reports `Paid`. */
  lemma ExchangeSettles(store: Store, plate: string, due: int, now: int, newBalance: nat, lines: seq<Inbound>)
    requires HasUnpaidRecord(store, plate)
    ensures var a := Exchange(UpdateExitAndPayment(store, plate, due, now), plate, newBalance, lines);
      && SettledStore(store, a.store, plate, due, now, a.status == Paid)
      && (a.status == Paid <==> !HasUnpaidRecord(a.store, plate))
  {
    StampSettles(store, plate, due, now);
  }

  /**
    Every attempt past the lookup leaves each record settled for the fee
    due, paid exactly when the attempt succeeds; and a success is exactly an
    attempt that leaves the plate with no open record.
   */
  lemma PaymentSettles(store: Store, plate: string, balance: nat, now: int, lines: seq<Inbound>)
    ensures var a := ProcessPayment(store, plate, balance, now, lines);
      && (a.status == NoUnpaidRecord ==> a.store == store)
      && (a.status != NoUnpaidRecord ==> SettledStore(store, a.store, plate, AmountDue(store, plate, now), now, a.status == Paid))
      && (a.status == Paid <==> HasUnpaidRecord(store, plate) && !HasUnpaidRecord(a.store, plate))
  {
    if HasUnpaidRecord(store, plate) {
      var due := AmountDue(store, plate, now);
      if balance < due {
        StampSettles(store, plate, due, now);
      } else {
        PaymentIsExchange(store, plate, balance, now, lines);
        ExchangeSettles(store, plate, due, now, balance - due, lines);
      }
    }
  }

  /**
    `process_payment`: find the plate's open record (none: give up, having
    touched nothing); stamp exit time and fee on its open records, a stamp
    that stays whatever happens next; refuse with `I` if the balance does
    not cover the fee; otherwise run the exchange with the device.
   */
  function ProcessPayment(store: Store, plate: string, balance: nat, now: int, lines: seq<Inbound>): (a: Attempt)
    ensures a.store.incidents == store.incidents
    ensures a.status == NoUnpaidRecord <==> !HasUnpaidRecord(store, plate)
    ensures a.status == InsufficientBalance <==> HasUnpaidRecord(store, plate) && balance < AmountDue(store, plate, now)
    ensures a.consumed <= |lines|
  {
    match GetUnpaidRecord(store, plate)
    case None => Attempt(NoUnpaidRecord, store, NoReply, 0)
    case Some(record) =>
      var due := ParkingFee(record.entryTime, now);
      var stamped := UpdateExitAndPayment(store, plate, due, now);
      if balance < due then
        Attempt(InsufficientBalance, stamped, Refusal, 0)
      else
        Exchange(stamped, plate, balance - due, lines)
  }

  /**
    What an attempt writes to the device: nothing without an open record or
    a ready device, `I` when the balance falls short, and otherwise the new
    balance. Inbound lines are read only by the handshake.
   */
  lemma PaymentReplies(store: Store, plate: string, balance: nat, now: int, lines: seq<Inbound>)
    ensures var a := ProcessPayment(store, plate, balance, now, lines);
      && (a.status == NoUnpaidRecord ==> a.store == store && a.reply == NoReply && a.consumed == 0)
      && (a.status == InsufficientBalance ==> a.reply == Refusal && a.consumed == 0)
      && (a.status == DeviceNotReady ==> a.reply == NoReply)
      && (a.status == Paid || a.status == ConfirmationTimeout ==>
            var due := AmountDue(store, plate, now);
            balance >= due && a.reply == NewBalance(balance - due))
  {
    if HasUnpaidRecord(store, plate) && balance >= AmountDue(store, plate, now) {
      var due := AmountDue(store, plate, now);
      PaymentIsExchange(store, plate, balance, now, lines);
      ExchangeReplies(UpdateExitAndPayment(store, plate, due, now), plate, balance - due, lines);
    }
  }

  lemma ExchangeReplies(stamped: Store, plate: string, newBalance: nat, lines: seq<Inbound>)
    ensures var a := Exchange(stamped, plate, newBalance, lines);
      && a.status in {Paid, DeviceNotReady, ConfirmationTimeout}
      && (a.status == DeviceNotReady ==> a.reply == NoReply)
      && (a.status != DeviceNotReady ==> a.reply == NewBalance(newBalance))
  {
  }

  // ---------------------------------------------------------------------------
  // When a payment goes through
  // ---------------------------------------------------------------------------

  /** Line `i` is the first READY on the link and is read within 5 s of the attempt's start. */
  predicate ReadyInTime(lines: seq<Inbound>, i: int) {
    && 0 <= i < |lines|
    && Answers(ReadyToken, lines[i].text)
    && (forall k :: 0 <= k < i ==> !Answers(ReadyToken, lines[k].text))
    && ReadAt(lines, 0, i) < ReadyTimeoutMs
  }

  /** Some line after `i` carries DONE and is read within 10 s of line `i`. */
  predicate DoneInTime(lines: seq<Inbound>, i: nat)
    requires i < |lines|
  {
    exists j :: i < j < |lines| && Answers(DoneToken, lines[j].text) && ReadAt(lines, 0, j) - ReadAt(lines, 0, i) < ConfirmTimeoutMs
  }

  /** The device acknowledged in time: READY within 5 s, then DONE within 10 s of it. */
  predicate HandshakeSucceeds(lines: seq<Inbound>) {
    exists i :: 0 <= i < |lines| && ReadyInTime(lines, i) && DoneInTime(lines, i)
  }

  /** There is at most one first READY. */
  lemma ReadyUnique(lines: seq<Inbound>, i: int, j: int)
    requires ReadyInTime(lines, i) && ReadyInTime(lines, j)
    ensures i == j
  {
    if i < j {
      assert false;
    } else if j < i {
      assert false;
    }
  }

  /** The READY wait is answered exactly by the first READY line, provided it is read in time. */
  lemma ReadyWait(lines: seq<Inbound>)
    ensures var w := WaitFor(ReadyToken, lines, 0, ReadyTimeoutMs);
      && (w.Answered? ==> ReadyInTime(lines, w.index) && w.at == ReadAt(lines, 0, w.index))
      && (w.TimedOut? ==> forall i :: !ReadyInTime(lines, i))
  {
    var w := WaitFor(ReadyToken, lines, 0, ReadyTimeoutMs);
    if w.Answered? {
      forall k | 0 <= k < w.index
        ensures !Answers(ReadyToken, lines[k].text)
      {
        Unanswered(ReadyToken, lines, 0, ReadyTimeoutMs, w.index, k);
      }
    } else {
      TimedOutIffNoTimelyAnswer(ReadyToken, lines, 0, ReadyTimeoutMs);
    }
  }

  /** Line `m` after line `i` is line `i + 1 + m`, read at the same time by a wait that starts when line `i` is read. */
  lemma Shifted(lines: seq<Inbound>, i: nat, m: nat)
    requires i + 1 + m < |lines|
    ensures lines[i + 1..][m] == lines[i + 1 + m]
    ensures ReadAt(lines[i + 1..], ReadAt(lines, 0, i), m) == ReadAt(lines, 0, i + 1 + m)
  {
    ReadAtResumes(lines, 0, i, m);
  }

  /** The DONE wait that starts when line `i` is read is answered exactly when `DoneInTime(lines, i)`. */
  lemma DoneWait(lines: seq<Inbound>, i: nat)
    requires i < |lines|
    ensures WaitFor(DoneToken, lines[i + 1..], ReadAt(lines, 0, i), ConfirmTimeoutMs).Answered? <==> DoneInTime(lines, i)
  {
    if WaitFor(DoneToken, lines[i + 1..], ReadAt(lines, 0, i), ConfirmTimeoutMs).Answered? {
      DoneAnswerInTime(lines, i);
    } else if DoneInTime(lines, i) {
      DoneInTimeAnswers(lines, i);
    }
  }

  lemma DoneAnswerInTime(lines: seq<Inbound>, i: nat)
    requires i < |lines|
    requires WaitFor(DoneToken, lines[i + 1..], ReadAt(lines, 0, i), ConfirmTimeoutMs).Answered?
    ensures DoneInTime(lines, i)
  {
    var w := WaitFor(DoneToken, lines[i + 1..], ReadAt(lines, 0, i), ConfirmTimeoutMs);
    var m := w.index;
    Shifted(lines, i, m);
    assert i < i + 1 + m < |lines|;
    assert Answers(DoneToken, lines[i + 1 + m].text);
  }

  lemma DoneInTimeAnswers(lines: seq<Inbound>, i: nat)
    requires i < |lines|
    requires DoneInTime(lines, i)
    ensures WaitFor(DoneToken, lines[i + 1..], ReadAt(lines, 0, i), ConfirmTimeoutMs).Answered?
  {
    var start := ReadAt(lines, 0, i);
    var j :| i < j < |lines| && Answers(DoneToken, lines[j].text) && ReadAt(lines, 0, j) - start < ConfirmTimeoutMs;
    Shifted(lines, i, j - i - 1);
    DoneNotMissed(lines[i + 1..], start, j - i - 1);
  }

  /** A wait cannot time out past an answering line that is read in time. */
  lemma DoneNotMissed(after: seq<Inbound>, start: int, m: nat)
    requires m < |after| && Answers(DoneToken, after[m].text) && ReadAt(after, start, m) - start < ConfirmTimeoutMs
    ensures WaitFor(DoneToken, after, start, ConfirmTimeoutMs).Answered?
  {
    TimedOutIffNoTimelyAnswer(DoneToken, after, start, ConfirmTimeoutMs);
  }

  /** A READY wait that times out leaves the device not ready. */
  lemma NotReadyByWait(lines: seq<Inbound>)
    requires WaitFor(ReadyToken, lines, 0, ReadyTimeoutMs).TimedOut?
    ensures RunHandshake(lines).NotReady?
  {
  }

  /** Once READY is read as line `i` at time `at`, the handshake is confirmed exactly when the DONE wait from `at` is answered. */
  lemma ConfirmedByWait(lines: seq<Inbound>, i: nat, at: int)
    requires WaitFor(ReadyToken, lines, 0, ReadyTimeoutMs) == Answered(i, at)
    ensures !RunHandshake(lines).NotReady?
    ensures RunHandshake(lines).Confirmed? <==> WaitFor(DoneToken, lines[i + 1..], at, ConfirmTimeoutMs).Answered?
  {
    var h := Confirm(lines[i + 1..], at);
    assert RunHandshake(lines).Confirmed? == h.Confirmed? && RunHandshake(lines).NotReady? == h.NotReady?;
  }

  /** The handshake is confirmed exactly when it succeeds, and ends not ready exactly when no READY comes in time. */
  lemma HandshakeOutcome(lines: seq<Inbound>)
    ensures RunHandshake(lines).Confirmed? <==> HandshakeSucceeds(lines)
    ensures RunHandshake(lines).NotReady? <==> !exists i :: ReadyInTime(lines, i)
  {
    ReadyWait(lines);
    var w := WaitFor(ReadyToken, lines, 0, ReadyTimeoutMs);
    if w.Answered? {
      HandshakeAfterReady(lines, w.index);
    } else {
      NotReadyByWait(lines);
    }
  }

  lemma HandshakeAfterReady(lines: seq<Inbound>, i: nat)
    requires ReadyInTime(lines, i)
    requires WaitFor(ReadyToken, lines, 0, ReadyTimeoutMs) == Answered(i, ReadAt(lines, 0, i))
    ensures !RunHandshake(lines).NotReady?
    ensures RunHandshake(lines).Confirmed? <==> HandshakeSucceeds(lines)
  {
    var at := ReadAt(lines, 0, i);
    ConfirmedByWait(lines, i, at);
    DoneWait(lines, i);
    HandshakeAt(lines, i);
  }

  /** The device half of a payment: it settles exactly when the handshake succeeds, and fails as not-ready exactly when no READY comes in time. */
  lemma ExchangeOutcome(stamped: Store, plate: string, newBalance: nat, lines: seq<Inbound>)
    ensures Exchange(stamped, plate, newBalance, lines).status == Paid <==> HandshakeSucceeds(lines)
    ensures Exchange(stamped, plate, newBalance, lines).status == DeviceNotReady <==> !exists i :: ReadyInTime(lines, i)
  {
    HandshakeOutcome(lines);
  }

  /** Given the first READY, the handshake succeeds exactly when a DONE follows it in time. */
  lemma HandshakeAt(lines: seq<Inbound>, i: nat)
    requires ReadyInTime(lines, i)
    ensures HandshakeSucceeds(lines) <==> DoneInTime(lines, i)
  {
    if HandshakeSucceeds(lines) {
      var i' :| 0 <= i' < |lines| && ReadyInTime(lines, i') && DoneInTime(lines, i');
      ReadyUnique(lines, i, i');
    }
  }

  /**
    `process_payment` returns `True` exactly when the plate has an open
    record, the balance covers its fee, and the device answers READY and
    then DONE in time; it reports the device not ready exactly when the
    first two hold but no READY comes within 5 s.
   */
  lemma PaymentSucceedsIff(store: Store, plate: string, balance: nat, now: int, lines: seq<Inbound>)
    ensures ProcessPayment(store, plate, balance, now, lines).status == Paid <==>
      && HasUnpaidRecord(store, plate)
      && balance >= AmountDue(store, plate, now)
      && HandshakeSucceeds(lines)
    ensures ProcessPayment(store, plate, balance, now, lines).status == DeviceNotReady <==>
      && HasUnpaidRecord(store, plate)
      && balance >= AmountDue(store, plate, now)
      && !exists i :: ReadyInTime(lines, i)
  {
    if HasUnpaidRecord(store, plate) && balance >= AmountDue(store, plate, now) {
      var due := AmountDue(store, plate, now);
      PaymentIsExchange(store, plate, balance, now, lines);
      ExchangeOutcome(UpdateExitAndPayment(store, plate, due, now), plate, balance - due, lines);
    }
  }

  /** With an open record and enough balance, the attempt is the device exchange on the stamped store. */
  lemma PaymentIsExchange(store: Store, plate: string, balance: nat, now: int, lines: seq<Inbound>)
    requires HasUnpaidRecord(store, plate) && balance >= AmountDue(store, plate, now)
    ensures var due := AmountDue(store, plate, now);
      var a := ProcessPayment(store, plate, balance, now, lines);
      var e := Exchange(UpdateExitAndPayment(store, plate, due, now), plate, balance - due, lines);
      a.status == e.status && a.reply == e.reply
  {
  }

  /** The plate of the worked examples, parked at time 0 and paying at 3600 s, so 500 is due. */
  const ExamplePlate := "RAB123C"
  const ExampleStore := Store([Record(0, None, ExamplePlate, 0, false)], [])

  lemma ExampleDue()
    ensures HasUnpaidRecord(ExampleStore, ExamplePlate)
    ensures AmountDue(ExampleStore, ExamplePlate, 3600) == 500
  {
    assert IsOpenFor(ExampleStore.records[0], ExamplePlate);
    FeeExamples();
  }

  /** The device script of the worked examples: READY after 4.9 s, DONE after 6 s. */
  const PromptDevice := [Inbound(4900, "READY"), Inbound(6000, "DONE")]

  /** The same script with READY 0.2 s later, after 5.1 s. */
  const SlowDevice := [Inbound(5100, "READY"), Inbound(6000, "DONE")]

  lemma ExampleHandshakes()
    ensures HandshakeSucceeds(PromptDevice)
    ensures !exists i :: ReadyInTime(SlowDevice, i)
  {
    var ready := "READY";
    assert !IsSpace(ready[0]) && !IsSpace(ready[4]);
    StripUnpadded(ready);
    assert Contains("DONE", "DONE");
    assert ReadAt(PromptDevice, 0, 0) == 4900 && ReadAt(PromptDevice, 0, 1) == 6000;
    assert ReadyInTime(PromptDevice, 0) && DoneInTime(PromptDevice, 0);
    assert ReadAt(SlowDevice, 0, 0) == 5100 && ReadAt(SlowDevice, 0, 1) == 6000;
    assert !Answers(ReadyToken, SlowDevice[1].text) by {
      assert !IsSpace('D') && !IsSpace('E');
      StripUnpadded("DONE");
    }
  }

  /** READY after 4.9 s and DONE after 6 s settle the record; READY after 5.1 s is too late; 499 does not cover 500. */
  lemma PaymentExamples()
    ensures ProcessPayment(ExampleStore, ExamplePlate, 1000, 3600, PromptDevice).status == Paid
    ensures ProcessPayment(ExampleStore, ExamplePlate, 1000, 3600, SlowDevice).status == DeviceNotReady
    ensures var a := ProcessPayment(ExampleStore, ExamplePlate, 499, 3600, PromptDevice);
      a.status == InsufficientBalance && a.reply == Refusal && HasUnpaidRecord(a.store, ExamplePlate)
  {
    ExampleDue();
    ExampleHandshakes();
    PaymentSucceedsIff(ExampleStore, ExamplePlate, 1000, 3600, PromptDevice);
    PaymentSucceedsIff(ExampleStore, ExamplePlate, 1000, 3600, SlowDevice);
    var a := ProcessPayment(ExampleStore, ExamplePlate, 499, 3600, PromptDevice);
    assert !a.store.records[0].paid;
  }

  // ---------------------------------------------------------------------------
  // The payment lane's listening loop
  // ---------------------------------------------------------------------------

  /**
    One line received by the payment lane: it is stripped and parsed, and a
    payment is attempted only for a report with a non-empty plate. A zero
    balance still counts as a balance. `None`: the line is ignored.
   */
  function HandleReportLine(store: Store, line: string, now: int, lines: seq<Inbound>): (r: Option<Attempt>)
    ensures r.Some? <==> ParseReport(line).Some? && ParseReport(line).value.plate != ""
    ensures r.Some? ==>
      var report := ParseReport(line).value;
      r.value == ProcessPayment(store, report.plate, report.balance, now, lines)
  {
    StripIdempotent(line);
    match ParseReport(Strip(line))
    case None => None
    case Some(report) =>
      if report.plate == "" then None
      else Some(ProcessPayment(store, report.plate, report.balance, now, lines))
  }

  /** A well-formed report from the device starts a payment for exactly the plate and balance it names. */
  lemma ReportStartsPayment(store: Store, plate: string, balance: nat, now: int, lines: seq<Inbound>)
    requires plate != "" && ',' !in plate
    requires !IsSpace(plate[0]) && !IsSpace(plate[|plate| - 1])
    ensures HandleReportLine(store, FormatReport(plate, balance), now, lines) == Some(ProcessPayment(store, plate, balance, now, lines))
  {
    ParseFormatRoundTrip(plate, balance);
  }

  /** A report with an empty plate is ignored, whatever its balance. */
  lemma EmptyPlateIgnored(store: Store, balance: nat, now: int, lines: seq<Inbound>)
    ensures HandleReportLine(store, FormatReport("", balance), now, lines).None?
  {
    ParseFormatRoundTrip("", balance);
  }
}
