/**
  The two pieces of `PlateRecognizer` that are logic rather than vision:
  the format check applied to each OCR reading, and the per-lane consensus
  buffer that turns three readings into one trusted plate.
 */
module Plates {
  import opened Options
  import opened Text

  const PlateLength := 7

  /** Readings collected before a consensus is taken (`capture_threshold`). */
  const CaptureThreshold := 3

  /**
    The plate format character by character: "RA", a letter, three digits,
    a letter; anything after the seventh character is ignored.
   */
  predicate IsPlateShaped(text: string) {
    && |text| >= PlateLength
    && text[0] == 'R' && text[1] == 'A'
    && IsLetter(text[2])
    && IsDigit(text[3]) && IsDigit(text[4]) && IsDigit(text[5])
    && IsLetter(text[6])
  }

  /**
    `validate_rwandan_plate`: the first seven characters when the text is
    shaped like a plate, nothing otherwise.
   */
  function ValidatePlate(text: string): (plate: Option<string>)
    ensures !StartsWith(text, "RA") || |text| < PlateLength ==> plate.None?
    ensures plate.Some? <==> IsPlateShaped(text)
    ensures plate.Some? ==> |plate.value| == PlateLength && plate.value == text[..PlateLength]
  {
    if !StartsWith(text, "RA") || |text| < PlateLength then
      None
    else
      var plate := text[..PlateLength];
      var prefix, digits, suffix := plate[..3], plate[3..6], plate[6];
      assert prefix[0] == text[0] && prefix[1] == text[1] && prefix[2] == text[2];
      assert digits[0] == text[3] && digits[1] == text[4] && digits[2] == text[5];
      if IsAlpha(prefix) && IsDigits(digits) && IsLetter(suffix) then Some(plate) else None
  }

  /** A validated plate validates to itself, whatever followed it in the reading. */
  lemma ValidatedPlateIsFixedPoint(text: string, tail: string)
    requires ValidatePlate(text).Some?
    ensures var p := ValidatePlate(text).value;
      ValidatePlate(p) == Some(p) && ValidatePlate(p + tail) == Some(p)
  {
    var p := ValidatePlate(text).value;
    assert IsPlateShaped(p);
    assert p[..PlateLength] == p;
    assert (p + tail)[..PlateLength] == p;
    assert IsPlateShaped(p + tail);
  }

  /**
    The filter of `detect_plates`: each OCR reading is validated and only
    the readings that pass are kept, as their seven-character plate.
   */
  function DetectedPlates(readings: seq<string>): (plates: seq<string>)
    ensures |plates| <= |readings|
    ensures forall k :: 0 <= k < |plates| ==> IsPlateShaped(plates[k]) && |plates[k]| == PlateLength
    ensures (forall k :: 0 <= k < |readings| ==> ValidatePlate(readings[k]).None?) ==> plates == []
    ensures forall k :: 0 <= k < |readings| && ValidatePlate(readings[k]).Some? ==> ValidatePlate(readings[k]).value in plates
    ensures |readings| == 1 ==> plates == if ValidatePlate(readings[0]).Some? then [ValidatePlate(readings[0]).value] else []
    decreases |readings|
  {
    if |readings| == 0 then []
    else
      var rest := DetectedPlates(readings[1..]);
      assert forall k :: 1 <= k < |readings| ==> readings[k] == readings[1..][k - 1];
      match ValidatePlate(readings[0])
      case Some(p) =>
        ValidatedPlateIsFixedPoint(readings[0], "");
        [p] + rest
      case None => rest
  }

  /**
    The filter works reading by reading: the plates of `a + b` are those of
    `a` followed by those of `b`, and one reading gives its plate when it
    validates and nothing otherwise. Together these fix which readings are
    kept and in what order.
   */
  lemma {:induction false} DetectedPlatesAppend(a: seq<string>, b: seq<string>)
    ensures DetectedPlates(a + b) == DetectedPlates(a) + DetectedPlates(b)
    decreases |a|
  {
    if |a| > 0 {
      assert (a + b)[1..] == a[1..] + b;
      DetectedPlatesAppend(a[1..], b);
    } else {
      assert a + b == b;
    }
  }

  /** The same valid reading three times in one frame is detected as its plate three times. */
  lemma DetectedThrice(reading: string)
    requires ValidatePlate(reading).Some?
    ensures var p := ValidatePlate(reading).value; DetectedPlates([reading, reading, reading]) == [p, p, p]
  {
    DetectedPlatesAppend([reading], [reading]);
    DetectedPlatesAppend([reading], [reading, reading]);
    assert [reading] + [reading] == [reading, reading];
    assert [reading] + [reading, reading] == [reading, reading, reading];
  }

  // ---------------------------------------------------------------------------
  // Consensus
  // ---------------------------------------------------------------------------

  function Count(s: seq<string>, x: string): nat {
    multiset(s)[x]
  }

  /**
    `r` is what `Counter(s).most_common(1)[0][0]` returns: an element of `s`
    that no other element outnumbers, and among the elements with that count
    the one seen first (every position holding a most frequent element is at
    or after the first occurrence of `r`).
   */
  predicate IsFirstMode(s: seq<string>, r: string) {
    && r in s
    && (forall j :: 0 <= j < |s| ==> Count(s, s[j]) <= Count(s, r))
    && (forall j :: 0 <= j < |s| && Count(s, s[j]) == Count(s, r) ==> FirstIndex(s, r) <= j)
  }

  /**
    Scans `s` from position `i`, keeping in `best` the first position
    holding the largest count seen so far.
   */
  function ModeScan(s: seq<string>, i: nat, best: nat): (r: string)
    requires best < i <= |s|
    requires forall j :: 0 <= j < i ==> Count(s, s[j]) <= Count(s, s[best])
    requires forall j :: 0 <= j < best ==> Count(s, s[j]) < Count(s, s[best])
    ensures IsFirstMode(s, r)
    decreases |s| - i
  {
    if i == |s| then
      FirstIndexAtMost(s, s[best], best);
      s[best]
    else if Count(s, s[i]) > Count(s, s[best]) then
      ModeScan(s, i + 1, i)
    else
      ModeScan(s, i + 1, best)
  }

  /** The most common reading, ties going to the one seen first. */
  function MostCommon(s: seq<string>): (r: string)
    requires |s| > 0
    ensures IsFirstMode(s, r)
  {
    ModeScan(s, 1, 0)
  }

  function FirstIndex(s: seq<string>, x: string): (k: nat)
    requires x in s
    ensures k < |s| && s[k] == x && x !in s[..k]
    decreases |s|
  {
    if s[0] == x then 0
    else
      var k := FirstIndex(s[1..], x) + 1;
      assert s[..k] == [s[0]] + s[1..][..k - 1];
      k
  }

  lemma FirstIndexAtMost(s: seq<string>, x: string, m: nat)
    requires m < |s| && s[m] == x
    ensures FirstIndex(s, x) <= m
  {
  }

  /** The first-seen mode is unique: the description above determines the consensus. */
  lemma FirstModeUnique(s: seq<string>, a: string, b: string)
    requires IsFirstMode(s, a) && IsFirstMode(s, b)
    ensures a == b
  {
    var i := FirstIndex(s, a);
    var j := FirstIndex(s, b);
    assert Count(s, s[i]) <= Count(s, b);
    assert Count(s, s[j]) <= Count(s, a);
    assert j <= i;
    assert i <= j;
  }

  /** Two different values together occur no more often than the sequence is long. */
  lemma {:induction false} CountsOfTwo(s: seq<string>, x: string, y: string)
    requires x != y
    ensures Count(s, x) + Count(s, y) <= |s|
    decreases |s|
  {
    if |s| > 0 {
      var front := s[..|s| - 1];
      assert s == front + [s[|s| - 1]];
      assert multiset(s) == multiset(front) + multiset{s[|s| - 1]};
      CountsOfTwo(front, x, y);
    }
  }

  /** A reading held by a strict majority of the buffer is the consensus. */
  lemma MajorityWins(s: seq<string>, x: string)
    requires Count(s, x) * 2 > |s|
    ensures |s| > 0 && MostCommon(s) == x
  {
    var r := MostCommon(s);
    assert x in multiset(s);
    var j :| 0 <= j < |s| && s[j] == x;
    assert Count(s, x) <= Count(s, r);
    if r != x {
      CountsOfTwo(s, r, x);
    }
  }

  /** The consensus of three readings: the repeated one if any, else the first. */
  function VoteOfThree(a: string, b: string, c: string): string {
    if b == c then b else a
  }

  lemma ConsensusOfThree(a: string, b: string, c: string)
    ensures MostCommon([a, b, c]) == VoteOfThree(a, b, c)
  {
    var s := [a, b, c];
    var v := VoteOfThree(a, b, c);
    assert s[0] == a && s[1] == b && s[2] == c;
    assert multiset(s) == multiset{a, b, c};
    assert s[..1] == [a] && s[..2] == [a, b] && s[..3] == s;
    assert IsFirstMode(s, v);
    FirstModeUnique(s, MostCommon(s), v);
  }

  /** A call of `get_consensus_plate`: what it returned and the buffer it left behind. */
  datatype Observation = Observation(emitted: Option<string>, buffer: seq<string>)

  /**
    `get_consensus_plate`: append the reading; once the buffer holds
    `CaptureThreshold` readings, return their consensus and empty it.
   */
  function Observe(buffer: seq<string>, plate: string): (r: Observation)
    ensures |buffer| + 1 < CaptureThreshold ==> r == Observation(None, buffer + [plate])
    ensures |buffer| + 1 >= CaptureThreshold ==>
      r.buffer == [] && r.emitted.Some? && IsFirstMode(buffer + [plate], r.emitted.value)
    ensures |buffer| < CaptureThreshold ==> |r.buffer| < CaptureThreshold
  {
    var b := buffer + [plate];
    if |b| >= CaptureThreshold then Observation(Some(MostCommon(b)), []) else Observation(None, b)
  }

  /** Plate-shaped readings into a plate-shaped buffer leave a plate-shaped buffer, and any consensus is plate-shaped. */
  lemma ObserveKeepsShaped(buffer: seq<string>, plate: string)
    requires forall k :: 0 <= k < |buffer| ==> IsPlateShaped(buffer[k])
    requires IsPlateShaped(plate)
    ensures var b := Observe(buffer, plate).buffer; forall k :: 0 <= k < |b| ==> IsPlateShaped(b[k])
    ensures var e := Observe(buffer, plate).emitted; e.Some? ==> IsPlateShaped(e.value)
  {
    var b := buffer + [plate];
    assert forall k :: 0 <= k < |b| ==> b[k] == if k < |buffer| then buffer[k] else plate;
  }

  /** What a sequence of calls returned, in order, and the buffer left at the end. */
  datatype Feed = Feed(outputs: seq<Option<string>>, buffer: seq<string>)

  function ObserveAll(buffer: seq<string>, plates: seq<string>): (r: Feed)
    ensures |r.outputs| == |plates|
    decreases |plates|
  {
    if |plates| == 0 then Feed([], buffer)
    else
      var o := Observe(buffer, plates[0]);
      var rest := ObserveAll(o.buffer, plates[1..]);
      Feed([o.emitted] + rest.outputs, rest.buffer)
  }

  /** Fewer than three readings from an empty buffer: nothing emitted, all of them kept. */
  lemma ObserveFewThan3(plates: seq<string>)
    requires |plates| < 3
    ensures ObserveAll([], plates).buffer == plates
    ensures forall k :: 0 <= k < |plates| ==> ObserveAll([], plates).outputs[k] == None
  {
    ObserveQuiet([], plates);
    assert [] + plates == plates;
  }

  /** Readings that do not fill the buffer: nothing emitted, all of them kept. */
  lemma {:induction false} ObserveQuiet(buffer: seq<string>, plates: seq<string>)
    requires |buffer| + |plates| < CaptureThreshold
    ensures ObserveAll(buffer, plates).buffer == buffer + plates
    ensures forall k :: 0 <= k < |plates| ==> ObserveAll(buffer, plates).outputs[k] == None
    decreases |plates|
  {
    if |plates| == 0 {
      assert buffer + plates == buffer;
    } else {
      var b := buffer + [plates[0]];
      assert Observe(buffer, plates[0]) == Observation(None, b);
      var rest := ObserveAll(b, plates[1..]);
      ObserveQuiet(b, plates[1..]);
      assert b + plates[1..] == buffer + plates;
      assert ObserveAll(buffer, plates) == Feed([None] + rest.outputs, rest.buffer);
    }
  }

  lemma ObserveCompletes(a: string, b: string, c: string)
    ensures Observe([a, b], c) == Observation(Some(VoteOfThree(a, b, c)), [])
  {
    ConsensusOfThree(a, b, c);
    assert [a, b] + [c] == [a, b, c];
  }

  lemma ObserveFirst(a: string, rest: seq<string>)
    ensures ObserveAll([], [a] + rest) == Feed([None] + ObserveAll([a], rest).outputs, ObserveAll([a], rest).buffer)
  {
    assert Observe([], a) == Observation(None, [a]);
    assert ([a] + rest)[1..] == rest;
  }

  lemma ObserveSecond(a: string, b: string, rest: seq<string>)
    ensures ObserveAll([a], [b] + rest) == Feed([None] + ObserveAll([a, b], rest).outputs, ObserveAll([a, b], rest).buffer)
  {
    assert Observe([a], b) == Observation(None, [a, b]);
    assert ([b] + rest)[1..] == rest;
  }

  lemma ObserveThird(a: string, b: string, c: string, rest: seq<string>)
    ensures ObserveAll([a, b], [c] + rest) ==
      Feed([Some(VoteOfThree(a, b, c))] + ObserveAll([], rest).outputs, ObserveAll([], rest).buffer)
  {
    ObserveCompletes(a, b, c);
    assert ([c] + rest)[1..] == rest;
  }

  /** Three readings from an empty buffer: two silent calls, then their vote, and the buffer is empty again. */
  lemma ObserveThree(a: string, b: string, c: string, rest: seq<string>)
    ensures var g := ObserveAll([], rest); var f := ObserveAll([], [a] + ([b] + ([c] + rest)));
      && f.buffer == g.buffer
      && f.outputs[0] == None && f.outputs[1] == None && f.outputs[2] == Some(VoteOfThree(a, b, c))
      && f.outputs[3..] == g.outputs
  {
    ObserveFirst(a, [b] + ([c] + rest));
    ObserveSecond(a, b, [c] + rest);
    ObserveThird(a, b, c, rest);
  }

  /** What the `k`-th call returns when a feed starts from an empty buffer. */
  function ExpectedOutput(plates: seq<string>, k: nat): Option<string>
    requires k < |plates|
  {
    if k % 3 == 2 then Some(VoteOfThree(plates[k - 2], plates[k - 1], plates[k])) else None
  }

  /**
    From an empty buffer, a consensus is emitted on exactly every third
    reading, and it is the vote of the three readings since the last one;
    the buffer then holds the readings not yet voted on.
   */
  lemma {:induction false} EmitsEveryThird(plates: seq<string>)
    ensures var f := ObserveAll([], plates);
      && (forall k :: 0 <= k < |plates| ==> f.outputs[k] == ExpectedOutput(plates, k))
      && f.buffer == plates[|plates| - |plates| % 3..]
    decreases |plates|
  {
    if |plates| < 3 {
      ObserveFewThan3(plates);
    } else {
      var rest := plates[3..];
      assert plates == [plates[0]] + ([plates[1]] + ([plates[2]] + rest));
      ObserveThree(plates[0], plates[1], plates[2], rest);
      EmitsEveryThird(rest);
      ShiftExpected(plates, ObserveAll([], plates).outputs, ObserveAll([], rest).outputs);
      assert |rest| % 3 == |plates| % 3;
      assert rest[|rest| - |rest| % 3..] == plates[|plates| - |plates| % 3..];
    }
  }

  /** The expected outputs of a feed, shifted by one round of three readings. */
  lemma ShiftExpected(plates: seq<string>, outputs: seq<Option<string>>, later: seq<Option<string>>)
    requires |plates| >= 3 && |outputs| == |plates|
    requires outputs[0] == None && outputs[1] == None
    requires outputs[2] == Some(VoteOfThree(plates[0], plates[1], plates[2]))
    requires outputs[3..] == later
    requires forall k :: 0 <= k < |later| ==> later[k] == ExpectedOutput(plates[3..], k)
    ensures forall k :: 0 <= k < |plates| ==> outputs[k] == ExpectedOutput(plates, k)
  {
    forall k | 3 <= k < |plates|
      ensures outputs[k] == ExpectedOutput(plates, k)
    {
      assert outputs[k] == later[k - 3] == ExpectedOutput(plates[3..], k - 3);
      assert (k - 3) % 3 == k % 3;
    }
  }
}
