/**
 * The conversion of a bar/beat label into an integer tick position, for a fixed 4/4 time
 * signature: 4 beats per bar, 2 ticks per beat, 8 ticks per bar.
 *
 * A beat is a 1-based beat number, either a whole beat ("3") or the "and" half a beat after
 * it ("3a"). All arithmetic is on integers: a beat is counted in half-beats, so beat 1 is 2
 * half-beats, "1a" is 3 and beat 4 is 8.
 */
module BeatPosition {
  import opened Options

  const BEATS_PER_BAR: int := 4
  const SUBDIVISION: int := 2
  const TICKS_PER_BAR: int := BEATS_PER_BAR * SUBDIVISION

  /**
   * The `beat` field of a note record: a JSON number, restricted to whole and half values and
   * given as a count of half-beats (the number 2.5 is `Number(5)`), or a string label.
   */
  datatype Beat = Number(halves: int) | Label(text: string)

  predicate IsDigit(c: char) {
    '0' <= c <= '9'
  }

  predicate AllDigits(s: string) {
    forall i :: 0 <= i < |s| ==> IsDigit(s[i])
  }

  /** The value of a string of decimal digits, most significant digit first. */
  function DigitsValue(s: string): nat
    requires AllDigits(s)
  {
    if s == [] then 0 else DigitsValue(s[..|s| - 1]) * 10 + (s[|s| - 1] as int - '0' as int)
  }

  /** Integer parsing of a beat label or label prefix: a non-empty run of ASCII decimal digits. */
  function ParseNat(s: string): (r: Option<nat>)
    ensures r.Some? <==> s != [] && AllDigits(s)
  {
    if s != [] && AllDigits(s) then Some(DigitsValue(s)) else None
  }

  /** The decimal spelling of `n`, without leading zeros. */
  function Decimal(n: nat): (s: string)
    decreases n
  {
    var last := ['0' + (n % 10) as char];
    if n < 10 then last else Decimal(n / 10) + last
  }

  lemma {:induction false} DecimalDigits(n: nat)
    ensures Decimal(n) != [] && AllDigits(Decimal(n))
    ensures DigitsValue(Decimal(n)) == n
    decreases n
  {
    if n >= 10 {
      DecimalDigits(n / 10);
      var s := Decimal(n);
      assert s[..|s| - 1] == Decimal(n / 10);
    }
  }

  /** Parsing a decimal spelling gives back the number. */
  lemma ParseDecimal(n: nat)
    ensures ParseNat(Decimal(n)) == Some(n)
  {
    DecimalDigits(n);
  }

  /** A label is a digit run, optionally followed by the "and" marker 'a'. */
  predicate EndsWithAnd(s: string) {
    |s| > 0 && s[|s| - 1] == 'a'
  }

  predicate WellFormedLabel(s: string) {
    if EndsWithAnd(s) then ParseNat(s[..|s| - 1]).Some? else ParseNat(s).Some?
  }

  /**
   * The beat as a count of half-beats. A label ending in 'a' is the digit prefix plus half a
   * beat; any other label is read as a whole beat number. `None` for a label that is not
   * digits or digits followed by 'a'.
   */
  function ParseBeat(b: Beat): (r: Option<int>)
    ensures b.Number? ==> r == Some(b.halves)
    ensures b.Label? ==> (r.Some? <==> WellFormedLabel(b.text))
    ensures b.Label? && r.Some? ==> r.value >= 0 && (r.value % 2 == 1 <==> EndsWithAnd(b.text))
  {
    match b
    case Number(h) => Some(h)
    case Label(s) =>
      if EndsWithAnd(s) then
        match ParseNat(s[..|s| - 1])
        case Some(n) => Some(2 * n + 1)
        case None => None
      else
        match ParseNat(s)
        case Some(n) => Some(2 * n)
        case None => None
  }

  /** The integer part of `halves / 2`, truncated toward zero as a float-to-int cast does. */
  function WholeBeat(halves: int): (w: int)
    ensures halves >= 0 ==> 0 <= w && 2 * w <= halves <= 2 * w + 1
    ensures halves < 0 ==> w <= 0 && 2 * w - 1 <= halves <= 2 * w
  {
    if halves >= 0 then halves / 2 else -((-halves) / 2)
  }

  /**
   * The tick position of the beat `halves` (in half-beats) of bar `bar`: the start of the bar,
   * plus two ticks per whole beat after the first, plus one tick for an "and" beat.
   * For non-negative beats this is linear, one tick per half-beat; a negative odd beat is
   * truncated toward zero before the "and" tick is added, which puts it two ticks later.
   */
  function Position(bar: int, halves: int): (p: int)
    ensures halves >= 0 ==> p == (bar - 1) * TICKS_PER_BAR + halves - 2
    ensures halves < 0 ==> p == (bar - 1) * TICKS_PER_BAR + halves - 2 + (if halves % 2 == 1 then 2 else 0)
  {
    var basePos := (bar - 1) * TICKS_PER_BAR + (WholeBeat(halves) - 1) * SUBDIVISION;
    if halves % 2 == 1 then basePos + 1 else basePos
  }

  /**
   * The tick position of a bar/beat label; `None` where the label would make parsing fail.
   * A label "D" of digits lies at (bar - 1) * 8 + (D - 1) * 2 and a label "Da" one tick later,
   * whatever leading zeros D carries; a non-negative number of half-beats lies one tick per
   * half-beat after beat 1 of the bar.
   */
  function BarBeatToPosition(bar: int, beat: Beat): (r: Option<int>)
    ensures beat.Number? ==> r.Some?
    ensures beat.Label? ==> (r.Some? <==> WellFormedLabel(beat.text))
    ensures r.Some? && beat.Number? && beat.halves >= 0 ==>
      r.value == (bar - 1) * TICKS_PER_BAR + beat.halves - 2
    ensures r.Some? && beat.Number? && beat.halves < 0 ==>
      r.value == (bar - 1) * TICKS_PER_BAR + beat.halves - 2 + (if beat.halves % 2 == 1 then 2 else 0)
    ensures r.Some? && beat.Label? && EndsWithAnd(beat.text) ==>
      r.value == (bar - 1) * TICKS_PER_BAR + (DigitsValue(beat.text[..|beat.text| - 1]) - 1) * SUBDIVISION + 1
    ensures r.Some? && beat.Label? && !EndsWithAnd(beat.text) ==>
      r.value == (bar - 1) * TICKS_PER_BAR + (DigitsValue(beat.text) - 1) * SUBDIVISION
  {
    match ParseBeat(beat)
    case Some(h) => Some(Position(bar, h))
    case None => None
  }

  // ---------------------------------------------------------------------------------------
  // Whole beats and "and" beats

  /** A numeric whole beat `b` of bar `bar` lies at `(bar - 1) * 8 + (b - 1) * 2`. */
  lemma NumberBeatPosition(bar: int, b: int)
    ensures BarBeatToPosition(bar, Number(2 * b)) == Some((bar - 1) * 8 + (b - 1) * 2)
  {
  }

  /** The label of a whole beat `n` gives the same position as the number `n`. */
  lemma WholeLabelPosition(bar: int, n: nat)
    ensures BarBeatToPosition(bar, Label(Decimal(n))) == Some((bar - 1) * 8 + (n - 1) * 2)
  {
    DecimalDigits(n);
    var s := Decimal(n);
    assert IsDigit(s[|s| - 1]);
  }

  /** The label "Na" lies one tick after beat N of the same bar. */
  lemma AndLabelPosition(bar: int, n: nat)
    ensures BarBeatToPosition(bar, Label(Decimal(n) + "a")) == Some((bar - 1) * 8 + (n - 1) * 2 + 1)
    ensures BarBeatToPosition(bar, Label(Decimal(n) + "a")).value
         == BarBeatToPosition(bar, Label(Decimal(n))).value + 1
  {
    var s := Decimal(n) + "a";
    assert s[..|s| - 1] == Decimal(n);
    ParseDecimal(n);
    WholeLabelPosition(bar, n);
  }

  /**
   * The worked examples: bar 1 beat "1" is 0, "1a" is 1, "3" is 4; bar 2 beat "1" is 8,
   * "2a" is 11; leading zeros do not matter ("03" is beat 3, "01a" is "1a").
   */
  lemma Examples()
    ensures BarBeatToPosition(1, Label("1")) == Some(0)
    ensures BarBeatToPosition(1, Label("1a")) == Some(1)
    ensures BarBeatToPosition(1, Label("3")) == Some(4)
    ensures BarBeatToPosition(2, Label("1")) == Some(8)
    ensures BarBeatToPosition(2, Label("2a")) == Some(11)
    ensures BarBeatToPosition(1, Label("03")) == Some(4)
    ensures BarBeatToPosition(1, Label("01a")) == Some(1)
  {
    assert "01a"[..2] == "01" && "01"[..1] == "0";
  }

  // ---------------------------------------------------------------------------------------
  // Bars do not overlap, and positions follow musical order

  /** The beats that belong to a 4/4 bar: "1" (2 half-beats) through "4a" (9 half-beats). */
  predicate InBar(halves: int) {
    2 <= halves <= 2 * BEATS_PER_BAR + 1
  }

  /** Every beat from "1" to "4a" of a bar lies within that bar's eight ticks. */
  lemma PositionWithinBar(bar: int, halves: int)
    requires InBar(halves)
    ensures (bar - 1) * TICKS_PER_BAR <= Position(bar, halves) <= (bar - 1) * TICKS_PER_BAR + TICKS_PER_BAR - 1
  {
  }

  /** Positions of in-bar beats are ordered exactly as the beats are: bar first, then beat. */
  lemma PositionOrder(bar1: int, halves1: int, bar2: int, halves2: int)
    requires InBar(halves1) && InBar(halves2)
    ensures Position(bar1, halves1) < Position(bar2, halves2)
        <==> bar1 < bar2 || (bar1 == bar2 && halves1 < halves2)
  {
  }

  /** Two in-bar beats share a position only when they are the same bar and beat. */
  lemma PositionInjective(bar1: int, halves1: int, bar2: int, halves2: int)
    requires InBar(halves1) && InBar(halves2)
    requires Position(bar1, halves1) == Position(bar2, halves2)
    ensures bar1 == bar2 && halves1 == halves2
  {
  }

  /** Beat N < "Na" < beat N+1 within a bar, for every N, and "4a" of one bar < beat 1 of the next. */
  lemma MusicalOrder(bar: int, n: nat)
    ensures BarBeatToPosition(bar, Label(Decimal(n))).Some?
         && BarBeatToPosition(bar, Label(Decimal(n) + "a")).Some?
         && BarBeatToPosition(bar, Label(Decimal(n + 1))).Some?
    ensures BarBeatToPosition(bar, Label(Decimal(n))).value
          < BarBeatToPosition(bar, Label(Decimal(n) + "a")).value
          < BarBeatToPosition(bar, Label(Decimal(n + 1))).value
    ensures BarBeatToPosition(bar, Label(Decimal(BEATS_PER_BAR) + "a")).value
          < BarBeatToPosition(bar + 1, Label(Decimal(1))).value
  {
    WholeLabelPosition(bar, n);
    AndLabelPosition(bar, n);
    WholeLabelPosition(bar, n + 1);
    AndLabelPosition(bar, BEATS_PER_BAR);
    WholeLabelPosition(bar + 1, 1);
  }

  // ---------------------------------------------------------------------------------------
  // The inverse: from a tick position back to a bar and a beat label

  /** The bar (1-based) and the beat (in half-beats) at tick `p`. */
  function FromPosition(p: nat): (bb: (int, int))
    ensures bb.0 >= 1 && InBar(bb.1)
  {
    (p / TICKS_PER_BAR + 1, p % TICKS_PER_BAR + 2)
  }

  /** The label spelling a beat given in half-beats: "N" or "Na". */
  function BeatLabel(halves: nat): string {
    if halves % 2 == 1 then Decimal(halves / 2) + "a" else Decimal(halves / 2)
  }

  /** Every label spelled by `BeatLabel` parses back to its beat. */
  lemma ParseBeatLabel(halves: nat)
    ensures ParseBeat(Label(BeatLabel(halves))) == Some(halves)
  {
    DecimalDigits(halves / 2);
    var d := Decimal(halves / 2);
    assert IsDigit(d[|d| - 1]);
    if halves % 2 == 1 {
      var s := d + "a";
      assert s[..|s| - 1] == d;
    }
  }

  /** Every non-negative tick is the position of the bar and beat `FromPosition` gives. */
  lemma FromPositionRoundTrip(p: nat)
    ensures var bb := FromPosition(p); BarBeatToPosition(bb.0, Label(BeatLabel(bb.1))) == Some(p)
  {
    ParseBeatLabel(FromPosition(p).1);
  }

  /** `FromPosition` recovers the bar and beat of every in-bar beat of a bar from 1 on. */
  lemma PositionRoundTrip(bar: int, halves: int)
    requires bar >= 1 && InBar(halves)
    ensures Position(bar, halves) >= 0
    ensures FromPosition(Position(bar, halves)) == (bar, halves)
  {
  }
}
