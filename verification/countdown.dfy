/** The coming-soon countdown: a distance in milliseconds is split into days,
    hours, minutes and seconds, and each element shows the unit it is tagged
    with, zero-padded to two characters. The clock and the deadline are not
    modelled: the distance is an input. */
module Countdown {
  import opened Text

  const MS_PER_SECOND: nat := 1000
  const MS_PER_MINUTE: nat := 60 * MS_PER_SECOND
  const MS_PER_HOUR: nat := 60 * MS_PER_MINUTE
  const MS_PER_DAY: nat := 24 * MS_PER_HOUR

  datatype Parts = Parts(days: nat, hours: nat, minutes: nat, seconds: nat)
  {
    /** Each unit below days is within its clock range. */
    predicate InRange() {
      hours < 24 && minutes < 60 && seconds < 60
    }

    /** The whole seconds these parts stand for, in milliseconds. */
    function Millis(): nat {
      days * MS_PER_DAY + hours * MS_PER_HOUR + minutes * MS_PER_MINUTE + seconds * MS_PER_SECOND
    }
  }

  /** The split `updateCountdown` computes for a non-negative distance. */
  function Decompose(distance: nat): (p: Parts)
    ensures p.InRange()
    ensures p.Millis() <= distance < p.Millis() + MS_PER_SECOND
  {
    var p := Parts(distance / MS_PER_DAY,
                   (distance % MS_PER_DAY) / MS_PER_HOUR,
                   (distance % MS_PER_HOUR) / MS_PER_MINUTE,
                   (distance % MS_PER_MINUTE) / MS_PER_SECOND);
    SplitMillis(distance);
    p
  }

  /** Division by a positive number has exactly one quotient and remainder. */
  lemma DivModUnique(d: int, c: nat, x: int, y: int)
    requires c > 0 && d == x * c + y && 0 <= y < c
    ensures d / c == x && d % c == y
  {
    var q, r := d / c, d % c;
    assert (q - x) * c == y - r;
    MulAwayFromZero(q - x, c);
  }

  /** A non-zero multiple of `c` is at least `c` away from zero. */
  lemma MulAwayFromZero(k: int, c: int)
    requires c > 0
    ensures k >= 1 ==> k * c >= c
    ensures k <= -1 ==> k * c <= -c
  {
  }

  /** Taking the remainder by a larger unit first does not change the
      remainder by a smaller unit that divides it. */
  lemma ModNest(d: nat, small: nat, k: nat)
    requires small > 0 && k > 0
    ensures (d % (small * k)) % small == d % small
    ensures (d % (small * k)) / small < k
  {
    var big := small * k;
    var r := d % big;
    assert d == (d / big) * big + r;
    assert r == (r / small) * small + r % small;
    assert (d / big) * big == ((d / big) * k) * small;
    DivModUnique(d, small, (d / big) * k + r / small, r % small);
  }

  /** The arithmetic behind `Decompose`, one unit at a time. */
  lemma SplitMillis(d: nat)
    ensures (d % MS_PER_DAY) / MS_PER_HOUR < 24
    ensures (d % MS_PER_HOUR) / MS_PER_MINUTE < 60
    ensures (d % MS_PER_MINUTE) / MS_PER_SECOND < 60
    ensures d == (d / MS_PER_DAY) * MS_PER_DAY + ((d % MS_PER_DAY) / MS_PER_HOUR) * MS_PER_HOUR
                 + ((d % MS_PER_HOUR) / MS_PER_MINUTE) * MS_PER_MINUTE
                 + ((d % MS_PER_MINUTE) / MS_PER_SECOND) * MS_PER_SECOND + d % MS_PER_SECOND
  {
    ModNest(d, MS_PER_HOUR, 24);
    ModNest(d, MS_PER_MINUTE, 60);
    ModNest(d, MS_PER_SECOND, 60);
    var r := d % MS_PER_DAY;
    var h := d % MS_PER_HOUR;
    var m := d % MS_PER_MINUTE;
    assert d == (d / MS_PER_DAY) * MS_PER_DAY + r;
    assert r == (r / MS_PER_HOUR) * MS_PER_HOUR + h;
    assert h == (h / MS_PER_MINUTE) * MS_PER_MINUTE + m;
    assert m == (m / MS_PER_SECOND) * MS_PER_SECOND + d % MS_PER_SECOND;
  }

  /** The split is the only one in range: decomposing the milliseconds of any
      in-range parts, plus less than a second, gives those parts back. */
  lemma DecomposeRoundTrip(p: Parts, ms: nat)
    requires p.InRange() && ms < MS_PER_SECOND
    ensures Decompose(p.Millis() + ms) == p
  {
    var d := p.Millis() + ms;
    var lm := p.seconds * MS_PER_SECOND + ms;
    var lh := p.minutes * MS_PER_MINUTE + lm;
    var ld := p.hours * MS_PER_HOUR + lh;
    DivModUnique(d, MS_PER_DAY, p.days, ld);
    DivModUnique(d, MS_PER_HOUR, p.days * 24 + p.hours, lh);
    DivModUnique(d, MS_PER_MINUTE, (p.days * 24 + p.hours) * 60 + p.minutes, lm);
    DivModUnique(ld, MS_PER_HOUR, p.hours, lh);
    DivModUnique(lh, MS_PER_MINUTE, p.minutes, lm);
    DivModUnique(lm, MS_PER_SECOND, p.seconds, ms);
  }

  /** The unit an element's `data-countdown` names: "days", "hours" and
      "minutes" select those; any other name, "seconds" or not, selects
      seconds. */
  function UnitValue(unit: string, p: Parts): (v: nat)
    ensures unit == "days" ==> v == p.days
    ensures unit == "hours" ==> v == p.hours
    ensures unit == "minutes" ==> v == p.minutes
    ensures unit !in {"days", "hours", "minutes"} ==> v == p.seconds
  {
    if unit == "days" then p.days
    else if unit == "hours" then p.hours
    else if unit == "minutes" then p.minutes
    else p.seconds
  }

  /** `String(value).padStart(2, "0")`. */
  function Pad2(value: nat): (s: string)
    ensures |s| == if value < 10 then 2 else |DecimalString(value)|
    ensures |s| >= 2 && AllDigits(s)
    ensures s[0] == '0' <==> value < 10
    ensures DecimalValue(s) == value
  {
    var digits := DecimalString(value);
    var s := PadStart(digits, 2, '0');
    DecimalRoundTrip(value);
    LeadingZeroIgnored(digits);
    assert value < 10 ==> s == "0" + digits;
    assert value >= 10 ==> s == digits;
    s
  }

  /** The text an element tagged `unit` shows at `distance` milliseconds. */
  function Render(unit: string, distance: nat): (s: string)
    ensures var v := UnitValue(unit, Decompose(distance));
      |s| == if v < 10 then 2 else |DecimalString(v)|
    ensures |s| >= 2 && AllDigits(s)
    ensures s[0] == '0' <==> UnitValue(unit, Decompose(distance)) < 10
    ensures DecimalValue(s) == UnitValue(unit, Decompose(distance))
  {
    Pad2(UnitValue(unit, Decompose(distance)))
  }

  /** Every element of the countdown, in order, re-rendered for one tick. */
  function Tick(units: seq<string>, distance: nat): (texts: seq<string>)
    ensures |texts| == |units|
    ensures forall i :: 0 <= i < |units| ==> |texts[i]| >= 2 && AllDigits(texts[i])
    ensures forall i :: 0 <= i < |units| ==>
      var v := UnitValue(units[i], Decompose(distance));
      |texts[i]| == if v < 10 then 2 else |DecimalString(v)|
    ensures forall i :: 0 <= i < |units| ==>
      DecimalValue(texts[i]) == UnitValue(units[i], Decompose(distance))
  {
    seq(|units|, i requires 0 <= i < |units| => Render(units[i], distance))
  }
}
