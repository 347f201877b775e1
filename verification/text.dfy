/** String helpers the page scripts rely on: `toLowerCase` (ASCII only),
    `String.prototype.includes`, `String(n)` for a non-negative integer and
    `padStart`. */
module Text {

  // ---------------------------------------------------------------- lowercase

  predicate IsAsciiUpper(c: char) {
    'A' <= c <= 'Z'
  }

  function LowerChar(c: char): (r: char)
    ensures !IsAsciiUpper(r)
    ensures !IsAsciiUpper(c) ==> r == c
    ensures IsAsciiUpper(c) ==> r as int == c as int + 32
  {
    if IsAsciiUpper(c) then (c as int + 32) as char else c
  }

  /** `s.toLowerCase()` restricted to ASCII letters: every upper-case letter is
      replaced by its lower-case partner and nothing else moves. */
  function Lower(s: string): (r: string)
    ensures |r| == |s|
    ensures forall i :: 0 <= i < |s| ==> !IsAsciiUpper(r[i])
    ensures forall i :: 0 <= i < |s| && !IsAsciiUpper(s[i]) ==> r[i] == s[i]
    ensures forall i :: 0 <= i < |s| && IsAsciiUpper(s[i]) ==> r[i] as int == s[i] as int + 32
  {
    seq(|s|, i requires 0 <= i < |s| => LowerChar(s[i]))
  }

  // ---------------------------------------------------------------- includes

  /** `q` occurs as a contiguous piece of `t`. */
  ghost predicate Occurs(q: string, t: string) {
    exists i :: OccursAt(q, t, i)
  }

  /** `q` occurs in `t` starting at position `i`. */
  predicate OccursAt(q: string, t: string, i: int) {
    0 <= i <= |t| - |q| && t[i..i + |q|] == q
  }

  /** `t.includes(q)`: tries every starting position from the left. */
  function Includes(t: string, q: string): (r: bool)
    ensures r <==> Occurs(q, t)
    decreases |t|
  {
    if |q| > |t| then
      false
    else if t[..|q|] == q then
      assert OccursAt(q, t, 0);
      true
    else
      var r := Includes(t[1..], q);
      assert r ==> Occurs(q, t) by {
        if r {
          var i :| OccursAt(q, t[1..], i);
          assert t[i + 1..i + 1 + |q|] == t[1..][i..i + |q|];
          assert OccursAt(q, t, i + 1);
        }
      }
      assert Occurs(q, t) ==> r by {
        if Occurs(q, t) {
          var i :| OccursAt(q, t, i);
          assert i != 0;
          assert t[1..][i - 1..i - 1 + |q|] == t[i..i + |q|];
          assert OccursAt(q, t[1..], i - 1);
        }
      }
      r
  }

  /** Every string includes the empty string. */
  lemma IncludesEmpty(t: string)
    ensures Includes(t, "")
  {
  }

  // ---------------------------------------------------------------- decimal

  predicate IsDigit(c: char) {
    '0' <= c <= '9'
  }

  predicate AllDigits(s: string) {
    forall i :: 0 <= i < |s| ==> IsDigit(s[i])
  }

  function DigitChar(d: nat): (c: char)
    requires d < 10
    ensures IsDigit(c)
  {
    ('0' as int + d) as char
  }

  function DigitValue(c: char): (d: nat)
    requires IsDigit(c)
    ensures d < 10
    ensures DigitChar(d) == c
  {
    c as int - '0' as int
  }

  /** `String(n)` for a non-negative integer: base-10 digits, most significant
      first, with no leading zero except for `n == 0` itself. */
  function DecimalString(n: nat): (s: string)
    ensures |s| >= 1 && AllDigits(s)
    ensures |s| == 1 <==> n < 10
    ensures s[0] == '0' <==> n == 0
    decreases n
  {
    if n < 10 then [DigitChar(n)] else DecimalString(n / 10) + [DigitChar(n % 10)]
  }

  /** The number a string of digits denotes (leading zeros allowed). */
  function DecimalValue(s: string): nat
    requires AllDigits(s)
    decreases |s|
  {
    if s == [] then 0 else DecimalValue(s[..|s| - 1]) * 10 + DigitValue(s[|s| - 1])
  }

  /** Reading back what `DecimalString` wrote gives the number again. */
  lemma {:induction false} DecimalRoundTrip(n: nat)
    ensures DecimalValue(DecimalString(n)) == n
    decreases n
  {
    var s := DecimalString(n);
    if n < 10 {
      assert s[..0] == [];
    } else {
      DecimalRoundTrip(n / 10);
      assert s[..|s| - 1] == DecimalString(n / 10);
    }
  }

  /** A leading zero does not change the value of a digit string. */
  lemma {:induction false} LeadingZeroIgnored(s: string)
    requires AllDigits(s)
    ensures AllDigits("0" + s) && DecimalValue("0" + s) == DecimalValue(s)
    decreases |s|
  {
    if s != [] {
      var t := "0" + s;
      assert t[..|t| - 1] == "0" + s[..|s| - 1];
      LeadingZeroIgnored(s[..|s| - 1]);
    } else {
      assert ("0" + s)[..0] == [];
    }
  }

  // ---------------------------------------------------------------- padStart

  /** `s.padStart(width, c)` with a one-character pad string: `c` is repeated
      in front until the text is `width` long; a longer text is unchanged. */
  function PadStart(s: string, width: nat, c: char): (r: string)
    ensures |r| == if |s| >= width then |s| else width
    ensures r[|r| - |s|..] == s
    ensures forall i :: 0 <= i < |r| - |s| ==> r[i] == c
  {
    if |s| >= width then s
    else
      var pad := seq(width - |s|, _ => c);
      assert (pad + s)[|pad|..] == s;
      pad + s
  }
}
