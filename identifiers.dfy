/** The identifiers the circuit hook builds from a millisecond timestamp:
    `${type}-${now}` for a component, `${type}-${now}-pin-${index}` for its
    pins and `wire-${now}` for a wire. The timestamp is a parameter. */
module Identifiers {

  function DigitChar(d: nat): (c: char)
    requires d < 10
    ensures '0' <= c <= '9'
  {
    ('0' as int + d) as char
  }

  /** The decimal rendering of a natural number, as a template literal
      renders it. */
  function DecimalString(n: nat): (s: string)
    ensures |s| >= 1
    ensures forall i :: 0 <= i < |s| ==> '0' <= s[i] <= '9'
    ensures n < 10 <==> |s| == 1
    decreases n
  {
    if n < 10 then [DigitChar(n)] else DecimalString(n / 10) + [DigitChar(n % 10)]
  }

  /** Different numbers render differently. */
  lemma {:induction false} DecimalStringInjective(a: nat, b: nat)
    requires DecimalString(a) == DecimalString(b)
    ensures a == b
    decreases a
  {
    var s := DecimalString(a);
    if a < 10 {
      assert b < 10;
      assert s[0] == DigitChar(a) && s[0] == DigitChar(b);
    } else {
      assert b >= 10;
      var k := |s| - 1;
      assert s[k] == DigitChar(a % 10) && s[k] == DigitChar(b % 10);
      assert DecimalString(a / 10) == s[..k] == DecimalString(b / 10);
      DecimalStringInjective(a / 10, b / 10);
    }
  }

  function ComponentIdFor(tag: string, now: nat): string
  {
    tag + "-" + DecimalString(now)
  }

  function PinIdFor(tag: string, now: nat, index: nat): string
  {
    tag + "-" + DecimalString(now) + "-pin-" + DecimalString(index)
  }

  function WireIdFor(now: nat): string
  {
    "wire-" + DecimalString(now)
  }

  /** The pins of one new component get distinct ids. */
  lemma PinIdForInjective(tag: string, now: nat, i: nat, j: nat)
    requires PinIdFor(tag, now, i) == PinIdFor(tag, now, j)
    ensures i == j
  {
    var prefix := tag + "-" + DecimalString(now) + "-pin-";
    assert PinIdFor(tag, now, i)[|prefix|..] == DecimalString(i);
    assert PinIdFor(tag, now, j)[|prefix|..] == DecimalString(j);
    DecimalStringInjective(i, j);
  }
}
