/** Zero-padded decimal text, as `{:0width}` prints it, and its order. */
module Decimal {

  function DigitChar(d: nat): (c: char)
    requires d < 10
    ensures '0' <= c <= '9'
  {
    '0' + d as char
  }

  /** `n` in decimal, padded with zeros to at least `width` places and to at least one. */
  function Padded(n: nat, width: nat): (text: string)
    ensures |text| >= 1 && |text| >= width
    decreases n, width
  {
    if n < 10 && width <= 1 then [DigitChar(n)]
    else Padded(n / 10, if width == 0 then 0 else width - 1) + [DigitChar(n % 10)]
  }

  lemma {:induction false} PaddedInjective(m: nat, n: nat, width: nat)
    requires Padded(m, width) == Padded(n, width)
    ensures m == n
    decreases m + n, width
  {
    var pm, pn := Padded(m, width), Padded(n, width);
    var w := if width == 0 then 0 else width - 1;
    assert pm[|pm| - 1] == DigitChar(m % 10) && pn[|pn| - 1] == DigitChar(n % 10);
    assert m % 10 == n % 10;
    if !(m < 10 && width <= 1) && !(n < 10 && width <= 1) {
      assert pm[..|pm| - 1] == Padded(m / 10, w) && pn[..|pn| - 1] == Padded(n / 10, w);
      PaddedInjective(m / 10, n / 10, w);
    }
  }

  function Pow10(k: nat): (n: nat)
    ensures n > 0
  {
    if k == 0 then 1 else 10 * Pow10(k - 1)
  }

  /** A number that fits is printed in exactly `width` places. */
  lemma {:induction false} PaddedWidth(n: nat, width: nat)
    requires width >= 1
    ensures n < Pow10(width) <==> |Padded(n, width)| == width
    decreases width
  {
    if width > 1 {
      PaddedWidth(n / 10, width - 1);
    } else {
      assert Pow10(1) == 10 * Pow10(0);
    }
  }

  /** Byte-wise comparison of texts, as a `TEXT` column is compared. */
  predicate Before(s: string, t: string) {
    if t == [] then false
    else if s == [] then true
    else s[0] < t[0] || (s[0] == t[0] && Before(s[1..], t[1..]))
  }

  lemma {:induction false} BeforeAppend(s: string, t: string, s': string, t': string)
    requires |s| == |t|
    ensures Before(s + s', t + t') <==> Before(s, t) || (s == t && Before(s', t'))
  {
    if s == [] {
      assert s + s' == s' && t + t' == t';
    } else {
      assert (s + s')[1..] == s[1..] + s' && (t + t')[1..] == t[1..] + t';
      BeforeAppend(s[1..], t[1..], s', t');
      assert s == [s[0]] + s[1..] && t == [t[0]] + t[1..];
    }
  }

  /** Equally wide numbers are ordered as text the way they are ordered as numbers. */
  lemma {:induction false} PaddedOrder(m: nat, n: nat, width: nat)
    requires width >= 1 && m < Pow10(width) && n < Pow10(width)
    ensures |Padded(m, width)| == |Padded(n, width)| == width
    ensures Before(Padded(m, width), Padded(n, width)) <==> m < n
    decreases width
  {
    PaddedWidth(m, width);
    PaddedWidth(n, width);
    if width == 1 {
      assert Pow10(1) == 10 * Pow10(0);
      assert Padded(m, 1) == [DigitChar(m)] && Padded(n, 1) == [DigitChar(n)];
      assert !Before(Padded(m, 1)[1..], Padded(n, 1)[1..]);
    } else {
      PaddedOrder(m / 10, n / 10, width - 1);
      var (dm, dn) := ([DigitChar(m % 10)], [DigitChar(n % 10)]);
      BeforeAppend(Padded(m / 10, width - 1), Padded(n / 10, width - 1), dm, dn);
      assert Before(dm, dn) <==> m % 10 < n % 10;
      if Padded(m / 10, width - 1) == Padded(n / 10, width - 1) {
        PaddedInjective(m / 10, n / 10, width - 1);
      }
    }
  }

  /** Padding to the width a number already has changes nothing. */
  lemma {:induction false} PaddedToItsWidth(n: nat, width: nat)
    requires width >= 1
    ensures Padded(n, |Padded(n, width)|) == Padded(n, width)
    ensures n < Pow10(|Padded(n, width)|)
    decreases n, width
  {
    var w := |Padded(n, width)|;
    if n < 10 && width <= 1 {
      assert Pow10(1) == 10 * Pow10(0);
    } else if width == 1 {
      assert Padded(n, 1) == Padded(n / 10, 0) + [DigitChar(n % 10)];
      ZeroWidth(n / 10);
      PaddedToItsWidth(n / 10, 1);
    } else {
      PaddedToItsWidth(n / 10, width - 1);
    }
  }

  lemma ZeroWidth(n: nat)
    ensures Padded(n, 0) == Padded(n, 1)
  {
  }

  /** The number a decimal text stands for. */
  function ValueOf(text: string): nat
    requires forall i :: 0 <= i < |text| ==> '0' <= text[i] <= '9'
  {
    if text == "" then 0 else 10 * ValueOf(text[..|text| - 1]) + (text[|text| - 1] - '0') as nat
  }

  /** A padded number is made of digits and stands for itself. */
  lemma {:induction false} PaddedReads(n: nat, width: nat)
    ensures forall i :: 0 <= i < |Padded(n, width)| ==> '0' <= Padded(n, width)[i] <= '9'
    ensures ValueOf(Padded(n, width)) == n
    decreases n, width
  {
    if n < 10 && width <= 1 {
      assert ValueOf("") == 0;
    } else {
      var rest := Padded(n / 10, if width == 0 then 0 else width - 1);
      PaddedReads(n / 10, if width == 0 then 0 else width - 1);
      assert Padded(n, width)[..|rest|] == rest;
    }
  }
}
