/**
 Positional numerals, in both byte orders.
 */
module Digits {

  function Pow(base: nat, n: nat): nat {
    if n == 0 then 1 else base * Pow(base, n - 1)
  }

  /** Little-endian value. */
  function LE(base: nat, s: seq<nat>): nat {
    if s == [] then 0 else s[0] + base * LE(base, s[1..])
  }

  /** Big-endian value. */
  function BE(base: nat, s: seq<nat>): nat {
    if s == [] then 0 else BE(base, s[..|s| - 1]) * base + s[|s| - 1]
  }

  ghost predicate Within(base: nat, s: seq<nat>) {
    forall i :: 0 <= i < |s| ==> s[i] < base
  }

  /** Equal lengths and values mean equal digits. */
  lemma {:induction false} UniqueBE(base: nat, s: seq<nat>, t: seq<nat>)
    requires |s| == |t| && Within(base, s) && Within(base, t) && BE(base, s) == BE(base, t)
    ensures s == t
  {
    if s != [] {
      var n := |s| - 1;
      Quotient(base, BE(base, s[..n]), s[n], BE(base, t[..n]), t[n]);
      UniqueBE(base, s[..n], t[..n]);
      assert s == s[..n] + [s[n]] && t == t[..n] + [t[n]];
    }
  }

  lemma {:induction false} StrictlyBelow(x: nat, y: nat, base: nat)
    requires x < y
    ensures x * base + base <= y * base
  {
    assert y * base == (y - 1) * base + base;
    if x + 1 < y {
      StrictlyBelow(x, y - 1, base);
    }
  }

  lemma Quotient(base: nat, x: nat, d: nat, y: nat, e: nat)
    requires d < base && e < base && x * base + d == y * base + e
    ensures x == y && d == e
  {
    if x < y {
      StrictlyBelow(x, y, base);
    } else if y < x {
      StrictlyBelow(y, x, base);
    }
  }

  lemma {:induction false} BoundLE(base: nat, s: seq<nat>)
    requires Within(base, s)
    ensures LE(base, s) < Pow(base, |s|)
  {
    if s != [] {
      BoundLE(base, s[1..]);
      StrictlyBelow(LE(base, s[1..]), Pow(base, |s| - 1), base);
    }
  }

  /** A nonzero top digit puts the value at or above its own power. */
  lemma {:induction false} TopHeavyLE(base: nat, s: seq<nat>)
    requires s != [] && s[|s| - 1] != 0
    ensures LE(base, s) >= Pow(base, |s| - 1)
  {
    if |s| > 1 {
      TopHeavyLE(base, s[1..]);
      Scaled(Pow(base, |s| - 2), LE(base, s[1..]), base);
    }
  }

  lemma Scaled(x: nat, y: nat, base: nat)
    requires x <= y
    ensures x * base <= y * base
  {
    if x < y {
      StrictlyBelow(x, y, base);
    }
  }

  lemma {:induction false} PowGrows(base: nat, m: nat, n: nat)
    requires base >= 1 && m <= n
    ensures 1 <= Pow(base, m) <= Pow(base, n)
    decreases n
  {
    if m < n {
      PowGrows(base, m, n - 1);
      Scaled(1, base, Pow(base, n - 1));
    } else if m > 0 {
      PowGrows(base, m - 1, n - 1);
      Scaled(1, base, Pow(base, n - 1));
    }
  }

  lemma {:induction false} TrailingZeroLE(base: nat, s: seq<nat>)
    ensures LE(base, s + [0]) == LE(base, s)
  {
    if s == [] {
      assert s + [0] == [0] && [0][1..] == [];
    } else {
      TrailingZeroLE(base, s[1..]);
      assert (s + [0])[1..] == s[1..] + [0];
    }
  }

  function Reverse<T>(s: seq<T>): (r: seq<T>)
    ensures |r| == |s|
    ensures forall i :: 0 <= i < |s| ==> r[i] == s[|s| - 1 - i]
  {
    if s == [] then [] else Reverse(s[1..]) + [s[0]]
  }

  lemma {:induction false} ReverseLE(base: nat, s: seq<nat>)
    ensures BE(base, Reverse(s)) == LE(base, s)
  {
    if s != [] {
      ReverseLE(base, s[1..]);
      assert Reverse(s)[..|s| - 1] == Reverse(s[1..]);
    }
  }

  /** Leading zeros of a big-endian numeral count for nothing. */
  lemma {:induction false} LeadingZeros(base: nat, n: nat, s: seq<nat>)
    ensures BE(base, seq(n, _ => 0) + s) == BE(base, s)
  {
    var z := seq(n, _ => 0);
    if s != [] {
      LeadingZeros(base, n, s[..|s| - 1]);
      assert (z + s)[..|z + s| - 1] == z + s[..|s| - 1];
    } else if n > 0 {
      LeadingZeros(base, n - 1, s);
      assert (z + s)[..n - 1] == seq(n - 1, _ => 0) + s;
    }
  }

  /** The low `width` base-256 digits of `n`, most significant first: a `to_be_bytes` of a truncated `n`. */
  function Bytes(n: nat, width: nat): (s: seq<nat>)
    ensures |s| == width && Within(256, s)
  {
    if width == 0 then [] else Bytes(n / 256, width - 1) + [n % 256]
  }

  lemma {:induction false} BytesValue(n: nat, width: nat)
    requires n < Pow(256, width)
    ensures BE(256, Bytes(n, width)) == n
  {
    if width > 0 {
      BytesValue(n / 256, width - 1);
      assert Bytes(n, width)[..width - 1] == Bytes(n / 256, width - 1);
    }
  }

  lemma BytesInjective(m: nat, n: nat, width: nat)
    requires m < Pow(256, width) && n < Pow(256, width) && Bytes(m, width) == Bytes(n, width)
    ensures m == n
  {
    BytesValue(m, width);
    BytesValue(n, width);
  }

  lemma Pow256()
    ensures Pow(256, 4) == 0x1_0000_0000
    ensures Pow(256, 8) == 0x1_0000_0000_0000_0000
  {
    assert Pow(256, 2) == 65536;
    assert Pow(256, 4) == 256 * (256 * Pow(256, 2));
    assert Pow(256, 6) == 256 * (256 * Pow(256, 4));
    assert Pow(256, 8) == 256 * (256 * Pow(256, 6));
  }
}
