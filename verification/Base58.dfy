/**
 Base58 account ids: carry loops in both directions, over a fixed 32 bytes.
 */
module Base58 {

  import opened Words
  import opened Digits

  type u32 = n: nat | n < 0x1_0000_0000

  /** The Bitcoin alphabet, 123456789 A-H J-N P-Z a-k m-z, as its six runs. */
  function Letter(d: nat): char
    requires d < 58
  {
    if d < 9 then '1' + d as char
    else if d < 17 then 'A' + (d - 9) as char
    else if d < 22 then 'J' + (d - 17) as char
    else if d < 33 then 'P' + (d - 22) as char
    else if d < 44 then 'a' + (d - 33) as char
    else 'm' + (d - 44) as char
  }

  /** The position of a character in the alphabet. */
  function Position(c: char): (r: Option<nat>)
    ensures r.Some? ==> r.value < 58 && Letter(r.value) == c
    ensures forall d: nat :: d < 58 && Letter(d) == c ==> r == Some(d)
  {
    if '1' <= c <= '9' then Some((c - '1') as nat)
    else if 'A' <= c <= 'H' then Some(9 + (c - 'A') as nat)
    else if 'J' <= c <= 'N' then Some(17 + (c - 'J') as nat)
    else if 'P' <= c <= 'Z' then Some(22 + (c - 'P') as nat)
    else if 'a' <= c <= 'k' then Some(33 + (c - 'a') as nat)
    else if 'm' <= c <= 'z' then Some(44 + (c - 'm') as nat)
    else None
  }

  /** Each run from its first letter to its last, without 0, I, O and l. */
  lemma LettersAreTheAlphabet(d: nat)
    ensures Letter(0) == '1' && Letter(8) == '9' && Letter(9) == 'A' && Letter(16) == 'H'
    ensures Letter(17) == 'J' && Letter(21) == 'N' && Letter(22) == 'P' && Letter(32) == 'Z'
    ensures Letter(33) == 'a' && Letter(43) == 'k' && Letter(44) == 'm' && Letter(57) == 'z'
    ensures d < 57 && d !in {8, 16, 21, 32, 43} ==> Letter(d + 1) as int == Letter(d) as int + 1
    ensures d < 58 ==> Position(Letter(d)) == Some(d)
  {
  }

  predicate InAlphabet(s: string) {
    forall i :: 0 <= i < |s| ==> Position(s[i]).Some?
  }

  function Positions(s: string): (p: seq<nat>)
    requires InAlphabet(s)
    ensures |p| == |s|
    ensures forall i :: 0 <= i < |s| ==> p[i] == Position(s[i]).value
  {
    seq(|s|, i requires 0 <= i < |s| => Position(s[i]).value)
  }

  /** The number a string spells. */
  function Value(s: string): nat
    requires InAlphabet(s)
  {
    BE(58, Positions(s))
  }

  /** No superfluous top digit. */
  predicate Minimal(s: seq<nat>) {
    |s| >= 1 && (|s| == 1 || s[|s| - 1] != 0)
  }

  /** What is left of the carry after the last digit. */
  function Spill(base: nat, carry: nat): seq<nat>
    requires 2 <= base
  {
    if carry == 0 then []
    else
      DivMod(carry, base);
      [carry % base] + Spill(base, carry / base)
  }

  lemma {:induction false} SpillValue(base: nat, carry: nat)
    requires 2 <= base
    ensures Within(base, Spill(base, carry)) && LE(base, Spill(base, carry)) == carry
    ensures carry > 0 ==> Minimal(Spill(base, carry)) && Spill(base, carry)[|Spill(base, carry)| - 1] != 0
  {
    if carry > 0 {
      DivMod(carry, base);
      SpillValue(base, carry / base);
      assert Spill(base, carry)[1..] == Spill(base, carry / base);
    }
  }

  /** Dividing a positive number by two or more makes it smaller. */
  lemma QuotientShrinks(n: nat, base: nat, q: nat, r: nat)
    requires 2 <= base && n == base * q + r && n > 0
    ensures q < n
  {
    if q > 0 {
      assert base * q >= 2 * q;
    }
  }

  lemma DivMod(n: nat, base: nat)
    requires 2 <= base
    ensures n % base + base * (n / base) == n
    ensures n > 0 ==> n / base < n
  {
    if n > 0 {
      QuotientShrinks(n, base, n / base, n % base);
    }
  }

  lemma Shift(out: seq<nat>, d: nat, rest: seq<nat>)
    ensures out + ([d] + rest) == (out + [d]) + rest
  {
  }

  lemma SpillStep(base: nat, carry: nat, out: seq<nat>)
    requires 2 <= base && carry > 0
    ensures carry / base < carry
    ensures out + Spill(base, carry) == (out + [carry % base]) + Spill(base, carry / base)
  {
    DivMod(carry, base);
    Shift(out, carry % base, Spill(base, carry / base));
  }

  lemma {:induction false} NonzeroTop(base: nat, s: seq<nat>)
    requires 2 <= base && s != [] && s[|s| - 1] != 0
    ensures LE(base, s) > 0
  {
    if |s| > 1 {
      NonzeroTop(base, s[1..]);
    }
  }

  /** A little-endian base-256 numeral times 58, plus a carry. */
  function Times58(digits: seq<nat>, carry: nat): seq<nat>
    requires carry < 58 && Within(256, digits)
  {
    if digits == [] then Spill(256, carry)
    else
      var sum := carry + digits[0] * 58;
      [sum % 256] + Times58(digits[1..], sum / 256)
  }

  lemma Times58Step(digits: seq<nat>, k: nat, carry: nat, spec: seq<nat>)
    requires k < |digits| && carry < 58 && Within(256, digits)
    requires k <= |spec| && spec[k..] == Times58(digits[k..], carry)
    ensures var sum := carry + digits[k] * 58;
      && sum / 256 < 58 && k < |spec| && spec[k] == sum % 256
      && spec[k + 1..] == Times58(digits[k + 1..], sum / 256)
  {
    assert digits[k..][1..] == digits[k + 1..];
    assert spec[k] == spec[k..][0] && spec[k + 1..] == spec[k..][1..];
  }

  lemma {:induction false} Times58Value(digits: seq<nat>, carry: nat)
    requires carry < 58 && Within(256, digits)
    ensures Within(256, Times58(digits, carry))
    ensures LE(256, Times58(digits, carry)) == LE(256, digits) * 58 + carry
    ensures Minimal(digits) ==> Minimal(Times58(digits, carry))
  {
    if digits != [] {
      var high := (carry + digits[0] * 58) / 256;
      Times58Value(digits[1..], high);
      assert Times58(digits, carry)[1..] == Times58(digits[1..], high);
      if |digits| > 1 && Minimal(digits) {
        NonzeroTop(256, digits[1..]);
      }
      if |digits| == 1 {
        SpillValue(256, high);
      }
    } else {
      SpillValue(256, carry);
    }
  }

  /** The inner loops of `decode32`; the accumulator is a 32-bit word throughout. */
  method MulAddBytes(digits: seq<nat>, add: nat) returns (out: seq<nat>)
    requires add < 58 && Within(256, digits)
    ensures out == Times58(digits, add)
  {
    ghost var spec := Times58(digits, add);
    out := digits;
    var carry: u32 := add;
    for k := 0 to |digits|
      invariant |out| == |digits| && carry < 58 && k <= |spec|
      invariant forall j :: k <= j < |digits| ==> out[j] == digits[j]
      invariant forall j :: 0 <= j < k ==> out[j] == spec[j]
      invariant Times58(digits[k..], carry) == spec[k..]
    {
      Times58Step(digits, k, carry, spec);
      carry := carry + out[k] * 58;
      out := out[k := carry % 256];
      carry := carry / 256;
    }
    assert out == spec[..|digits|];
    while carry > 0
      invariant out + Spill(256, carry) == spec
    {
      SpillStep(256, carry, out);
      out := out + [carry % 256];
      carry := carry / 256;
    }
  }

  /** A little-endian base-58 numeral times 256, plus a carry. */
  function Times256(digits: seq<nat>, carry: nat): seq<nat>
    requires carry < 256 && Within(58, digits)
  {
    if digits == [] then Spill(58, carry)
    else
      var sum := carry + digits[0] * 256;
      [sum % 58] + Times256(digits[1..], sum / 58)
  }

  lemma Times256Step(digits: seq<nat>, k: nat, carry: nat, spec: seq<nat>)
    requires k < |digits| && carry < 256 && Within(58, digits)
    requires k <= |spec| && spec[k..] == Times256(digits[k..], carry)
    ensures var sum := carry + digits[k] * 256;
      && sum / 58 < 256 && k < |spec| && spec[k] == sum % 58
      && spec[k + 1..] == Times256(digits[k + 1..], sum / 58)
  {
    assert digits[k..][1..] == digits[k + 1..];
    assert spec[k] == spec[k..][0] && spec[k + 1..] == spec[k..][1..];
  }

  lemma {:induction false} Times256Value(digits: seq<nat>, carry: nat)
    requires carry < 256 && Within(58, digits)
    ensures Within(58, Times256(digits, carry))
    ensures LE(58, Times256(digits, carry)) == LE(58, digits) * 256 + carry
    ensures Minimal(digits) ==> Minimal(Times256(digits, carry))
  {
    if digits != [] {
      var high := (carry + digits[0] * 256) / 58;
      Times256Value(digits[1..], high);
      assert Times256(digits, carry)[1..] == Times256(digits[1..], high);
      if |digits| > 1 && Minimal(digits) {
        NonzeroTop(58, digits[1..]);
      }
      if |digits| == 1 {
        SpillValue(58, high);
      }
    } else {
      SpillValue(58, carry);
    }
  }

  /** The inner loops of `encode32`. */
  method MulAddDigits(digits: seq<nat>, add: nat) returns (out: seq<nat>)
    requires add < 256 && Within(58, digits)
    ensures out == Times256(digits, add)
  {
    ghost var spec := Times256(digits, add);
    out := digits;
    var carry: u32 := add;
    for k := 0 to |digits|
      invariant |out| == |digits| && carry < 256 && k <= |spec|
      invariant forall j :: k <= j < |digits| ==> out[j] == digits[j]
      invariant forall j :: 0 <= j < k ==> out[j] == spec[j]
      invariant Times256(digits[k..], carry) == spec[k..]
    {
      Times256Step(digits, k, carry, spec);
      carry := carry + out[k] * 256;
      out := out[k := carry % 58];
      carry := carry / 58;
    }
    assert out == spec[..|digits|];
    while carry > 0
      invariant out + Spill(58, carry) == spec
    {
      SpillStep(58, carry, out);
      out := out + [carry % 58];
      carry := carry / 58;
    }
  }

  // ------------------------------------------------------------------ decode

  /** The outer loop of `decode32`: the input's number in little-endian bytes, unless a character is foreign. */
  method Accumulate(input: string) returns (r: Option<seq<nat>>)
    ensures r.Some? <==> InAlphabet(input)
    ensures r.Some? ==> Within(256, r.value) && |r.value| >= 1 && LE(256, r.value) == Value(input)
  {
    var bytes := [0];
    for i := 0 to |input|
      invariant InAlphabet(input[..i]) && Within(256, bytes) && |bytes| >= 1
      invariant LE(256, bytes) == Value(input[..i])
    {
      var p := Position(input[i]);
      if p.None? {
        return None;
      }
      Times58Value(bytes, p.value);
      assert Positions(input[..i + 1])[..i] == Positions(input[..i]);
      bytes := MulAddBytes(bytes, p.value);
    }
    assert input[..|input|] == input;
    return Some(bytes);
  }

  /** A string of the alphabet decodes exactly when its number fits 32 bytes, to those bytes. */
  method Decode32(input: string) returns (r: Option<seq<nat>>)
    ensures r.Some? <==> InAlphabet(input) && Value(input) < Pow(256, 32)
    ensures r.Some? ==> |r.value| == 32 && Within(256, r.value) && BE(256, r.value) == Value(input)
  {
    var numeral := Accumulate(input);
    if numeral.None? {
      return None;
    }
    var bytes := numeral.value;
    var k := 0;
    while k < |input| && input[k] == '1'
      invariant Within(256, bytes) && |bytes| >= 1 && LE(256, bytes) == Value(input)
    {
      TrailingZeroLE(256, bytes);
      bytes := bytes + [0];
      k := k + 1;
    }
    r := LayOut(bytes);
  }

  /** Drop zeros beyond 32 bytes, reverse, and left-pad what fits. */
  method LayOut(numeral: seq<nat>) returns (r: Option<seq<nat>>)
    requires Within(256, numeral) && |numeral| >= 1
    ensures r.Some? <==> LE(256, numeral) < Pow(256, 32)
    ensures r.Some? ==> |r.value| == 32 && Within(256, r.value) && BE(256, r.value) == LE(256, numeral)
  {
    var bytes := numeral;
    while |bytes| > 1 && bytes[|bytes| - 1] == 0 && |bytes| > 32
      invariant Within(256, bytes) && |bytes| >= 1 && LE(256, bytes) == LE(256, numeral)
    {
      assert bytes == bytes[..|bytes| - 1] + [0];
      TrailingZeroLE(256, bytes[..|bytes| - 1]);
      bytes := bytes[..|bytes| - 1];
    }
    FitsIff(bytes);
    if |bytes| > 32 {
      return None;
    }
    ReverseLE(256, bytes);
    LeadingZeros(256, 32 - |bytes|, Reverse(bytes));
    return Some(seq(32 - |bytes|, _ => 0) + Reverse(bytes));
  }

  /** Once trimmed, too long means too big. */
  lemma FitsIff(bytes: seq<nat>)
    requires Within(256, bytes) && bytes != []
    requires |bytes| > 32 ==> bytes[|bytes| - 1] != 0
    ensures |bytes| <= 32 <==> LE(256, bytes) < Pow(256, 32)
  {
    if |bytes| <= 32 {
      BoundLE(256, bytes);
      PowGrows(256, |bytes|, 32);
    } else {
      TopHeavyLE(256, bytes);
      PowGrows(256, 32, |bytes| - 1);
    }
  }

  // ------------------------------------------------------------------ encode

  function ZeroPrefix(s: seq<nat>): (z: nat)
    ensures z <= |s| && (forall i :: 0 <= i < z ==> s[i] == 0) && (z < |s| ==> s[z] != 0)
  {
    if s == [] || s[0] != 0 then 0 else 1 + ZeroPrefix(s[1..])
  }

  /** The outer loop of `encode32`. */
  method ToDigits(input: seq<nat>) returns (digits: seq<nat>)
    requires Within(256, input)
    ensures Within(58, digits) && Minimal(digits) && LE(58, digits) == BE(256, input)
  {
    digits := [0];
    for i := 0 to |input|
      invariant Within(58, digits) && Minimal(digits)
      invariant LE(58, digits) == BE(256, input[..i])
    {
      assert input[..i + 1][..i] == input[..i];
      Times256Value(digits, input[i]);
      digits := MulAddDigits(digits, input[i]);
    }
    assert input[..|input|] == input;
  }

  /** A '1' for every leading zero byte, then the number's digits without a superfluous first one. */
  method Encode32(input: seq<nat>) returns (out: string)
    requires |input| == 32 && Within(256, input)
    ensures InAlphabet(out) && Value(out) == BE(256, input)
    ensures var z := ZeroPrefix(input);
      && |out| > z && (forall i :: 0 <= i < z ==> out[i] == '1')
      && (out[z] == '1' ==> |out| == z + 1)
  {
    var digits := ToDigits(input);
    var ones := LeadingOnes(input);
    var letters := Spell(digits);
    SpelledValue(ones, letters, digits);
    out := ones + letters;
    assert forall i :: 0 <= i < |ones| ==> out[i] == ones[i] && ones[i] in ones;
    assert out[|ones|] == letters[0] && Position(letters[0]) == Some(digits[|digits| - 1]);
  }

  method LeadingOnes(input: seq<nat>) returns (ones: string)
    ensures |ones| == ZeroPrefix(input) && forall c <- ones :: c == '1'
  {
    ones := "";
    var k := 0;
    while k < |input| && input[k] == 0
      invariant 0 <= k <= |input| && |ones| == k && forall c <- ones :: c == '1'
      invariant forall i :: 0 <= i < k ==> input[i] == 0
    {
      ones := ones + "1";
      k := k + 1;
    }
  }

  lemma SpelledValue(ones: string, letters: string, digits: seq<nat>)
    requires forall c <- ones :: c == '1'
    requires InAlphabet(letters) && Positions(letters) == Reverse(digits)
    ensures InAlphabet(ones + letters) && Value(ones + letters) == LE(58, digits)
  {
    var s := ones + letters;
    forall i | 0 <= i < |s|
      ensures Position(s[i]) == Some(if i < |ones| then 0 else Positions(letters)[i - |ones|])
    {
      if i < |ones| {
        assert s[i] in ones;
      }
    }
    assert Positions(s) == seq(|ones|, _ => 0) + Reverse(digits);
    LeadingZeros(58, |ones|, Reverse(digits));
    ReverseLE(58, digits);
  }

  /** The digits as characters, most significant first. */
  method Spell(digits: seq<nat>) returns (out: string)
    requires Within(58, digits)
    ensures |out| == |digits| && InAlphabet(out)
    ensures Positions(out) == Reverse(digits)
    ensures forall i :: 0 <= i < |out| ==> Position(out[i]) == Some(digits[|digits| - 1 - i])
  {
    out := "";
    for i := 0 to |digits|
      invariant |out| == i
      invariant forall j :: 0 <= j < i ==> Position(out[j]) == Some(digits[|digits| - 1 - j])
    {
      out := out + [Letter(digits[|digits| - 1 - i])];
    }
  }

  /** Encoding then decoding gives back every 32-byte value, leading zeros included. */
  method RoundTrip(b: seq<nat>) returns (r: Option<seq<nat>>)
    requires |b| == 32 && Within(256, b)
    ensures r == Some(b)
  {
    var s := Encode32(b);
    r := Decode32(s);
    ReverseLE(256, Reverse(b));
    assert Reverse(Reverse(b)) == b;
    BoundLE(256, Reverse(b));
    UniqueBE(256, r.value, b);
  }
}
