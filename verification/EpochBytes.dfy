/**
 The wire's `epoch[32]`: a 64-bit index, little-endian, in 32 bytes whose rest must be zero.
 */
module EpochBytes {

  import opened Words
  import opened Digits

  function EpochToBytes(epoch: u64): (b: seq<nat>)
    ensures |b| == 32 && Within(256, b)
  {
    Reverse(Bytes(epoch, 8)) + seq(24, _ => 0)
  }

  function EpochFromBytes(b: seq<nat>): Option<nat>
    requires |b| == 32 && Within(256, b)
  {
    if exists i :: 8 <= i < 32 && b[i] != 0 then None else Some(LE(256, b[..8]))
  }

  lemma EpochRoundTrip(epoch: u64)
    ensures EpochFromBytes(EpochToBytes(epoch)) == Some(epoch)
  {
    var low := Bytes(epoch, 8);
    Pow256();
    BytesValue(epoch, 8);
    assert EpochToBytes(epoch)[..8] == Reverse(low);
    assert Reverse(Reverse(low)) == low;
    ReverseLE(256, Reverse(low));
  }

  /** The wire order: least significant byte first, and nothing after the eighth. */
  lemma EpochLayout(epoch: u64)
    ensures var b := EpochToBytes(epoch);
      && LE(256, b[..8]) == epoch && b[0] == epoch % 256
      && forall i :: 8 <= i < 32 ==> b[i] == 0
  {
    var low := Bytes(epoch, 8);
    Pow256();
    BytesValue(epoch, 8);
    assert EpochToBytes(epoch)[..8] == Reverse(low);
    assert Reverse(Reverse(low)) == low;
    ReverseLE(256, Reverse(low));
    assert low == Bytes(epoch / 256, 7) + [epoch % 256];
  }

  /** The low eight bytes are the encoding of the number they spell. */
  lemma LowBytes(low: seq<nat>)
    requires |low| == 8 && Within(256, low)
    ensures LE(256, low) <= U64_MAX && low == Reverse(Bytes(LE(256, low), 8))
  {
    var n := LE(256, low);
    Pow256();
    BoundLE(256, low);
    ReverseLE(256, low);
    BytesValue(n, 8);
    UniqueBE(256, Reverse(low), Bytes(n, 8));
    ReverseTwice(low);
  }

  lemma ReverseTwice(s: seq<nat>)
    ensures Reverse(Reverse(s)) == s
  {
  }

  /** Bytes that decode are the encoding of what they decode to. */
  lemma EpochDecodeIsCanonical(b: seq<nat>)
    requires |b| == 32 && Within(256, b) && EpochFromBytes(b).Some?
    ensures EpochFromBytes(b).value <= U64_MAX && b == EpochToBytes(EpochFromBytes(b).value)
  {
    LowBytes(b[..8]);
    assert b[8..] == seq(24, _ => 0);
    assert b == b[..8] + b[8..];
  }

  /** Every epoch has one accepted encoding, and every accepted encoding is that of its epoch. */
  lemma EpochEncodingIsABijection(epoch: u64, b: seq<nat>)
    requires |b| == 32 && Within(256, b)
    ensures EpochFromBytes(b) == Some(epoch) <==> b == EpochToBytes(epoch)
  {
    EpochRoundTrip(epoch);
    if EpochFromBytes(b).Some? {
      EpochDecodeIsCanonical(b);
    }
  }
}
