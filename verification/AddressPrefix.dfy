/**
 * The first and last address of a prefix, computed byte by byte on the
 * sixteen-byte form and proved to be the ends of the prefix's block.
 */
module AddressPrefix {
  import opened Types

  type Byte = x: int | 0 <= x < 0x100

  lemma {:induction false} Pow2Adds(a: nat, b: nat)
    ensures Pow2(a + b) == Pow2(a) * Pow2(b)
    decreases a
  {
    if a > 0 {
      Pow2Adds(a - 1, b);
      assert Pow2(a + b) == 2 * Pow2(a + b - 1);
    }
  }

  /** The number a big-endian byte string denotes. */
  function Value(bs: seq<Byte>): nat {
    if bs == [] then 0 else Value(bs[..|bs| - 1]) * 0x100 + bs[|bs| - 1]
  }

  /** A number with its low `n` bits cleared. */
  function Cleared(b: nat, n: nat): nat {
    if n == 0 then b else 2 * Cleared(b / 2, n - 1)
  }

  /** A number with its low `n` bits set. */
  function Filled(b: nat, n: nat): nat {
    if n == 0 then b else 2 * Filled(b / 2, n - 1) + 1
  }

  /** What clearing and setting `n` bits do to a number of at most `k` bits. */
  lemma {:induction false} LowBits(b: nat, n: nat, k: nat)
    requires n <= k && b < Pow2(k)
    ensures Cleared(b, n) <= b < Cleared(b, n) + Pow2(n)
    ensures Filled(b, n) == Cleared(b, n) + Pow2(n) - 1 < Pow2(k)
    ensures n == k ==> Cleared(b, n) == 0
    decreases n
  {
    if n > 0 {
      LowBits(b / 2, n - 1, k - 1);
    }
  }

  lemma {:induction false} ClearTwice(b: nat, n: nat)
    ensures Cleared(Cleared(b, n), n) == Cleared(b, n)
    decreases n
  {
    if n > 0 {
      ClearTwice(b / 2, n - 1);
    }
  }

  lemma EightBits()
    ensures Pow2(8) == 0x100
  {
    assert Pow2(3) == 2 * Pow2(2);
    assert Pow2(5) == 2 * Pow2(4);
    assert Pow2(7) == 2 * Pow2(6);
  }

  lemma ByteBits(b: Byte, n: nat)
    requires n <= 8
    ensures Cleared(b, n) <= b < Cleared(b, n) + Pow2(n)
    ensures Filled(b, n) == Cleared(b, n) + Pow2(n) - 1 < 0x100
    ensures n == 8 ==> Cleared(b, n) == 0
  {
    EightBits();
    LowBits(b, n, 8);
  }

  function ClearedByte(b: Byte, n: nat): Byte
    requires n <= 8
  {
    ByteBits(b, n);
    Cleared(b, n)
  }

  /** A byte with its low `n` bits set. */
  function FilledByte(b: Byte, n: nat): Byte
    requires n <= 8
  {
    ByteBits(b, n);
    Filled(b, n)
  }

  /** The host bits left for the bytes before the last one. */
  function Before(hostBits: nat): nat {
    if hostBits >= 8 then hostBits - 8 else 0
  }

  /** The host bits that fall into the last byte. */
  function InLast(hostBits: nat): nat {
    if hostBits >= 8 then 8 else hostBits
  }

  /** An address with its host bits cleared. */
  function Masked(bs: seq<Byte>, hostBits: nat): (r: seq<Byte>)
    ensures |r| == |bs|
  {
    if bs == [] then []
    else Masked(bs[..|bs| - 1], Before(hostBits)) + [ClearedByte(bs[|bs| - 1], InLast(hostBits))]
  }

  /** An address with its host bits set. */
  function Flooded(bs: seq<Byte>, hostBits: nat): (r: seq<Byte>)
    ensures |r| == |bs|
  {
    if bs == [] then []
    else Flooded(bs[..|bs| - 1], Before(hostBits)) + [FilledByte(bs[|bs| - 1], InLast(hostBits))]
  }

  lemma ValueOfSnoc(bs: seq<Byte>, b: Byte)
    ensures Value(bs + [b]) == Value(bs) * 0x100 + b
  {
    assert (bs + [b])[..|bs|] == bs;
  }

  lemma PowerOfHost(hostBits: nat)
    ensures Pow2(hostBits) == Pow2(Before(hostBits)) * Pow2(InLast(hostBits))
    ensures hostBits >= 8 ==> Pow2(InLast(hostBits)) == 0x100
    ensures hostBits < 8 ==> Pow2(Before(hostBits)) == 1
  {
    EightBits();
    if hostBits >= 8 {
      Pow2Adds(hostBits - 8, 8);
    }
  }

  lemma LastArithmetic(flooded: nat, masked: nat, before: nat, filled: nat, cleared: nat, inLast: nat, all: nat)
    requires flooded == masked + before - 1 && filled == cleared + inLast - 1 && all == before * inLast
    requires before == 1 || inLast == 0x100
    ensures flooded * 0x100 + filled == masked * 0x100 + cleared + all - 1
  {
  }

  /** The last address is the network address plus all host addresses but one. */
  lemma {:induction false} FloodedIsLast(bs: seq<Byte>, hostBits: nat)
    requires hostBits <= 8 * |bs|
    ensures Value(Flooded(bs, hostBits)) == Value(Masked(bs, hostBits)) + Pow2(hostBits) - 1
    decreases |bs|
  {
    if bs != [] {
      var init, last := bs[..|bs| - 1], bs[|bs| - 1];
      FloodedIsLast(init, Before(hostBits));
      ValueOfSnoc(Flooded(init, Before(hostBits)), FilledByte(last, InLast(hostBits)));
      ValueOfSnoc(Masked(init, Before(hostBits)), ClearedByte(last, InLast(hostBits)));
      PowerOfHost(hostBits);
      ByteBits(last, InLast(hostBits));
      LastArithmetic(Value(Flooded(init, Before(hostBits))), Value(Masked(init, Before(hostBits))),
                     Pow2(Before(hostBits)), FilledByte(last, InLast(hostBits)), ClearedByte(last, InLast(hostBits)),
                     Pow2(InLast(hostBits)), Pow2(hostBits));
    }
  }

  lemma BelowArithmetic(value: nat, masked: nat, before: nat, b: nat, cleared: nat, inLast: nat, all: nat)
    requires masked <= value < masked + before && cleared <= b < cleared + inLast && all == before * inLast
    requires before == 1 || (inLast == 0x100 && cleared == 0)
    ensures masked * 0x100 + cleared <= value * 0x100 + b < masked * 0x100 + cleared + all
  {
  }

  /** The prefix's block holds the address it was written with. */
  lemma {:induction false} MaskedIsBelow(bs: seq<Byte>, hostBits: nat)
    requires hostBits <= 8 * |bs|
    ensures Value(Masked(bs, hostBits)) <= Value(bs) < Value(Masked(bs, hostBits)) + Pow2(hostBits)
    decreases |bs|
  {
    if bs != [] {
      var init, last := bs[..|bs| - 1], bs[|bs| - 1];
      MaskedIsBelow(init, Before(hostBits));
      assert bs == init + [last];
      ValueOfSnoc(init, last);
      ValueOfSnoc(Masked(init, Before(hostBits)), ClearedByte(last, InLast(hostBits)));
      PowerOfHost(hostBits);
      ByteBits(last, InLast(hostBits));
      BelowArithmetic(Value(init), Value(Masked(init, Before(hostBits))), Pow2(Before(hostBits)),
                      last, ClearedByte(last, InLast(hostBits)), Pow2(InLast(hostBits)), Pow2(hostBits));
    }
  }

  lemma {:induction false} MaskingTwice(bs: seq<Byte>, hostBits: nat)
    ensures Masked(Masked(bs, hostBits), hostBits) == Masked(bs, hostBits)
    decreases |bs|
  {
    if bs != [] {
      var init, last := bs[..|bs| - 1], bs[|bs| - 1];
      MaskingTwice(init, Before(hostBits));
      ClearTwice(last, InLast(hostBits));
      MaskedOfSnoc(Masked(init, Before(hostBits)), ClearedByte(last, InLast(hostBits)), hostBits);
    }
  }

  lemma MaskedOfSnoc(bs: seq<Byte>, b: Byte, hostBits: nat)
    ensures Masked(bs + [b], hostBits) == Masked(bs, Before(hostBits)) + [ClearedByte(b, InLast(hostBits))]
  {
    assert (bs + [b])[..|bs|] == bs;
  }

  lemma {:induction false} ClearedIsMultiple(b: nat, n: nat) returns (k: nat)
    ensures Cleared(b, n) == k * Pow2(n)
    decreases n
  {
    if n == 0 {
      k := b;
    } else {
      k := ClearedIsMultiple(b / 2, n - 1);
    }
  }

  lemma LowArithmetic(k: nat, above: nat, c: nat, size: nat)
    requires above * size == 0x100
    ensures k * 0x100 + c * size == (k * above + c) * size
  {
    assert k * 0x100 == k * (above * size) == (k * above) * size;
  }

  lemma HighArithmetic(k: nat, before: nat, all: nat)
    requires all == before * 0x100
    ensures k * before * 0x100 == k * all
  {
  }

  lemma NextByte(masked: nat, k: nat, cleared: nat, c: nat, hostBits: nat) returns (k': nat)
    requires masked == k * Pow2(Before(hostBits)) && cleared == c * Pow2(InLast(hostBits))
    requires (hostBits >= 8 ==> cleared == 0)
    ensures masked * 0x100 + cleared == k' * Pow2(hostBits)
  {
    PowerOfHost(hostBits);
    if hostBits < 8 {
      EightBits();
      Pow2Adds(8 - hostBits, hostBits);
      k' := k * Pow2(8 - hostBits) + c;
      LowArithmetic(k, Pow2(8 - hostBits), c, Pow2(hostBits));
    } else {
      k' := k;
      HighArithmetic(k, Pow2(Before(hostBits)), Pow2(hostBits));
    }
  }

  /** The network address lies on a multiple of the block's size. */
  lemma {:induction false} MaskedIsMultiple(bs: seq<Byte>, hostBits: nat) returns (k: nat)
    requires hostBits <= 8 * |bs|
    ensures Value(Masked(bs, hostBits)) == k * Pow2(hostBits)
    decreases |bs|
  {
    if bs == [] {
      k := 0;
    } else {
      var init, last := bs[..|bs| - 1], bs[|bs| - 1];
      var k' := MaskedIsMultiple(init, Before(hostBits));
      var c := ClearedIsMultiple(last, InLast(hostBits));
      ValueOfSnoc(Masked(init, Before(hostBits)), ClearedByte(last, InLast(hostBits)));
      ByteBits(last, InLast(hostBits));
      k := NextByte(Value(Masked(init, Before(hostBits))), k', ClearedByte(last, InLast(hostBits)), c, hostBits);
    }
  }

  lemma NextMultiple(a: nat, b: nat, size: nat)
    ensures a < b ==> a * size + size <= b * size
  {
    if a < b {
      assert (a + 1) * size <= b * size;
    }
  }

  lemma MultipleBelow(value: nat, k: nat, size: nat)
    requires size > 0 && k * size <= value < k * size + size
    ensures k == value / size
  {
    var q := value / size;
    assert q * size <= value < q * size + size;
    NextMultiple(k, q, size);
    NextMultiple(q, k, size);
  }

  /** Clearing the host bits rounds the address down to a multiple of 2^hostBits. */
  lemma MaskedRoundsDown(bs: seq<Byte>, hostBits: nat)
    requires hostBits <= 8 * |bs|
    ensures Value(Masked(bs, hostBits)) == Value(bs) / Pow2(hostBits) * Pow2(hostBits)
  {
    var k := MaskedIsMultiple(bs, hostBits);
    MaskedIsBelow(bs, hostBits);
    MultipleBelow(Value(bs), k, Pow2(hostBits));
  }

  /** A prefix is the block of 2^hostBits addresses from its network address on, the written address among them. */
  lemma PrefixEnds(bs: seq<Byte>, hostBits: nat)
    requires hostBits <= 8 * |bs|
    ensures Value(Flooded(Masked(bs, hostBits), hostBits)) == Value(Masked(bs, hostBits)) + Pow2(hostBits) - 1
    ensures Value(Masked(bs, hostBits)) <= Value(bs) < Value(Masked(bs, hostBits)) + Pow2(hostBits)
  {
    MaskingTwice(bs, hostBits);
    FloodedIsLast(Masked(bs, hostBits), hostBits);
    MaskedIsBelow(bs, hostBits);
  }

  lemma PowerSizes(n: nat)
    ensures if n == 0 then Pow2(n) == 1 else if n == 1 then Pow2(n) == 2 else Pow2(n) >= 4
  {
    if n >= 2 {
      assert Pow2(n) == 2 * Pow2(n - 1) == 4 * Pow2(n - 2);
    }
  }

  // ---- In place ------------------------------------------------------------

  /** How many of the low bits of the byte at distance `k` from the end are host bits. */
  function HostBitsAt(hostBits: nat, k: nat): nat {
    if hostBits <= 8 * k then 0 else if hostBits - 8 * k >= 8 then 8 else hostBits - 8 * k
  }

  lemma {:induction false} FloodedAt(bs: seq<Byte>, hostBits: nat, j: nat)
    requires j < |bs|
    ensures Flooded(bs, hostBits)[j] == FilledByte(bs[j], HostBitsAt(hostBits, |bs| - 1 - j))
    decreases |bs|
  {
    if j < |bs| - 1 {
      FloodedAt(bs[..|bs| - 1], Before(hostBits), j);
    }
  }

  /** Sets the host bits of the address in place, from the last byte up. */
  method LastAddr(bs: array<Byte>, hostBits: nat)
    requires hostBits <= 8 * bs.Length
    modifies bs
    ensures bs[..] == Flooded(old(bs[..]), hostBits)
  {
    ghost var was := bs[..];
    var left := hostBits;
    var i := bs.Length;
    while left > 0
      invariant 0 <= i <= bs.Length
      invariant left == if hostBits <= 8 * (bs.Length - i) then 0 else hostBits - 8 * (bs.Length - i)
      invariant forall j :: i <= j < bs.Length ==> bs[j] == FilledByte(was[j], HostBitsAt(hostBits, bs.Length - 1 - j))
      invariant forall j :: 0 <= j < i ==> bs[j] == was[j]
    {
      i := i - 1;
      var flip := if left > 8 then 8 else left;
      bs[i] := FilledByte(bs[i], flip);
      left := left - flip;
    }
    forall j | 0 <= j < bs.Length
      ensures bs[j] == Flooded(was, hostBits)[j]
    {
      FloodedAt(was, hostBits, j);
    }
  }
}
