/**
 * The address space of a pool: candidate ranges, counting what they hold, and
 * handing out the first free address. Addresses are numbers in the order the
 * allocator compares them, all of IPv4 before all of IPv6.
 */
module AddressPool {
  import opened Types
  import opened AddressPrefix

  type Ip = nat

  const IPV4_COUNT: nat := 0x1_0000_0000

  predicate IsV4(a: Ip) {
    a < IPV4_COUNT
  }

  // ---- Ranges --------------------------------------------------------------

  /** Both bounds included. */
  datatype IpRange = IpRange(lo: Ip, hi: Ip)
  {
    predicate Contains(a: Ip) {
      lo <= a <= hi
    }

    function Size(): int {
      hi - lo + 1
    }
  }

  /** What an entry owns, and the part of it that automatic allocation hands out. */
  datatype Candidate = Candidate(span: IpRange, allocatable: IpRange)

  function FamilyStart(v4: bool): Ip {
    if v4 then 0 else IPV4_COUNT
  }

  /** The entry of a block from `lo` to `hi`; its edges are kept back where there is room for them. */
  function FromEnds(lo: Ip, hi: Ip, hostBits: nat): Candidate {
    var span := IpRange(lo, hi);
    if hostBits > 1 && hi > 0 then Candidate(span, IpRange(lo + 1, hi - 1)) else Candidate(span, span)
  }

  /** A CIDR entry, from the bytes of its address and the bits its prefix leaves to hosts. */
  function FromPrefix(v4: bool, bs: seq<Byte>, hostBits: nat): Candidate {
    FromEnds(FamilyStart(v4) + Value(Masked(bs, hostBits)),
             FamilyStart(v4) + Value(Flooded(Masked(bs, hostBits), hostBits)), hostBits)
  }

  lemma BlockLeavesRoom(lo: Ip, hi: Ip, h: nat)
    requires hi == lo + Pow2(h) - 1
    ensures var c := FromEnds(lo, hi, h);
            && c.span == IpRange(lo, hi) && c.span.Size() == Pow2(h) && c.allocatable.lo <= c.allocatable.hi
            && c.allocatable == (if h >= 2 then IpRange(lo + 1, hi - 1) else c.span)
  {
    PowerSizes(h);
  }

  /**
   * A CIDR entry spans exactly its block of 2^hostBits addresses, from the written
   * address rounded down to a multiple of that, and always leaves something to allocate: all of it, but
   * for the two edges of a block of four or more.
   */
  lemma PrefixIsBlock(v4: bool, bs: seq<Byte>, hostBits: nat)
    requires hostBits <= 8 * |bs|
    ensures var c := FromPrefix(v4, bs, hostBits);
            && c.span.Size() == Pow2(hostBits) && c.span.Contains(FamilyStart(v4) + Value(bs))
            && c.span.lo == FamilyStart(v4) + Value(bs) / Pow2(hostBits) * Pow2(hostBits)
            && c.allocatable.lo <= c.allocatable.hi
            && (if hostBits >= 2 then c.allocatable.lo == c.span.lo + 1 && c.allocatable.hi == c.span.hi - 1
                else c.allocatable == c.span)
  {
    PrefixEnds(bs, hostBits);
    MaskedRoundsDown(bs, hostBits);
    BlockFacts(v4, Value(bs), hostBits, Value(Masked(bs, hostBits)), Value(Flooded(Masked(bs, hostBits), hostBits)));
  }

  lemma BlockFacts(v4: bool, written: nat, h: nat, first: nat, last: nat)
    requires last == first + Pow2(h) - 1 && first <= written < first + Pow2(h)
    ensures var c := FromEnds(FamilyStart(v4) + first, FamilyStart(v4) + last, h);
            && c.span.lo == FamilyStart(v4) + first
            && c.span.Size() == Pow2(h) && c.span.Contains(FamilyStart(v4) + written)
            && c.allocatable.lo <= c.allocatable.hi
            && (if h >= 2 then c.allocatable.lo == c.span.lo + 1 && c.allocatable.hi == c.span.hi - 1
                else c.allocatable == c.span)
  {
    BlockLeavesRoom(FamilyStart(v4) + first, FamilyStart(v4) + last, h);
  }

  lemma {:induction false} ValueFits(bs: seq<Byte>)
    ensures Value(bs) < Pow2(8 * |bs|)
    decreases |bs|
  {
    if bs != [] {
      ValueFits(bs[..|bs| - 1]);
      EightBits();
      Pow2Adds(8 * (|bs| - 1), 8);
      assert 8 * (|bs| - 1) + 8 == 8 * |bs|;
    }
  }

  lemma TwiceTheBits(n: nat, size: nat)
    requires Pow2(n) == size
    ensures Pow2(n + n) == size * size
  {
    Pow2Adds(n, n);
  }

  lemma ThirtyTwoBits(n: nat)
    requires n == 8
    ensures Pow2(4 * n) == 0x1_0000_0000
  {
    EightBits();
    TwiceTheBits(n, 0x100);
    TwiceTheBits(2 * n, 0x1_0000);
  }

  /** A CIDR entry stays within its family: four bytes are IPv4, and IPv6 comes behind all of it. */
  lemma PrefixKeepsItsFamily(v4: bool, bs: seq<Byte>, hostBits: nat)
    requires hostBits <= 8 * |bs| && (v4 ==> |bs| == 4)
    ensures var c := FromPrefix(v4, bs, hostBits); IsV4(c.span.lo) == IsV4(c.span.hi) == v4
  {
    PrefixEnds(bs, hostBits);
    if v4 {
      ValueFits(Masked(bs, hostBits));
      ValueFits(Flooded(Masked(bs, hostBits), hostBits));
      ThirtyTwoBits(8);
    }
  }

  /** An explicit range; bounds that are invalid, mixed or reversed are refused. */
  function FromBounds(start: Option<Ip>, end: Option<Ip>): (r: Option<Candidate>)
    ensures r.Some? ==> start.Some? && end.Some? && r.value.span == IpRange(start.value, end.value)
    ensures r.Some? ==> r.value.allocatable.lo <= r.value.allocatable.hi && r.value.allocatable == r.value.span
    ensures r.Some? ==> IsV4(r.value.span.lo) == IsV4(r.value.span.hi)
    ensures r.None? && start.Some? && end.Some? && start.value <= end.value ==> IsV4(start.value) && !IsV4(end.value)
  {
    if start.None? || end.None? || IsV4(start.value) != IsV4(end.value) || start.value > end.value then None
    else Some(Candidate(IpRange(start.value, end.value), IpRange(start.value, end.value)))
  }

  /** The address after the network address, if the prefix has room for one. */
  function FirstAddr(network: Ip, hostBits: nat): Option<Ip> {
    if network + 1 < network + Pow2(hostBits) then Some(network + 1) else None
  }

  /** Only a single-address prefix has none; a prefix of two does, contrary to what is written beside it. */
  lemma FirstAddrNeedsOneHostBit(network: Ip, hostBits: nat)
    ensures FirstAddr(network, hostBits) == if hostBits >= 1 then Some(network + 1) else None
  {
    if hostBits >= 1 {
      assert Pow2(hostBits) == 2 * Pow2(hostBits - 1);
    }
  }

  // ---- Sets of addresses ---------------------------------------------------

  ghost function Interval(r: IpRange): set<Ip> {
    set a: Ip | r.lo <= a <= r.hi && r.Contains(a)
  }

  ghost function Addrs(rs: seq<IpRange>): set<Ip> {
    if rs == [] then {} else Addrs(rs[..|rs| - 1]) + Interval(rs[|rs| - 1])
  }

  predicate InSome(rs: seq<IpRange>, a: Ip) {
    exists i :: 0 <= i < |rs| && rs[i].Contains(a)
  }

  lemma {:induction false} AddrsAreInSome(rs: seq<IpRange>, a: Ip)
    ensures a in Addrs(rs) <==> InSome(rs, a)
    decreases |rs|
  {
    if rs != [] {
      var init := rs[..|rs| - 1];
      AddrsAreInSome(init, a);
      if InSome(init, a) {
        var i :| 0 <= i < |init| && init[i].Contains(a);
        assert rs[i].Contains(a);
      }
      if i :| 0 <= i < |rs| - 1 && rs[i].Contains(a) {
        assert init[i].Contains(a);
      }
    }
  }

  lemma SameRangesSameAddrs(a: seq<IpRange>, b: seq<IpRange>)
    requires multiset(a) == multiset(b)
    ensures Addrs(a) == Addrs(b)
  {
    forall x: Ip
      ensures x in Addrs(a) <==> x in Addrs(b)
    {
      AddrsAreInSome(a, x);
      AddrsAreInSome(b, x);
      assert forall r: IpRange :: r in a <==> r in multiset(a);
      assert forall r: IpRange :: r in b <==> r in multiset(b);
      if i :| 0 <= i < |a| && a[i].Contains(x) {
        assert a[i] in b;
      }
      if i :| 0 <= i < |b| && b[i].Contains(x) {
        assert b[i] in a;
      }
    }
  }

  lemma {:induction false} IntervalSize(r: IpRange)
    requires r.lo <= r.hi + 1
    ensures |Interval(r)| == r.Size()
    decreases r.hi + 1 - r.lo
  {
    if r.lo <= r.hi {
      var rest := IpRange(r.lo + 1, r.hi);
      IntervalSize(rest);
      assert Interval(r) == Interval(rest) + {r.lo};
    } else {
      assert Interval(r) == {};
    }
  }

  // ---- Merging -------------------------------------------------------------

  ghost predicate SortedByLo(rs: seq<IpRange>) {
    forall i, j :: 0 <= i < j < |rs| ==> rs[i].lo <= rs[j].lo
  }

  ghost predicate NonEmpty(rs: seq<IpRange>) {
    forall i :: 0 <= i < |rs| ==> rs[i].lo <= rs[i].hi
  }

  /** In order, and no address in two ranges. */
  ghost predicate Separate(rs: seq<IpRange>) {
    forall i, j :: 0 <= i < j < |rs| ==> rs[i].hi < rs[j].lo
  }

  /** Any order by lower bound will do. */
  method SortByLo(rs: seq<IpRange>) returns (s: seq<IpRange>)
    ensures SortedByLo(s) && multiset(s) == multiset(rs)
  {
    s := [];
    var i := 0;
    while i < |rs|
      invariant i <= |rs| && SortedByLo(s) && multiset(s) == multiset(rs[..i])
    {
      s := InsertByLo(s, rs[i]);
      assert rs[..i + 1] == rs[..i] + [rs[i]];
      i := i + 1;
    }
    assert rs[..i] == rs;
  }

  lemma InsertedIsSorted(s: seq<IpRange>, k: nat, r: IpRange)
    requires SortedByLo(s) && k <= |s|
    requires (k > 0 ==> s[k - 1].lo <= r.lo) && forall j :: k <= j < |s| ==> s[j].lo > r.lo
    ensures SortedByLo(s[..k] + [r] + s[k..])
  {
    var t := s[..k] + [r] + s[k..];
    assert forall j :: 0 <= j < k ==> t[j] == s[j] && t[j].lo <= r.lo;
    assert t[k] == r;
    assert forall j :: k < j < |t| ==> t[j] == s[j - 1];
  }

  method InsertByLo(s: seq<IpRange>, r: IpRange) returns (t: seq<IpRange>)
    requires SortedByLo(s)
    ensures SortedByLo(t) && multiset(t) == multiset(s) + multiset{r}
  {
    var k := |s|;
    while k > 0 && s[k - 1].lo > r.lo
      invariant 0 <= k <= |s| && forall j :: k <= j < |s| ==> s[j].lo > r.lo
    {
      k := k - 1;
    }
    InsertedIsSorted(s, k, r);
    t := s[..k] + [r] + s[k..];
    assert s == s[..k] + s[k..];
  }

  lemma AddrsOfSnoc(rs: seq<IpRange>, r: IpRange)
    ensures Addrs(rs + [r]) == Addrs(rs) + Interval(r)
  {
    assert (rs + [r])[..|rs|] == rs;
  }

  /** Growing the last range by one it meets adds exactly that one's addresses. */
  lemma GrowLast(rs: seq<IpRange>, r: IpRange)
    requires rs != []
    requires var last := rs[|rs| - 1]; last.lo <= r.lo <= last.hi
    ensures var last := rs[|rs| - 1];
            var grown := rs[|rs| - 1 := IpRange(last.lo, if r.hi > last.hi then r.hi else last.hi)];
            Addrs(grown) == Addrs(rs) + Interval(r)
  {
    var last := rs[|rs| - 1];
    var grown := rs[|rs| - 1 := IpRange(last.lo, if r.hi > last.hi then r.hi else last.hi)];
    assert grown[..|rs| - 1] == rs[..|rs| - 1];
    assert Interval(grown[|rs| - 1]) == Interval(last) + Interval(r);
  }

  /** Takes the next range in order: it grows the last one it meets, or starts a new one. */
  method MergeOne(merged: seq<IpRange>, r: IpRange) returns (next: seq<IpRange>)
    requires Separate(merged) && NonEmpty(merged) && r.lo <= r.hi
    requires merged != [] ==> merged[|merged| - 1].lo <= r.lo
    ensures Separate(next) && NonEmpty(next) && Addrs(next) == Addrs(merged) + Interval(r)
    ensures next != [] && next[|next| - 1].lo <= r.lo
  {
    var last := |merged| - 1;
    if last >= 0 && r.lo <= merged[last].hi {
      GrowLast(merged, r);
      if r.hi > merged[last].hi {
        return merged[last := IpRange(merged[last].lo, r.hi)];
      }
      assert merged[last := IpRange(merged[last].lo, merged[last].hi)] == merged;
      return merged;
    }
    AddrsOfSnoc(merged, r);
    SeparateSnoc(merged, r);
    next := merged + [r];
  }

  lemma SeparateSnoc(merged: seq<IpRange>, r: IpRange)
    requires Separate(merged) && NonEmpty(merged) && (merged != [] ==> merged[|merged| - 1].hi < r.lo)
    ensures Separate(merged + [r])
  {
    forall i | 0 <= i < |merged|
      ensures merged[i].hi < r.lo
    {
      if i < |merged| - 1 {
        assert merged[i].hi < merged[|merged| - 1].lo;
      }
    }
  }

  /** The sorted, non-overlapping ranges that hold the same addresses. */
  method MergeRanges(rs: seq<IpRange>) returns (merged: seq<IpRange>)
    requires NonEmpty(rs)
    ensures Separate(merged) && NonEmpty(merged) && Addrs(merged) == Addrs(rs)
  {
    var sorted := SortByLo(rs);
    SortKeepsNonEmpty(rs, sorted);
    merged := [];
    var i := 0;
    while i < |sorted|
      invariant i <= |sorted| && Separate(merged) && NonEmpty(merged) && Addrs(merged) == Addrs(sorted[..i])
      invariant i == 0 ==> merged == []
      invariant i > 0 ==> merged != [] && merged[|merged| - 1].lo <= sorted[i - 1].lo
    {
      var r := sorted[i];
      assert sorted[..i + 1] == sorted[..i] + [r];
      AddrsOfSnoc(sorted[..i], r);
      merged := MergeOne(merged, r);
      i := i + 1;
    }
    assert sorted[..i] == sorted;
    SameRangesSameAddrs(sorted, rs);
  }

  lemma SortKeepsNonEmpty(rs: seq<IpRange>, sorted: seq<IpRange>)
    requires NonEmpty(rs) && multiset(sorted) == multiset(rs)
    ensures NonEmpty(sorted)
  {
    forall i | 0 <= i < |sorted|
      ensures sorted[i].lo <= sorted[i].hi
    {
      assert sorted[i] in multiset(sorted);
      assert sorted[i] in rs;
    }
  }

  // ---- Counting ------------------------------------------------------------

  function SumSizes(rs: seq<IpRange>): int {
    if rs == [] then 0 else SumSizes(rs[..|rs| - 1]) + rs[|rs| - 1].Size()
  }

  /** Separate ranges hold as many addresses as their sizes add up to. */
  lemma {:induction false} SizesCountAddrs(rs: seq<IpRange>)
    requires Separate(rs) && NonEmpty(rs)
    ensures SumSizes(rs) == |Addrs(rs)|
    decreases |rs|
  {
    if rs != [] {
      var init, last := rs[..|rs| - 1], rs[|rs| - 1];
      SizesCountAddrs(init);
      IntervalSize(last);
      forall a | a in Addrs(init)
        ensures a !in Interval(last)
      {
        AddrsAreInSome(init, a);
        var i :| 0 <= i < |init| && init[i].Contains(a);
        assert rs[i].hi < last.lo;
      }
      assert Addrs(init) !! Interval(last);
    }
  }

  const MAX_INT64: int := 0x7fff_ffff_ffff_ffff

  /** A count that does not fit is reported as the largest that does. */
  function CapInt64(v: int): (r: int)
    ensures -0x8000_0000_0000_0000 <= r < 0x8000_0000_0000_0000
    ensures -0x8000_0000_0000_0000 <= v < 0x8000_0000_0000_0000 ==> r == v
    ensures v >= 0x8000_0000_0000_0000 ==> r == 0x7fff_ffff_ffff_ffff
  {
    if v > MAX_INT64 || v < -MAX_INT64 - 1 then MAX_INT64 else v
  }

  datatype Counts = Counts(total: int, held: int, available: int)

  ghost function Union(candidates: seq<Candidate>): set<Ip> {
    Addrs(Allocatable(candidates))
  }

  function Allocatable(candidates: seq<Candidate>): seq<IpRange> {
    seq(|candidates|, i requires 0 <= i < |candidates| => candidates[i].allocatable)
  }

  ghost predicate AllNonEmpty(candidates: seq<Candidate>) {
    forall i :: 0 <= i < |candidates| ==> candidates[i].allocatable.lo <= candidates[i].allocatable.hi
  }

  /** The addresses an exclusion list names; entries that do not parse name none. */
  ghost function Named(excluded: seq<Option<Ip>>): set<Ip> {
    set x | x in excluded && x.Some? :: x.value
  }

  method RangesContain(rs: seq<IpRange>, a: Ip) returns (found: bool)
    ensures found <==> a in Addrs(rs)
  {
    AddrsAreInSome(rs, a);
    var i := 0;
    while i < |rs|
      invariant i <= |rs| && forall j :: 0 <= j < i ==> !rs[j].Contains(a)
    {
      if rs[i].Contains(a) {
        return true;
      }
      i := i + 1;
    }
    found := false;
  }

  method ExcludedInSpace(space: seq<IpRange>, excluded: seq<Option<Ip>>) returns (e: set<Ip>)
    ensures e == Named(excluded) * Addrs(space)
  {
    e := {};
    var i := 0;
    while i < |excluded|
      invariant i <= |excluded| && e == Named(excluded[..i]) * Addrs(space)
    {
      assert excluded[..i + 1] == excluded[..i] + [excluded[i]];
      if excluded[i].Some? {
        var inside := RangesContain(space, excluded[i].value);
        if inside {
          e := e + {excluded[i].value};
        }
      }
      i := i + 1;
    }
    assert excluded[..i] == excluded;
  }

  method CountAllocated(space: seq<IpRange>, e: set<Ip>, used: set<Ip>) returns (n: nat)
    ensures n == |used * (Addrs(space) - e)|
  {
    n := 0;
    var rest := used;
    ghost var counted: set<Ip> := {};
    while rest != {}
      invariant rest <= used && n == |counted|
      invariant forall a :: a in counted <==> a in used && a !in rest && a in Addrs(space) && a !in e
      decreases rest
    {
      var a :| a in rest;
      var inside := RangesContain(space, a);
      if a !in e && inside {
        n := n + 1;
        counted := counted + {a};
      }
      rest := rest - {a};
    }
    assert counted == used * (Addrs(space) - e);
  }

  method TotalSize(space: seq<IpRange>) returns (total: int)
    ensures total == SumSizes(space)
  {
    total := 0;
    var i := 0;
    while i < |space|
      invariant i <= |space| && total == SumSizes(space[..i])
    {
      assert space[..i + 1][..i] == space[..i];
      total := total + space[i].Size();
      i := i + 1;
    }
    assert space[..i] == space;
  }

  /**
   * Total, allocated and available addresses of a pool: the cardinalities of
   * what the candidates hold without the excluded addresses, capped.
   */
  method CountPoolAddresses(candidates: seq<Candidate>, excluded: seq<Option<Ip>>, used: set<Ip>) returns (c: Counts)
    requires AllNonEmpty(candidates)
    ensures var free := Union(candidates) - Named(excluded);
            c == Counts(CapInt64(|free|), |used * free|, CapInt64(|free - used|))
  {
    var space := MergeRanges(Allocatable(candidates));
    var e := ExcludedInSpace(space, excluded);
    var held := CountAllocated(space, e, used);
    var total := TotalSize(space);
    SizesCountAddrs(space);
    ghost var all := Addrs(space);
    ghost var free := all - Named(excluded);
    assert all - e == free;
    assert all == free + e && free !! e;
    total := total - |e|;
    assert free == (free - used) + (used * free) && (free - used) !! (used * free);
    c := Counts(CapInt64(total), held, CapInt64(total - held));
  }

  /** The counts add up exactly when the total fits, or nothing is allocated. */
  lemma CountsAddUp(free: set<Ip>, used: set<Ip>)
    ensures CapInt64(|free|) == |used * free| + CapInt64(|free - used|) <==>
            |free| <= MAX_INT64 || used * free == {}
  {
    assert free == (free - used) + (used * free) && (free - used) !! (used * free);
  }

  lemma SixtyFourBits(n: nat)
    requires n == 8
    ensures Pow2(8 * n) == 0x1_0000_0000_0000_0000
  {
    ThirtyTwoBits(n);
    TwiceTheBits(4 * n, 0x1_0000_0000);
  }

  lemma OneEntryUnion(c: Candidate)
    requires c.allocatable.lo <= c.allocatable.hi
    ensures Union([c]) == Interval(c.allocatable) && |Union([c])| == c.allocatable.Size()
  {
    var rs := Allocatable([c]);
    assert rs == [c.allocatable] && rs[..0] == [];
    assert Addrs(rs) == Addrs(rs[..0]) + Interval(rs[0]) == {} + Interval(c.allocatable);
    IntervalSize(c.allocatable);
  }

  /** Pools that do not add up: an IPv6 /64 with one address in use reports as many available as there are in total. */
  lemma BigPoolDoesNotAddUp(bs: seq<Byte>)
    requires |bs| == 16
    ensures var c := FromPrefix(false, bs, 64);
            var free := Union([c]);
            var used := {c.allocatable.lo};
            && CapInt64(|free|) == MAX_INT64 && |used * free| == 1 && CapInt64(|free - used|) == MAX_INT64
            && CapInt64(|free|) != |used * free| + CapInt64(|free - used|)
  {
    var c := FromPrefix(false, bs, 64);
    PrefixIsBlock(false, bs, 64);
    SixtyFourBits(8);
    OneEntryUnion(c);
    var free, used := Union([c]), {c.allocatable.lo};
    assert c.allocatable.Contains(c.allocatable.lo);
    assert used * free == used;
    assert free == (free - used) + used;
  }

  // ---- Handing out ---------------------------------------------------------

  /** The first free address in scan order: entry by entry, from each lower bound up. */
  ghost predicate IsFirstFree(candidates: seq<Candidate>, used: set<Ip>, i: nat, a: Ip) {
    && i < |candidates| && candidates[i].allocatable.Contains(a) && a !in used
    && (forall b: Ip :: candidates[i].allocatable.lo <= b < a ==> b in used)
    && AllUsed(candidates[..i], used)
  }

  ghost predicate AllUsed(candidates: seq<Candidate>, used: set<Ip>) {
    forall j, b: Ip | 0 <= j < |candidates| && candidates[j].allocatable.Contains(b) :: b in used
  }

  lemma AllUsedMeansNoneFree(candidates: seq<Candidate>, used: set<Ip>)
    ensures AllUsed(candidates, used) <==> Union(candidates) <= used
  {
    if AllUsed(candidates, used) {
      forall a | a in Union(candidates)
        ensures a in used
      {
        AddrsAreInSome(Allocatable(candidates), a);
        var j :| 0 <= j < |candidates| && Allocatable(candidates)[j].Contains(a);
        assert candidates[j].allocatable.Contains(a);
      }
    }
    if Union(candidates) <= used {
      forall j, b: Ip | 0 <= j < |candidates| && candidates[j].allocatable.Contains(b)
        ensures b in used
      {
        AddrsAreInSome(Allocatable(candidates), b);
        assert Allocatable(candidates)[j].Contains(b);
      }
    }
  }

  /** Scans one entry. It ends because the entry is not empty and the scan meets its upper bound. */
  method FirstFitIn(r: IpRange, used: set<Ip>) returns (found: Option<Ip>)
    requires r.lo <= r.hi
    ensures match found
            case Some(a) => r.Contains(a) && a !in used && forall b: Ip :: r.lo <= b < a ==> b in used
            case None => forall b: Ip :: r.Contains(b) ==> b in used
  {
    var a := r.lo;
    while true
      invariant r.Contains(a) && forall b: Ip :: r.lo <= b < a ==> b in used
      decreases r.hi - a
    {
      if a !in used {
        return Some(a);
      }
      if a == r.hi {
        return None;
      }
      a := a + 1;
    }
  }

  method FirstFit(candidates: seq<Candidate>, used: set<Ip>) returns (found: Option<Ip>)
    requires AllNonEmpty(candidates)
    ensures found.Some? ==> exists i :: IsFirstFree(candidates, used, i, found.value)
    ensures found.None? ==> AllUsed(candidates, used)
  {
    var i := 0;
    while i < |candidates|
      invariant i <= |candidates| && AllUsed(candidates[..i], used)
    {
      found := FirstFitIn(candidates[i].allocatable, used);
      if found.Some? {
        assert IsFirstFree(candidates, used, i, found.value);
        return;
      }
      i := i + 1;
    }
    assert candidates[..i] == candidates;
    found := None;
  }

  lemma FirstFreeIsFree(candidates: seq<Candidate>, used: set<Ip>, i: nat, a: Ip)
    requires IsFirstFree(candidates, used, i, a)
    ensures a in Union(candidates) && a !in used
  {
    AddrsAreInSome(Allocatable(candidates), a);
    assert Allocatable(candidates)[i].Contains(a);
  }

  lemma EarlierIsUsed(candidates: seq<Candidate>, used: set<Ip>, j: nat, i: nat, a: Ip)
    requires i < j <= |candidates| && AllUsed(candidates[..j], used) && candidates[i].allocatable.Contains(a)
    ensures a in used
  {
    assert candidates[..j][i] == candidates[i];
  }

  /** At most one address is the first free one. */
  lemma FirstFreeIsUnique(candidates: seq<Candidate>, used: set<Ip>, i: nat, a: Ip, j: nat, b: Ip)
    requires IsFirstFree(candidates, used, i, a) && IsFirstFree(candidates, used, j, b)
    ensures i == j && a == b
  {
    if i < j {
      EarlierIsUsed(candidates, used, j, i, a);
    } else if j < i {
      EarlierIsUsed(candidates, used, i, j, b);
    }
  }

  method TakenAddresses(excluded: seq<Option<Ip>>, used: set<Ip>) returns (taken: set<Ip>)
    ensures taken == used + Named(excluded)
  {
    taken := used;
    var i := 0;
    while i < |excluded|
      invariant i <= |excluded| && taken == used + Named(excluded[..i])
    {
      assert excluded[..i + 1] == excluded[..i] + [excluded[i]];
      if excluded[i].Some? {
        taken := taken + {excluded[i].value};
      }
      i := i + 1;
    }
    assert excluded[..i] == excluded;
  }

  /**
   * Counting agrees with allocating: first-fit over the used and the excluded
   * addresses succeeds exactly when the pool reports an address available, and
   * then returns the first free one in scan order.
   */
  method AllocateIp(candidates: seq<Candidate>, excluded: seq<Option<Ip>>, used: set<Ip>) returns (found: Option<Ip>)
    requires AllNonEmpty(candidates)
    ensures found.Some? <==> CapInt64(|Union(candidates) - Named(excluded) - used|) > 0
    ensures found.Some? ==> found.value in Union(candidates) - Named(excluded) - used
    ensures found.Some? ==> exists i :: IsFirstFree(candidates, used + Named(excluded), i, found.value)
  {
    var taken := TakenAddresses(excluded, used);
    found := FirstFit(candidates, taken);
    ghost var free := Union(candidates) - Named(excluded) - used;
    if found.Some? {
      ghost var i :| IsFirstFree(candidates, taken, i, found.value);
      FirstFreeIsFree(candidates, taken, i, found.value);
      assert found.value in free;
    } else {
      AllUsedMeansNoneFree(candidates, taken);
      assert free == {};
    }
  }
}
