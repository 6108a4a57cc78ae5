/**
 * One's-complement checksum arithmetic: the incremental update against the
 * checksum computed from scratch (section 1 of RFC 1071, section 3 of RFC 1624).
 */
module Checksum {
  type u8 = x: int | 0 <= x < 0x100
  type u16 = x: int | 0 <= x < 0x1_0000
  type u32 = x: int | 0 <= x < 0x1_0000_0000

  const MODULUS: int := 0xFFFF

  /** Equal as one's-complement sums. */
  predicate Same(a: int, b: int) {
    (a - b) % MODULUS == 0
  }

  /** The multiple of the modulus two equal sums are apart. */
  lemma Apart(a: int, b: int) returns (q: int)
    requires Same(a, b)
    ensures a == b + MODULUS * q
  {
    q := (a - b) / MODULUS;
  }

  lemma SameBy(a: int, b: int, q: int)
    requires a == b + MODULUS * q
    ensures Same(a, b)
  {
    assert a - b == MODULUS * q;
  }

  lemma SameTransitive(a: int, b: int, c: int)
    requires Same(a, b) && Same(b, c)
    ensures Same(a, c)
  {
    assert a - c == (a - b) + (b - c);
  }

  lemma SameSum(a: int, b: int, c: int, d: int)
    requires Same(a, b) && Same(c, d)
    ensures Same(a + c, b + d) && Same(a - c, b - d)
  {
    assert a + c - (b + d) == (a - b) + (c - d);
    assert a - c - (b - d) == (a - b) - (c - d);
  }

  /** A 32-bit field, from the two words it spans. */
  function Join(hi: u16, lo: u16): u32 {
    (hi as int) * 0x1_0000 + lo
  }

  lemma JoinSums(hi: u16, lo: u16)
    ensures Same(Join(hi, lo), hi + lo)
  {
    SameBy(Join(hi, lo), hi + lo, hi);
  }

  // ---- The helpers ---------------------------------------------------------

  function Complement32(x: u32): (r: u32)
    ensures Same(r, 0 - x)
  {
    assert 0xFFFF_FFFF == MODULUS * 0x1_0001;
    0xFFFF_FFFF - x
  }

  /** 32-bit addition with end-around carry. */
  function CsumAdd(csum: u32, addend: u32): (r: u32)
    ensures Same(r, csum + addend)
    ensures r == 0 <==> csum == 0 && addend == 0
  {
    var s := (csum + addend) % 0x1_0000_0000;
    assert s == csum + addend || s == csum + addend - 0x1_0000_0000;
    s + (if s < addend then 1 else 0)
  }

  function CsumSub(csum: u32, addend: u32): (r: u32)
    ensures Same(r, csum - addend)
    ensures csum != 0 ==> r != 0
  {
    var r := CsumAdd(csum, Complement32(addend));
    SameSum(csum, csum, Complement32(addend), 0 - addend);
    SameTransitive(r, csum + Complement32(addend), csum - addend);
    r
  }

  /** Adding the carries back below 16 bits changes nothing, and makes zero only of zero. */
  lemma CarryKeepsSum(sum: nat)
    ensures Same(sum % 0x1_0000 + sum / 0x1_0000, sum)
    ensures sum % 0x1_0000 + sum / 0x1_0000 == 0 <==> sum == 0
  {
    var q, r := sum / 0x1_0000, sum % 0x1_0000;
    assert sum == 0x1_0000 * q + r;
    assert r + q - sum == MODULUS * (0 - q);
  }

  /** Two carry folds bring any 32-bit sum down to 16 bits; the result is complemented. */
  function CsumFold(csum: u32): (r: u16)
    ensures Same(r, 0 - csum)
    ensures r == 0xFFFF <==> csum == 0
  {
    var once := csum % 0x1_0000 + csum / 0x1_0000;
    var twice := once % 0x1_0000 + once / 0x1_0000;
    CarryKeepsSum(csum);
    CarryKeepsSum(once);
    SameTransitive(twice, once, csum);
    assert 0xFFFF - twice + csum == MODULUS - (twice - csum);
    0xFFFF - twice
  }

  lemma ReplaceArithmetic(r: int, csum: int, start: int, was: int, without: int, becomes: int, sum: int)
    requires Same(start, 0 - csum) && Same(without, start - was) && Same(sum, without + becomes) && Same(r, 0 - sum)
    ensures Same(r, csum + was - becomes)
  {
    var q1 := Apart(start, 0 - csum);
    var q2 := Apart(without, start - was);
    var q3 := Apart(sum, without + becomes);
    var q4 := Apart(r, 0 - sum);
    SameBy(r, csum + was - becomes, q4 - q3 - q2 - q1);
  }

  /** The checksum a header carries after `was` was replaced by `becomes` in what it covers. */
  function Csum16Replace(oldCsum: u16, was: u32, becomes: u32): (r: u16)
    ensures Same(r, oldCsum + was - becomes)
    ensures r != 0xFFFF
  {
    var start := Complement32(oldCsum);
    var without := CsumSub(start, was);
    var sum := CsumAdd(without, becomes);
    var r := CsumFold(sum);
    ReplaceArithmetic(r, oldCsum, start, was, without, becomes, sum);
    r
  }

  // ---- From scratch --------------------------------------------------------

  function SumWords(words: seq<u16>): nat {
    if words == [] then 0 else words[0] + SumWords(words[1..])
  }

  /** Carries are added back until none is left. */
  function Folded(sum: nat): u16
    decreases sum
  {
    if sum < 0x1_0000 then sum else Folded(sum % 0x1_0000 + sum / 0x1_0000)
  }

  function FromScratch(words: seq<u16>): u16 {
    0xFFFF - Folded(SumWords(words))
  }

  lemma {:induction false} FoldedKeepsSum(sum: nat)
    ensures Same(Folded(sum), sum)
    ensures Folded(sum) == 0 <==> sum == 0
    decreases sum
  {
    if sum >= 0x1_0000 {
      var next := sum % 0x1_0000 + sum / 0x1_0000;
      CarryKeepsSum(sum);
      FoldedKeepsSum(next);
      SameTransitive(Folded(next), next, sum);
    }
  }

  lemma {:induction false} SumWordsUpdate(words: seq<u16>, i: nat, w: u16)
    requires i < |words|
    ensures SumWords(words[i := w]) == SumWords(words) - words[i] + w
  {
    if i == 0 {
      assert words[0 := w][1..] == words[1..];
    } else {
      assert words[i := w][1..] == words[1..][i - 1 := w];
      SumWordsUpdate(words[1..], i - 1, w);
    }
  }

  /** Sixteen-bit values with the same one's-complement sum and neither equal to 0xFFFF are equal. */
  lemma CanonicalIsUnique(a: u16, b: u16)
    requires Same(a, b) && a != 0xFFFF && b != 0xFFFF
    ensures a == b
  {
  }

  lemma UpdateArithmetic(r: int, csum: int, was: int, becomes: int, total: int, total': int, k: int, folded: int)
    requires Same(r, csum + was - becomes) && Same(csum + total, 0)
    requires total' == total - was + becomes + MODULUS * k && Same(folded, total')
    ensures Same(r, 0xFFFF - folded)
  {
    var q1 := Apart(r, csum + was - becomes);
    var q2 := Apart(csum + total, 0);
    var q4 := Apart(folded, total');
    SameBy(r, 0xFFFF - folded, q1 + q2 + k + q4 - 1);
  }

  /** `k` multiples of the modulus come from joining words into a 32-bit field. */
  lemma ReplaceMatches(total: nat, total': nat, oldCsum: u16, was: u32, becomes: u32, k: int)
    requires Same(oldCsum + total, 0) && total' == total - was + becomes + MODULUS * k
    ensures Csum16Replace(oldCsum, was, becomes) == 0xFFFF - Folded(total') <==> total' > 0
  {
    FoldedKeepsSum(total');
    if total' > 0 {
      UpdateArithmetic(Csum16Replace(oldCsum, was, becomes), oldCsum, was, becomes, total, total', k, Folded(total'));
      CanonicalIsUnique(Csum16Replace(oldCsum, was, becomes), 0xFFFF - Folded(total'));
    }
  }

  /**
   * Replacing one word of a valid header gives the checksum of the new header
   * exactly when that header is not all zeros: then the checksum is 0xFFFF,
   * which no update yields.
   */
  lemma ReplaceWordMatchesScratch(words: seq<u16>, i: nat, w: u16, oldCsum: u16)
    requires i < |words| && Same(oldCsum + SumWords(words), 0)
    ensures Csum16Replace(oldCsum, words[i], w) == FromScratch(words[i := w]) <==> SumWords(words[i := w]) > 0
  {
    SumWordsUpdate(words, i, w);
    ReplaceMatches(SumWords(words), SumWords(words[i := w]), oldCsum, words[i], w, 0);
  }

  /** Replacing a 32-bit field, two words at once, does too. */
  lemma ReplaceAddressMatchesScratch(words: seq<u16>, i: nat, hi: u16, lo: u16, oldCsum: u16)
    requires i + 1 < |words| && Same(oldCsum + SumWords(words), 0)
    ensures var words' := words[i := hi][i + 1 := lo];
            var r := Csum16Replace(oldCsum, Join(words[i], words[i + 1]), Join(hi, lo));
            r == FromScratch(words') <==> SumWords(words') > 0
  {
    SumWordsUpdate(words, i, hi);
    SumWordsUpdate(words[i := hi], i + 1, lo);
    ReplaceMatches(SumWords(words), SumWords(words[i := hi][i + 1 := lo]), oldCsum,
                   Join(words[i], words[i + 1]), Join(hi, lo), words[i] - hi);
  }

  /** A concrete header of zeros only, reached by zeroing its one word. */
  lemma AllZeroHeaderDiffers()
    ensures Same(0xFFFE + SumWords([1]), 0)
    ensures FromScratch([0]) == 0xFFFF && Csum16Replace(0xFFFE, 1, 0) == 0
  {
    assert SumWords([0]) == 0 && SumWords([1]) == 1;
    CanonicalIsUnique(Csum16Replace(0xFFFE, 1, 0), 0);
  }

  // ---- Byte order ----------------------------------------------------------

  function Swap16(x: u16): u16 {
    (x % 0x100) * 0x100 + x / 0x100
  }

  function Swap32(x: u32): u32 {
    Join(Swap16(x % 0x1_0000), Swap16(x / 0x1_0000))
  }

  lemma Swap16Scales(x: u16)
    ensures Same(Swap16(x), 0x100 * x)
    ensures Swap16(x) == 0xFFFF <==> x == 0xFFFF
  {
    assert Swap16(x) - 0x100 * x == -0xFFFF * (x / 0x100);
  }

  lemma JoinedScales(joined: int, hi: int, lo: int, swapped: int, shi: int, slo: int)
    requires Same(joined, hi + lo) && Same(swapped, slo + shi) && Same(shi, 0x100 * hi) && Same(slo, 0x100 * lo)
    ensures Same(swapped, 0x100 * joined)
  {
    var q1 := Apart(joined, hi + lo);
    var q2 := Apart(swapped, slo + shi);
    var q3 := Apart(shi, 0x100 * hi);
    var q4 := Apart(slo, 0x100 * lo);
    SameBy(swapped, 0x100 * joined, q2 + q3 + q4 - 0x100 * q1);
  }

  lemma Swap32Scales(x: u32)
    ensures Same(Swap32(x), 0x100 * x)
  {
    var hi, lo := x / 0x1_0000, x % 0x1_0000;
    Swap16Scales(hi);
    Swap16Scales(lo);
    assert Join(hi, lo) == x;
    JoinSums(hi, lo);
    JoinSums(Swap16(lo), Swap16(hi));
    JoinedScales(x, hi, lo, Swap32(x), Swap16(hi), Swap16(lo));
  }

  lemma SwappedArithmetic(s: int, r: int, sr: int, c: int, sc: int, a: int, sa: int, b: int, sb: int)
    requires Same(s, sc + sa - sb) && Same(r, c + a - b) && Same(sr, 0x100 * r)
    requires Same(sc, 0x100 * c) && Same(sa, 0x100 * a) && Same(sb, 0x100 * b)
    ensures Same(s, sr)
  {
    var q1 := Apart(s, sc + sa - sb);
    var q2 := Apart(r, c + a - b);
    var q3 := Apart(sr, 0x100 * r);
    var q4 := Apart(sc, 0x100 * c);
    var q5 := Apart(sa, 0x100 * a);
    var q6 := Apart(sb, 0x100 * b);
    SameBy(s, sr, q1 + q4 + q5 - q6 - q3 - 0x100 * q2);
  }

  /** Scaling every operand scales the result. */
  lemma ScaledReplace(c: u16, sc: u16, a: u32, sa: u32, b: u32, sb: u32, sr: u16)
    requires Same(sc, 0x100 * c) && Same(sa, 0x100 * a) && Same(sb, 0x100 * b)
    requires Same(sr, 0x100 * Csum16Replace(c, a, b)) && sr != 0xFFFF
    ensures Csum16Replace(sc, sa, sb) == sr
  {
    SwappedArithmetic(Csum16Replace(sc, sa, sb), Csum16Replace(c, a, b), sr, c, sc, a, sa, b, sb);
    CanonicalIsUnique(Csum16Replace(sc, sa, sb), sr);
  }

  /**
   * A little-endian host loads every field byte-swapped and stores the result
   * swapped back; the update it computes is the same.
   */
  lemma ByteOrderDoesNotMatter(oldCsum: u16, was: u32, becomes: u32)
    ensures Csum16Replace(Swap16(oldCsum), Swap32(was), Swap32(becomes)) == Swap16(Csum16Replace(oldCsum, was, becomes))
  {
    Swap16Scales(oldCsum);
    Swap32Scales(was);
    Swap32Scales(becomes);
    var r := Csum16Replace(oldCsum, was, becomes);
    Swap16Scales(r);
    ScaledReplace(oldCsum, Swap16(oldCsum), was, Swap32(was), becomes, Swap32(becomes), Swap16(r));
  }
}
