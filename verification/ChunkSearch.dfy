/**
  Searching a byte table sixteen bytes at a time: each chunk is compared with the wanted byte at
  once, which gives a 16-bit mask, and the set bits of the mask are then taken one by one.
 */
module ChunkSearch {
  import opened Basics

  /** Bytes in a chunk, and bits in a mask. */
  const LANES: nat := 16

  // ---- bits of a mask ----

  predicate Bit(mask: nat, k: nat) {
    if k == 0 then mask % 2 == 1 else Bit(mask / 2, k - 1)
  }

  function And(a: nat, b: nat): nat {
    if a == 0 || b == 0 then 0 else (a % 2) * (b % 2) + 2 * And(a / 2, b / 2)
  }

  /** In a word of `width` bits. */
  function LeadingZeros(mask: nat, width: nat): (z: nat)
    requires mask < Pow2(width)
    ensures z <= width && (mask > 0 ==> z < width)
  {
    if mask == 0 then width else LeadingZeros(mask / 2, width - 1)
  }

  function ShiftRight(x: nat, k: nat): nat {
    if k == 0 then x else ShiftRight(x / 2, k - 1)
  }

  lemma {:induction false} AndBit(a: nat, b: nat, k: nat)
    ensures Bit(And(a, b), k) <==> Bit(a, k) && Bit(b, k)
  {
    if a == 0 || b == 0 {
      ZeroBit(k);
    } else {
      assert And(a, b) / 2 == And(a / 2, b / 2) && And(a, b) % 2 == (a % 2) * (b % 2);
      if k > 0 { AndBit(a / 2, b / 2, k - 1); }
    }
  }

  lemma {:induction false} ZeroBit(k: nat)
    ensures !Bit(0, k)
  {
    if k > 0 { ZeroBit(k - 1); }
  }

  /** The mask is below 2^width, so it has no bit at or above it. */
  lemma {:induction false} BitBelow(mask: nat, width: nat, k: nat)
    requires mask < Pow2(width) && Bit(mask, k)
    ensures k < width
  {
    if width == 0 {
      ZeroBit(k);
    } else if k > 0 {
      BitBelow(mask / 2, width - 1, k - 1);
    }
  }

  lemma {:induction false} AndBelow(a: nat, b: nat)
    ensures And(a, b) <= a
  {
    if a > 0 && b > 0 { AndBelow(a / 2, b / 2); }
  }

  /** The number of trailing zeros is the lowest set bit. */
  lemma {:induction false} LowestBit(mask: nat, k: nat)
    requires mask > 0
    ensures Bit(mask, TrailingZeros(mask)) && (k < TrailingZeros(mask) ==> !Bit(mask, k))
  {
    if mask % 2 == 0 { LowestBit(mask / 2, if k > 0 then k - 1 else 0); }
  }

  /** Combining a mask with its predecessor clears the lowest set bit and no other. */
  lemma {:induction false} ClearLowest(mask: nat, k: nat)
    requires mask > 0
    ensures Bit(And(mask, mask - 1), k) <==> Bit(mask, k) && k != TrailingZeros(mask)
  {
    AndBit(mask, mask - 1, k);
    if mask % 2 == 1 {
      assert (mask - 1) / 2 == mask / 2;
    } else {
      assert (mask - 1) / 2 == mask / 2 - 1;
      if k > 0 {
        ClearLowest(mask / 2, k - 1);
        AndBit(mask / 2, mask / 2 - 1, k - 1);
      }
    }
  }

  /** The leading zeros end at the highest set bit. */
  lemma {:induction false} HighestBit(mask: nat, width: nat, k: nat)
    requires 0 < mask < Pow2(width)
    ensures var top := width - 1 - LeadingZeros(mask, width); Bit(mask, top) && (k > top ==> !Bit(mask, k))
  {
    if mask / 2 > 0 {
      HighestBit(mask / 2, width - 1, if k > 0 then k - 1 else 0);
    } else {
      assert mask == 1;
      if k > 0 { ZeroBit(k - 1); }
    }
  }

  lemma {:induction false} OnesBit(n: nat, k: nat)
    ensures Bit(Pow2(n) - 1, k) <==> k < n
  {
    if n == 0 {
      ZeroBit(k);
    } else {
      assert (Pow2(n) - 1) / 2 == Pow2(n - 1) - 1 && (Pow2(n) - 1) % 2 == 1;
      if k > 0 { OnesBit(n - 1, k - 1); }
    }
  }

  lemma {:induction false} OnesShifted(n: nat, k: nat)
    requires k <= n
    ensures ShiftRight(Pow2(n) - 1, k) == Pow2(n - k) - 1
  {
    if k > 0 {
      assert (Pow2(n) - 1) / 2 == Pow2(n - 1) - 1;
      OnesShifted(n - 1, k - 1);
    }
  }

  /** Masking with the ones below the highest set bit clears it and no other. */
  lemma ClearHighest(mask: nat, width: nat, k: nat)
    requires 0 < mask < Pow2(width)
    ensures var z := LeadingZeros(mask, width);
      Bit(And(mask, ShiftRight(Pow2(width) - 1, z + 1)), k) <==> Bit(mask, k) && k != width - 1 - z
  {
    var z := LeadingZeros(mask, width);
    AndBit(mask, ShiftRight(Pow2(width) - 1, z + 1), k);
    OnesShifted(width, z + 1);
    OnesBit(width - z - 1, k);
    HighestBit(mask, width, k);
  }

  /** The set bits of a word. */
  ghost function Bits(mask: nat, width: nat): set<nat> {
    set k: nat | k < width && Bit(mask, k)
  }

  lemma NoBits(width: nat)
    ensures Bits(0, width) == {}
  {
    forall k: nat | k < width ensures !Bit(0, k) { ZeroBit(k); }
  }

  function WithoutLowest(mask: nat): nat
    requires mask > 0
  {
    And(mask, mask - 1)
  }

  function WithoutHighest(mask: nat, width: nat): nat
    requires mask < Pow2(width)
  {
    And(mask, ShiftRight(Pow2(width) - 1, LeadingZeros(mask, width) + 1))
  }

  lemma LowestOut(mask: nat, width: nat)
    requires 0 < mask < Pow2(width)
    ensures TrailingZeros(mask) in Bits(mask, width) && forall k :: k in Bits(mask, width) ==> TrailingZeros(mask) <= k
    ensures Bits(WithoutLowest(mask), width) == Bits(mask, width) - {TrailingZeros(mask)}
    ensures WithoutLowest(mask) < Pow2(width)
  {
    var t, rest := TrailingZeros(mask), WithoutLowest(mask);
    LowestBit(mask, 0);
    BitBelow(mask, width, t);
    AndBelow(mask, mask - 1);
    forall k: nat | k < width ensures (Bit(mask, k) ==> t <= k) && (Bit(rest, k) <==> Bit(mask, k) && k != t) {
      LowestBit(mask, k);
      ClearLowest(mask, k);
    }
  }

  lemma HighestOut(mask: nat, width: nat)
    requires 0 < mask < Pow2(width)
    ensures var t := width - 1 - LeadingZeros(mask, width);
      t in Bits(mask, width) && forall k :: k in Bits(mask, width) ==> k <= t
    ensures Bits(WithoutHighest(mask, width), width) == Bits(mask, width) - {width - 1 - LeadingZeros(mask, width)}
    ensures WithoutHighest(mask, width) < Pow2(width)
  {
    var t, rest := width - 1 - LeadingZeros(mask, width), WithoutHighest(mask, width);
    HighestBit(mask, width, 0);
    AndBelow(mask, ShiftRight(Pow2(width) - 1, LeadingZeros(mask, width) + 1));
    forall k: nat | k < width ensures (Bit(mask, k) ==> k <= t) && (Bit(rest, k) <==> Bit(mask, k) && k != t) {
      HighestBit(mask, width, k);
      ClearHighest(mask, width, k);
    }
  }

  // ---- the mask of a chunk ----

  type Bytes = seq<nat>

  /** Bit k of the mask says whether byte k is the wanted one. */
  function MaskOf(chunk: Bytes, needle: nat): (mask: nat)
    ensures mask < Pow2(|chunk|)
  {
    if chunk == [] then 0
    else (if chunk[0] == needle then 1 else 0) + 2 * MaskOf(chunk[1..], needle)
  }

  lemma {:induction false} MaskBit(chunk: Bytes, needle: nat, k: nat)
    ensures Bit(MaskOf(chunk, needle), k) <==> k < |chunk| && chunk[k] == needle
  {
    if chunk == [] {
      ZeroBit(k);
    } else {
      assert MaskOf(chunk, needle) / 2 == MaskOf(chunk[1..], needle);
      if k > 0 { MaskBit(chunk[1..], needle, k - 1); }
    }
  }

  // ---- iterating ----

  predicate Match(hay: Bytes, needle: nat, p: int) {
    0 <= p < |hay| && hay[p] == needle
  }

  /** The positions of the matches in the chunk at base, inside the window, counted from base. */
  ghost function MatchBits(hay: Bytes, needle: nat, base: nat, lo: int, hi: int): set<nat> {
    set k: nat | k < 16 && InWindow(hay, needle, base, lo, hi, k)
  }

  predicate InWindow(hay: Bytes, needle: nat, base: nat, lo: int, hi: int, k: nat) {
    Match(hay, needle, base + k) && lo <= base + k < hi
  }

  ghost predicate Fits(hay: Bytes, needle: nat, base: nat, bits: set<nat>, lo: int, hi: int) {
    bits == MatchBits(hay, needle, base, lo, hi)
  }

  ghost predicate NoMatch(hay: Bytes, needle: nat, lo: int, hi: int) {
    forall p :: lo <= p < hi ==> !Match(hay, needle, p)
  }

  lemma NoneLeft(hay: Bytes, needle: nat, base: nat, lo: int, hi: int)
    requires Fits(hay, needle, base, {}, lo, hi)
    ensures NoMatch(hay, needle, if lo < base then base else lo, if hi > base + 16 then base + 16 else hi)
  {
    forall p | lo <= p < hi && base <= p < base + 16 ensures !Match(hay, needle, p) {
      var k: nat := p - base;
      var none: set<nat> := {};
      assert p == base + k && k !in none && !InWindow(hay, needle, base, lo, hi, k);
    }
  }

  lemma TakeLeast(hay: Bytes, needle: nat, base: nat, bits: set<nat>, t: nat, lo: int, hi: int)
    requires Fits(hay, needle, base, bits, lo, hi) && t in bits && forall k :: k in bits ==> t <= k
    ensures Match(hay, needle, base + t) && lo <= base + t < hi && t < 16
    ensures NoMatch(hay, needle, if lo < base then base else lo, base + t)
    ensures Fits(hay, needle, base, bits - {t}, base + t + 1, hi)
  {
    forall p | lo <= p < base + t && base <= p ensures !Match(hay, needle, p) {
      assert p == base + (p - base) && p - base !in bits && !InWindow(hay, needle, base, lo, hi, p - base);
    }
  }

  lemma TakeGreatest(hay: Bytes, needle: nat, base: nat, bits: set<nat>, t: nat, lo: int, hi: int)
    requires Fits(hay, needle, base, bits, lo, hi) && t in bits && forall k :: k in bits ==> k <= t
    ensures Match(hay, needle, base + t) && lo <= base + t < hi && t < 16
    ensures NoMatch(hay, needle, base + t + 1, if hi > base + 16 then base + 16 else hi)
    ensures Fits(hay, needle, base, bits - {t}, lo, base + t)
  {
    forall p | base + t < p < hi && p < base + 16 ensures !Match(hay, needle, p) {
      assert p == base + (p - base) && p - base !in bits && !InWindow(hay, needle, base, lo, hi, p - base);
    }
  }

  lemma FreshMask(hay: Bytes, needle: nat, base: nat, lo: int, hi: int)
    requires lo <= base && base + 16 <= |hay| && base + 16 <= hi
    ensures MaskOf(hay[base..base + 16], needle) < Pow2(LANES)
    ensures Fits(hay, needle, base, Bits(MaskOf(hay[base..base + 16], needle), LANES), lo, hi)
  {
    var chunk := hay[base..base + 16];
    forall k: nat
      ensures k in Bits(MaskOf(chunk, needle), LANES) <==>
        k < 16 && Match(hay, needle, base + k) && lo <= base + k < hi {
      MaskBit(chunk, needle, k);
      assert k < 16 ==> chunk[k] == hay[base + k];
    }
  }

  /** Going up, after i chunks: no match between floor and the chunk last looked at; the mask has those in it from
      floor on. */
  ghost predicate Up(hay: Bytes, needle: nat, i: nat, mask: nat, floor: nat) {
    && |hay| % 16 == 0 && i * 16 <= |hay| && floor <= i * 16
    && if i == 0 then mask == 0
       else
         && mask < Pow2(LANES) && Fits(hay, needle, i * 16 - 16, Bits(mask, LANES), floor, |hay|)
         && NoMatch(hay, needle, floor, i * 16 - 16)
  }

  lemma NoMatchJoins(hay: Bytes, needle: nat, lo: int, mid: int, hi: int)
    requires NoMatch(hay, needle, lo, mid) && NoMatch(hay, needle, if lo < mid then mid else lo, hi)
    ensures NoMatch(hay, needle, lo, hi)
  {
    forall p | lo <= p < hi ensures !Match(hay, needle, p) {}
  }

  lemma TakeLowest(hay: Bytes, needle: nat, base: nat, mask: nat, floor: nat)
    requires 0 < mask < Pow2(LANES) && Fits(hay, needle, base, Bits(mask, LANES), floor, |hay|)
    requires NoMatch(hay, needle, floor, base)
    ensures var idx := base + TrailingZeros(mask);
      && Match(hay, needle, idx) && floor <= idx < base + 16 && NoMatch(hay, needle, floor, idx)
      && WithoutLowest(mask) < Pow2(LANES)
      && Fits(hay, needle, base, Bits(WithoutLowest(mask), LANES), idx + 1, |hay|)
  {
    LowestOut(mask, LANES);
    TakeLeast(hay, needle, base, Bits(mask, LANES), TrailingZeros(mask), floor, |hay|);
    NoMatchJoins(hay, needle, floor, base, base + TrailingZeros(mask));
  }

  lemma UpTakes(hay: Bytes, needle: nat, i: nat, mask: nat, floor: nat)
    requires Up(hay, needle, i, mask, floor) && mask > 0
    ensures var idx := (i - 1) * 16 + TrailingZeros(mask);
      && Match(hay, needle, idx) && floor <= idx && NoMatch(hay, needle, floor, idx)
      && Up(hay, needle, i, WithoutLowest(mask), idx + 1)
  {
    TakeLowest(hay, needle, i * 16 - 16, mask, floor);
  }

  lemma UpAdvances(hay: Bytes, needle: nat, i: nat, floor: nat)
    requires Up(hay, needle, i, 0, floor)
    ensures NoMatch(hay, needle, floor, i * 16)
    ensures i < |hay| / 16 ==> Up(hay, needle, i + 1, MaskOf(hay[i * 16..i * 16 + 16], needle), floor)
  {
    assert (i + 1) * 16 - 16 == i * 16;
    if i > 0 {
      NoBits(LANES);
      NoneLeft(hay, needle, i * 16 - 16, floor, |hay|);
    }
    if i < |hay| / 16 { FreshMask(hay, needle, i * 16, floor, |hay|); }
  }

  /** Going down, after i chunks: no match between the chunk last looked at and ceiling; the mask has those in it
      below ceiling. */
  ghost predicate Down(hay: Bytes, needle: nat, i: nat, mask: nat, ceiling: nat) {
    && |hay| % 16 == 0 && i * 16 <= |hay| && |hay| - i * 16 <= ceiling <= |hay|
    && if i == 0 then mask == 0
       else
         && mask < Pow2(LANES) && Fits(hay, needle, |hay| - i * 16, Bits(mask, LANES), 0, ceiling)
         && NoMatch(hay, needle, |hay| - i * 16 + 16, ceiling)
  }

  lemma TakeHighest(hay: Bytes, needle: nat, base: nat, mask: nat, ceiling: nat)
    requires 0 < mask < Pow2(LANES) && Fits(hay, needle, base, Bits(mask, LANES), 0, ceiling)
    requires NoMatch(hay, needle, base + 16, ceiling)
    ensures var idx := base + 15 - LeadingZeros(mask, LANES);
      && base <= idx < ceiling && Match(hay, needle, idx) && NoMatch(hay, needle, idx + 1, ceiling)
      && WithoutHighest(mask, LANES) < Pow2(LANES)
      && Fits(hay, needle, base, Bits(WithoutHighest(mask, LANES), LANES), 0, idx)
  {
    var t := 15 - LeadingZeros(mask, LANES);
    HighestOut(mask, LANES);
    TakeGreatest(hay, needle, base, Bits(mask, LANES), t, 0, ceiling);
    NoMatchJoins(hay, needle, base + t + 1, if ceiling > base + 16 then base + 16 else ceiling, ceiling);
  }

  lemma DownTakes(hay: Bytes, needle: nat, i: nat, mask: nat, ceiling: nat)
    requires Down(hay, needle, i, mask, ceiling) && mask > 0
    ensures mask < Pow2(LANES)
    ensures var z := LeadingZeros(mask, LANES);
      var idx := (|hay| / 16 - i + 1) * 16 - z - 1;
      && 0 <= idx < ceiling && Match(hay, needle, idx) && NoMatch(hay, needle, idx + 1, ceiling)
      && Down(hay, needle, i, WithoutHighest(mask, LANES), idx)
  {
    assert (|hay| / 16 - i) * 16 == |hay| - i * 16;
    TakeHighest(hay, needle, |hay| - i * 16, mask, ceiling);
  }

  lemma DownAdvances(hay: Bytes, needle: nat, i: nat, ceiling: nat)
    requires Down(hay, needle, i, 0, ceiling)
    ensures NoMatch(hay, needle, |hay| - i * 16, ceiling)
    ensures i < |hay| / 16 ==>
      var c := |hay| / 16 - i - 1; Down(hay, needle, i + 1, MaskOf(hay[c * 16..c * 16 + 16], needle), ceiling)
  {
    DownIsEmpty(hay, needle, i, ceiling);
    if i < |hay| / 16 { DownLoads(hay, needle, i, |hay| / 16 - i - 1, ceiling); }
  }

  lemma DownIsEmpty(hay: Bytes, needle: nat, i: nat, ceiling: nat)
    requires Down(hay, needle, i, 0, ceiling)
    ensures NoMatch(hay, needle, |hay| - i * 16, ceiling)
  {
    if i > 0 {
      NoBits(LANES);
      NoneLeft(hay, needle, |hay| - i * 16, 0, ceiling);
    }
  }

  lemma DownLoads(hay: Bytes, needle: nat, i: nat, c: nat, ceiling: nat)
    requires Down(hay, needle, i, 0, ceiling) && NoMatch(hay, needle, |hay| - i * 16, ceiling)
    requires c * 16 + (i + 1) * 16 == |hay|
    ensures Down(hay, needle, i + 1, MaskOf(hay[c * 16..c * 16 + 16], needle), ceiling)
  {
    assert |hay| - (i + 1) * 16 == c * 16;
    FreshMask(hay, needle, c * 16, 0, ceiling);
  }

  /** The iterator: the number of chunks looked at, and what is left of the mask of the last one. */
  class ChunkIter {
    const hay: Bytes
    const needle: nat
    var i: nat
    var mask: nat
    /** Matches below floor (going up), or from ceiling on (going down), have been returned. */
    ghost var floor: nat
    ghost var ceiling: nat

    constructor (hay: Bytes, needle: nat)
      requires |hay| % 16 == 0
      ensures this.hay == hay && this.needle == needle && floor == 0 && ceiling == |hay|
      ensures Up(hay, needle, i, mask, floor) && Down(hay, needle, i, mask, ceiling)
    {
      this.hay, this.needle := hay, needle;
      i, mask, floor, ceiling := 0, 0, 0, |hay|;
    }

    /** Returns the first match not returned yet. */
    method Next() returns (idx: int, found: bool)
      requires Up(hay, needle, i, mask, floor)
      modifies this
      ensures Up(hay, needle, i, mask, floor)
      ensures found ==>
        Match(hay, needle, idx) && old(floor) <= idx && floor == idx + 1 && NoMatch(hay, needle, old(floor), idx)
      ensures !found ==> idx == -1 && NoMatch(hay, needle, old(floor), |hay|)
    {
      LoadNext();
      if mask == 0 { return -1, false; }
      UpTakes(hay, needle, i, mask, floor);
      idx := (i - 1) * 16 + TrailingZeros(mask);
      mask := WithoutLowest(mask);
      floor := idx + 1;
      return idx, true;
    }

    /** Looks at further chunks until one has a match. */
    method LoadNext()
      requires Up(hay, needle, i, mask, floor)
      modifies this`i, this`mask
      ensures Up(hay, needle, i, mask, floor) && (mask == 0 ==> NoMatch(hay, needle, floor, |hay|))
    {
      while mask == 0
        invariant Up(hay, needle, i, mask, floor)
        decreases |hay| - i * 16, mask == 0
      {
        UpAdvances(hay, needle, i, floor);
        if i == |hay| / 16 { return; }
        LoadChunk(i);
      }
    }

    method LoadChunk(c: nat)
      requires c < |hay| / 16
      modifies this`i, this`mask
      ensures i == old(i) + 1 && mask == MaskOf(hay[c * 16..c * 16 + 16], needle)
    {
      mask := MaskOf(hay[c * 16..c * 16 + 16], needle);
      i := i + 1;
    }

    /** Returns the last match not returned yet. */
    method NextRev() returns (idx: int, found: bool)
      requires Down(hay, needle, i, mask, ceiling)
      modifies this
      ensures Down(hay, needle, i, mask, ceiling)
      ensures found ==>
        Match(hay, needle, idx) && idx < old(ceiling) && ceiling == idx && NoMatch(hay, needle, idx + 1, old(ceiling))
      ensures !found ==> idx == -1 && NoMatch(hay, needle, 0, old(ceiling))
    {
      LoadPrevious();
      if mask == 0 { return -1, false; }
      DownTakes(hay, needle, i, mask, ceiling);
      idx := (|hay| / 16 - i + 1) * 16 - LeadingZeros(mask, LANES) - 1;
      mask := WithoutHighest(mask, LANES);
      ceiling := idx;
      return idx, true;
    }

    method LoadPrevious()
      requires Down(hay, needle, i, mask, ceiling)
      modifies this`i, this`mask
      ensures Down(hay, needle, i, mask, ceiling) && (mask == 0 ==> NoMatch(hay, needle, 0, ceiling))
    {
      while mask == 0
        invariant Down(hay, needle, i, mask, ceiling)
        decreases |hay| - i * 16, mask == 0
      {
        DownAdvances(hay, needle, i, ceiling);
        if i == |hay| / 16 { return; }
        LoadChunk(|hay| / 16 - i - 1);
      }
    }
  }

  ghost predicate Increasing(s: seq<int>) {
    forall a, b :: 0 <= a < b < |s| ==> s[a] < s[b]
  }

  ghost predicate Decreasing(s: seq<int>) {
    forall a, b :: 0 <= a < b < |s| ==> s[a] > s[b]
  }

  /** Running the iterator to the end yields every match once, in increasing order. */
  method AllMatches(hay: Bytes, needle: nat) returns (found: seq<int>)
    requires |hay| % 16 == 0
    ensures Increasing(found) && forall p :: p in found <==> Match(hay, needle, p)
  {
    var it := new ChunkIter(hay, needle);
    found := [];
    while true
      invariant it.hay == hay && it.needle == needle && Up(hay, needle, it.i, it.mask, it.floor) && fresh(it)
      invariant Increasing(found) && forall p :: p in found <==> Match(hay, needle, p) && p < it.floor
      decreases |hay| - it.floor
    {
      var idx, more := it.Next();
      if !more { return; }
      assert forall a :: 0 <= a < |found| ==> found[a] in found;
      found := found + [idx];
    }
  }

  /** ... and going backwards, in decreasing order. */
  method AllMatchesRev(hay: Bytes, needle: nat) returns (found: seq<int>)
    requires |hay| % 16 == 0
    ensures Decreasing(found) && forall p :: p in found <==> Match(hay, needle, p)
  {
    var it := new ChunkIter(hay, needle);
    found := [];
    while true
      invariant it.hay == hay && it.needle == needle && Down(hay, needle, it.i, it.mask, it.ceiling) && fresh(it)
      invariant Decreasing(found) && forall p :: p in found <==> Match(hay, needle, p) && p >= it.ceiling
      decreases it.ceiling
    {
      var idx, more := it.NextRev();
      if !more { return; }
      assert forall a :: 0 <= a < |found| ==> found[a] in found;
      found := found + [idx];
    }
  }
}
