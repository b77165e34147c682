/**
  The table of interned nodes as two parallel buffers whose capacity is a multiple of sixteen; the
  hashes behind the last entry are zero, so that the chunked search can run over the whole buffer.
 */
module ChunkedTable {
  import opened GraphNodes
  import opened Interning
  import opened ChunkSearch

  // ---- the hash ----

  function WordSum(words: seq<nat>): nat {
    if words == [] then 0 else words[0] + WordSum(words[1..])
  }

  function Fold(x: bv32): bv32 { x ^ (x >> 16) }

  function FoldLess(x: bv32): bv32 { x ^ (x >> 13) }

  function Multiply(x: bv32): bv32 { x * 0x85eb_ca6b }

  function MultiplyAgain(x: bv32): bv32 { x * 0xc2b2_ae35 }

  function Scramble(x: bv32): bv32 { Fold(MultiplyAgain(FoldLess(Multiply(Fold(x))))) }

  // The way back, step by step: the factors have inverses modulo 2^32.

  function UnfoldLess(x: bv32): bv32 { x ^ (x >> 13) ^ (x >> 26) }

  function Divide(x: bv32): bv32 { x * 0xa5cb_9243 }

  function DivideAgain(x: bv32): bv32 { x * 0x7ed1_b41d }

  function Unscramble(y: bv32): bv32 { Fold(Divide(UnfoldLess(DivideAgain(Fold(y))))) }

  lemma FoldBack(x: bv32)
    ensures Fold(x ^ (x >> 16)) == x
  {
  }

  lemma FoldTwice(x: bv32)
    ensures Fold(Fold(x)) == x
  {
    FoldBack(x);
    assert Fold(x) == x ^ (x >> 16);
  }

  lemma FoldLessBack(x: bv32)
    ensures UnfoldLess(x ^ (x >> 13)) == x
  {
  }

  lemma UnfoldsLess(x: bv32)
    ensures UnfoldLess(FoldLess(x)) == x
  {
    FoldLessBack(x);
    assert FoldLess(x) == x ^ (x >> 13);
  }

  lemma MultiplyBack(x: bv32)
    ensures Divide(x * 0x85eb_ca6b) == x && DivideAgain(x * 0xc2b2_ae35) == x
  {
  }

  lemma Divides(x: bv32)
    ensures Divide(Multiply(x)) == x && DivideAgain(MultiplyAgain(x)) == x
  {
    MultiplyBack(x);
    assert Multiply(x) == x * 0x85eb_ca6b && MultiplyAgain(x) == x * 0xc2b2_ae35;
  }

  lemma StepsBack(x: bv32, a: bv32, b: bv32, c: bv32, d: bv32, y: bv32)
    requires Fold(x) == a && Multiply(a) == b && FoldLess(b) == c && MultiplyAgain(c) == d && Fold(d) == y
    requires Fold(y) == d && DivideAgain(d) == c && UnfoldLess(c) == b && Divide(b) == a && Fold(a) == x
    ensures Scramble(x) == y && Unscramble(y) == x
  {
  }

  /** Scrambling loses nothing: different sums stay different until they are cut to a byte. */
  lemma ScrambleLosesNothing(x: bv32)
    ensures Unscramble(Scramble(x)) == x
  {
    var a := Fold(x);
    var b := Multiply(a);
    var c := FoldLess(b);
    var d := MultiplyAgain(c);
    FoldTwice(x);
    Divides(a);
    UnfoldsLess(b);
    Divides(c);
    FoldTwice(d);
    StepsBack(x, a, b, c, d, Fold(d));
  }

  /** How many 32-bit words there are. */
  const WORDS: nat := 0x1_0000_0000

  function RawSum(c: Content): nat { c.spec.rtype + 0x1_0000 * c.spec.meta + WordSum(c.extra) + WordSum(c.inputs) }

  function ContentSum(c: Content): (sum: nat)
    ensures sum < WORDS
  {
    RawSum(c) % WORDS
  }

  function LowByte(x: bv32): (b: nat)
    ensures b <= 255
  {
    assert x & 0xff <= 0xff;
    (x & 0xff) as nat
  }

  /** One byte, never zero: zero marks an empty slot. The words are added up, so their order does not matter. */
  function NodeHash(c: Content): (h: nat)
    ensures 1 <= h <= 255
  {
    var low := LowByte(Scramble(ContentSum(c) as bv32));
    if low == 0 then 1 else low
  }

  lemma {:induction false} WordSumAt(words: seq<nat>, k: nat, v: nat)
    requires k < |words|
    ensures WordSum(words[k := v]) == WordSum(words) - words[k] + v
  {
    if k == 0 {
      assert words[0 := v][1..] == words[1..];
    } else {
      assert words[k := v][1..] == words[1..][k - 1 := v];
      WordSumAt(words[1..], k - 1, v);
    }
  }

  lemma SumsDiffer(a: nat, b: nat, x: nat, y: nat)
    requires b == a - x + y && x != y && x < WORDS && y < WORDS
    ensures a % WORDS != b % WORDS
  {
    var q, r := a / WORDS, b / WORDS;
    assert a == WORDS * q + a % WORDS && b == WORDS * r + b % WORDS;
  }

  /** The sum tells contents apart that differ in one input or in one word of payload. */
  lemma OneInputTells(c: Content, k: nat, v: Id)
    requires k < |c.inputs| && v != c.inputs[k] && v < WORDS && c.inputs[k] < WORDS
    ensures ContentSum(c.(inputs := c.inputs[k := v])) != ContentSum(c)
  {
    WordSumAt(c.inputs, k, v);
    SumsDiffer(RawSum(c), RawSum(c.(inputs := c.inputs[k := v])), c.inputs[k], v);
  }

  lemma OneWordTells(c: Content, k: nat, v: nat)
    requires k < |c.extra| && v != c.extra[k] && v < WORDS && c.extra[k] < WORDS
    ensures ContentSum(c.(extra := c.extra[k := v])) != ContentSum(c)
  {
    WordSumAt(c.extra, k, v);
    SumsDiffer(RawSum(c), RawSum(c.(extra := c.extra[k := v])), c.extra[k], v);
  }

  /** The node tables with this hash. */
  function HashedEnv(kinds: set<nat>): (env: Env)
    ensures env.kinds == kinds && forall c :: env.hash(c) == NodeHash(c)
  {
    Env(NodeHash, kinds)
  }

  lemma HashIsByte(kinds: set<nat>, c: Content)
    ensures 1 <= HashedEnv(kinds).hash(c) <= 255
  {
  }

  // ---- the search ----

  /** The first hit is what the plain scan finds. */
  lemma {:induction false} FirstHitIsFound(nodes: Nodes, table: seq<Entry>, id: Id, hash: nat, i: nat, r: int)
    requires i <= |table| && (r == -1 || (i <= r < |table| && Hit(nodes, table[r], id, hash)))
    requires forall j :: i <= j < |table| && (r == -1 || j < r) ==> !Hit(nodes, table[j], id, hash)
    ensures Find(nodes, table, id, hash, i) == r
    decreases |table| - i
  {
    if i < |table| && i != r { FirstHitIsFound(nodes, table, id, hash, i + 1, r); }
  }

  /** The hashes of the entries come first, and zeros behind them. */
  ghost predicate Mirrors(hay: Bytes, table: seq<Entry>) {
    && |table| <= |hay| && (forall i :: 0 <= i < |table| ==> hay[i] == table[i].hash)
    && (forall i :: |table| <= i < |hay| ==> hay[i] == 0)
  }

  /** No hit among the entries below j. */
  ghost predicate NoHit(nodes: Nodes, table: seq<Entry>, id: Id, hash: nat, j: int) {
    forall i :: 0 <= i < |table| && i < j ==> !Hit(nodes, table[i], id, hash)
  }

  lemma NoMatchNoHit(nodes: Nodes, hay: Bytes, table: seq<Entry>, id: Id, needle: nat, lo: int, hi: int)
    requires Mirrors(hay, table) && NoMatch(hay, needle, lo, hi) && NoHit(nodes, table, id, needle, lo)
    ensures NoHit(nodes, table, id, needle, hi)
  {
    forall i | 0 <= i < |table| && i < hi ensures !Hit(nodes, table[i], id, needle) {
      if i >= lo { assert !Match(hay, needle, i); }
    }
  }

  lemma FoundAt(nodes: Nodes, hay: Bytes, table: seq<Entry>, id: Id, needle: nat, idx: nat)
    requires Mirrors(hay, table) && needle != 0 && Match(hay, needle, idx) && NoHit(nodes, table, id, needle, idx)
    ensures idx < |table|
    ensures Same(nodes, table[idx].id, id) ==> Find(nodes, table, id, needle, 0) == idx
    ensures !Same(nodes, table[idx].id, id) ==> NoHit(nodes, table, id, needle, idx + 1)
  {
    if Same(nodes, table[idx].id, id) { FirstHitIsFound(nodes, table, id, needle, 0, idx); }
  }

  lemma NotFound(nodes: Nodes, hay: Bytes, table: seq<Entry>, id: Id, needle: nat)
    requires Mirrors(hay, table) && NoHit(nodes, table, id, needle, |hay|)
    ensures Find(nodes, table, id, needle, 0) == -1
  {
    FirstHitIsFound(nodes, table, id, needle, 0, -1);
  }

  class SearchTable {
    var hashes: array<nat>
    var ids: array<Id>
    var len: nat

    ghost predicate Valid()
      reads this, hashes, ids
    {
      && hashes != ids && hashes.Length == ids.Length && hashes.Length % 16 == 0 && len <= hashes.Length
      && (forall i :: 0 <= i < len ==> hashes[i] != 0)
      && (forall i :: len <= i < hashes.Length ==> hashes[i] == 0)
    }

    /** The entries, as a plain sequence. */
    ghost function Entries(): seq<Entry>
      reads this, hashes, ids
      requires Valid()
    {
      seq(len, i requires 0 <= i < len reads this, hashes, ids requires Valid() => Entry(hashes[i], ids[i]))
    }

    constructor ()
      ensures Valid() && Entries() == [] && fresh(hashes) && fresh(ids)
    {
      hashes, ids, len := new nat[0], new Id[0], 0;
    }

    /** The chunked search finds what a scan of the entries finds. */
    method FindEntry(nodes: Nodes, id: Id, needle: nat) returns (r: int)
      requires Valid() && needle != 0
      ensures r == Find(nodes, Entries(), id, needle, 0)
    {
      var hay := hashes[..];
      var it := new ChunkIter(hay, needle);
      ghost var table := Entries();
      while true
        invariant it.hay == hay && it.needle == needle && Up(hay, needle, it.i, it.mask, it.floor) && fresh(it)
        invariant NoHit(nodes, table, id, needle, it.floor)
        decreases |hay| - it.floor
      {
        ghost var floor := it.floor;
        var idx, found := it.Next();
        NoMatchNoHit(nodes, hay, table, id, needle, floor, if found then idx else |hay|);
        if !found {
          NotFound(nodes, hay, table, id, needle);
          return -1;
        }
        FoundAt(nodes, hay, table, id, needle, idx);
        if Same(nodes, ids[idx], id) { return idx; }
      }
    }

    /** Doubles the capacity and adds a chunk. */
    method Grow()
      requires Valid()
      modifies this`hashes, this`ids
      ensures Valid() && Entries() == old(Entries()) && hashes.Length == 2 * old(hashes.Length) + 16
      ensures fresh(hashes) && fresh(ids)
    {
      var cap := hashes.Length * 2 + 16;
      var wider := new nat[cap](i => 0);
      var wider' := new Id[cap];
      forall i | 0 <= i < hashes.Length { wider[i] := hashes[i]; }
      forall i | 0 <= i < ids.Length { wider'[i] := ids[i]; }
      hashes, ids := wider, wider';
    }

    method Append(hash: nat, id: Id)
      requires Valid() && len < hashes.Length && hash != 0
      modifies this`len, hashes, ids
      ensures Valid() && Entries() == old(Entries()) + [Entry(hash, id)]
    {
      hashes[len] := hash;
      ids[len] := id;
      len := len + 1;
    }

    method InternNode(kinds: set<nat>, nodes: Nodes, id: Id) returns (r: Id)
      requires Valid() && id in nodes
      modifies this, hashes, ids
      ensures Valid() && (Entries(), r) == Intern(HashedEnv(kinds), nodes, old(Entries()), id)
      ensures fresh(hashes) || hashes == old(hashes)
      ensures fresh(ids) || ids == old(ids)
    {
      var env := HashedEnv(kinds);
      if !Interned(env, nodes[id].content) { return id; }
      HashIsByte(kinds, nodes[id].content);
      var hash := env.hash(nodes[id].content);
      var idx := FindEntry(nodes, id, hash);
      if idx >= 0 { return ids[idx]; }
      if len == hashes.Length { Grow(); }
      Append(hash, id);
      return id;
    }

    /** The last entry takes the place of the removed one, and its old slot becomes empty. */
    method RemoveAt(idx: nat)
      requires Valid() && idx < len
      modifies this`len, hashes, ids
      ensures Valid() && Entries() == SwapRemove(old(Entries()), idx)
    {
      len := len - 1;
      hashes[idx] := hashes[len];
      ids[idx] := ids[len];
      hashes[len] := 0;
      ids[len] := 0;
    }

    method Unintern(kinds: set<nat>, nodes: Nodes, id: Id)
      requires Valid() && id in nodes
      modifies this`len, hashes, ids
      ensures Valid() && Entries() == Uninterned(HashedEnv(kinds), nodes, old(Entries()), id)
    {
      var env := HashedEnv(kinds);
      if !Interned(env, nodes[id].content) { return; }
      HashIsByte(kinds, nodes[id].content);
      var idx := FindEntry(nodes, id, env.hash(nodes[id].content));
      if idx < 0 { return; }
      if ids[idx] != id { return; }
      RemoveAt(idx);
    }
  }
}
