/**
  Variable-length integers (section 7.6 of DWARF Version 4): seven bits a byte, least significant
  first, the high bit set on all bytes but the last.
 */
module Leb128 {
  import opened Basics

  type Byte = b: nat | b < 256

  /** A value read from the front of a stream, and what follows it. */
  datatype Read<T> = Read(value: T, rest: seq<Byte>)

  // ---- the format ----

  function Unsigned(v: nat): seq<Byte> {
    if v < 128 then [v] else [128 + v % 128] + Unsigned(v / 128)
  }

  function Signed(v: int): seq<Byte>
    decreases if v < 0 then -v else v
  {
    if -64 <= v < 64 then [v % 128] else [128 + v % 128] + Signed(v / 128)
  }

  function ReadUnsigned(bytes: seq<Byte>): (r: Option<Read<nat>>)
    ensures r.Some? ==> |r.value.rest| < |bytes|
  {
    if bytes == [] then None
    else if bytes[0] < 128 then Some(Read(bytes[0], bytes[1..]))
    else match ReadUnsigned(bytes[1..])
      case None => None
      case Some(r) => Some(Read(bytes[0] - 128 + 128 * r.value, r.rest))
  }

  /** Bit 6 of the last byte is the sign. */
  function ReadSigned(bytes: seq<Byte>): (r: Option<Read<int>>)
    ensures r.Some? ==> |r.value.rest| < |bytes|
  {
    if bytes == [] then None
    else if bytes[0] < 128 then
      var v: int := if bytes[0] < 64 then bytes[0] as int else bytes[0] as int - 128;
      Some(Read(v, bytes[1..]))
    else match ReadSigned(bytes[1..])
      case None => None
      case Some(r) =>
        var v: int := bytes[0] as int - 128 + 128 * r.value;
        Some(Read(v, r.rest))
  }

  lemma UnsignedStarts(v: nat)
    ensures Unsigned(v) == if v / 128 != 0 then [128 + v % 128] + Unsigned(v / 128) else [v % 128]
  {
  }

  lemma JoinFirst(before: seq<Byte>, first: Byte, rest: seq<Byte>)
    ensures before + ([first] + rest) == before + [first] + rest
  {
  }

  /** Reading back gives the value and leaves the rest of the stream. */
  lemma {:induction false} UnsignedRoundTrip(v: nat, rest: seq<Byte>)
    ensures ReadUnsigned(Unsigned(v) + rest) == Some(Read(v, rest))
  {
    if v < 128 {
      assert ([v] + rest)[1..] == rest;
    } else {
      var first: Byte := 128 + v % 128;
      assert Unsigned(v) + rest == [first] + (Unsigned(v / 128) + rest);
      assert ([first] + (Unsigned(v / 128) + rest))[1..] == Unsigned(v / 128) + rest;
      UnsignedRoundTrip(v / 128, rest);
    }
  }

  lemma {:induction false} SignedRoundTrip(v: int, rest: seq<Byte>)
    ensures ReadSigned(Signed(v) + rest) == Some(Read(v, rest))
    decreases if v < 0 then -v else v
  {
    if -64 <= v < 64 {
      assert ([v % 128] + rest)[1..] == rest;
    } else {
      var first: Byte := 128 + v % 128;
      assert Signed(v) + rest == [first] + (Signed(v / 128) + rest);
      assert ([first] + (Signed(v / 128) + rest))[1..] == Signed(v / 128) + rest;
      SignedRoundTrip(v / 128, rest);
    }
  }

  /** Nothing shorter reads back to the value, whatever follows it. */
  lemma {:induction false} UnsignedIsShortest(bytes: seq<Byte>, v: nat, rest: seq<Byte>)
    requires ReadUnsigned(bytes) == Some(Read(v, rest))
    ensures |Unsigned(v)| + |rest| <= |bytes|
  {
    if bytes[0] >= 128 { UnsignedIsShortest(bytes[1..], v / 128, rest); }
  }

  lemma {:induction false} SignedIsShortest(bytes: seq<Byte>, v: int, rest: seq<Byte>)
    requires ReadSigned(bytes) == Some(Read(v, rest))
    ensures |Signed(v)| + |rest| <= |bytes|
  {
    if bytes[0] >= 128 { SignedIsShortest(bytes[1..], v / 128, rest); }
  }

  // ---- the fixed-width form ----

  function Pow128(n: nat): (p: nat)
    ensures p > 0
  {
    if n == 0 then 1 else 128 * Pow128(n - 1)
  }

  /** Exactly n bytes, padded with zero groups; higher groups are lost. */
  function Fixed(v: nat, n: nat): (bytes: seq<Byte>)
    ensures |bytes| == n
  {
    if n == 0 then [] else if n == 1 then [v % 128] else [128 + v % 128] + Fixed(v / 128, n - 1)
  }

  lemma {:induction false} FixedReads(v: nat, n: nat, rest: seq<Byte>)
    requires n > 0
    ensures ReadUnsigned(Fixed(v, n) + rest) == Some(Read(v % Pow128(n), rest))
  {
    if n == 1 {
      assert ([v % 128] + rest)[1..] == rest;
    } else {
      FixedReads(v / 128, n - 1, rest);
      ModSplits(v, Pow128(n - 1));
      FixedReadsMore(v, n, (v / 128) % Pow128(n - 1), rest);
    }
  }

  lemma FixedReadsMore(v: nat, n: nat, high: nat, rest: seq<Byte>)
    requires n > 1 && ReadUnsigned(Fixed(v / 128, n - 1) + rest) == Some(Read(high, rest))
    ensures ReadUnsigned(Fixed(v, n) + rest) == Some(Read(v % 128 + 128 * high, rest))
  {
    var first: Byte := 128 + v % 128;
    var tail := Fixed(v / 128, n - 1) + rest;
    assert Fixed(v, n) + rest == [first] + tail;
    assert ([first] + tail)[1..] == tail;
  }

  /** The padded form reads back to the value, if it fits: it means what the plain form means. */
  lemma FixedRoundTrip(v: nat, n: nat, rest: seq<Byte>)
    requires n > 0
    ensures ReadUnsigned(Fixed(v, n) + rest) == Some(Read(v % Pow128(n), rest))
    ensures v < Pow128(n) ==> ReadUnsigned(Fixed(v, n) + rest) == ReadUnsigned(Unsigned(v) + rest)
  {
    FixedReads(v, n, rest);
    UnsignedRoundTrip(v, rest);
    SmallRemainder(v, Pow128(n));
  }

  lemma ModSplits(v: nat, p: nat)
    requires p > 0
    ensures v % 128 + 128 * ((v / 128) % p) == v % (128 * p)
  {
    var q, r := v / 128 / p, (v / 128) % p;
    assert v / 128 == p * q + r;
    assert v == 128 * p * q + (v % 128 + 128 * r);
    Remainder(128 * p, q, v % 128 + 128 * r);
  }

  lemma Remainder(m: nat, q: nat, r: nat)
    requires r < m
    ensures (m * q + r) % m == r
  {
    var x := m * q + r;
    var k := q - x / m;
    assert x == m * (x / m) + x % m;
    assert m * k == m * q - m * (x / m);
    Apart(m, k);
  }

  /** The two forms are the same bytes exactly when the width is the one the value needs. */
  lemma {:induction false} FixedIsUnsigned(v: nat, n: nat)
    requires n > 0
    ensures Fixed(v, n) == Unsigned(v) <==> |Unsigned(v)| == n
  {
    if n > 1 && v >= 128 {
      FixedIsUnsigned(v / 128, n - 1);
      assert Fixed(v, n)[1..] == Fixed(v / 128, n - 1) && Unsigned(v)[1..] == Unsigned(v / 128);
    } else if v >= 128 {
      assert |Unsigned(v / 128)| > 0;
    }
  }

  // ---- writing ----

  class ByteBuffer {
    var bytes: seq<Byte>

    constructor ()
      ensures bytes == []
    {
      bytes := [];
    }

    method Append(more: seq<Byte>)
      modifies this
      ensures bytes == old(bytes) + more
    {
      bytes := bytes + more;
    }

    /** Appends an unsigned value. */
    method PutUnsigned(value: nat)
      modifies this
      ensures bytes == old(bytes) + Unsigned(value)
    {
      var v := value;
      while true
        invariant bytes + Unsigned(v) == old(bytes) + Unsigned(value)
        decreases v
      {
        var byte: Byte := v % 128;
        ghost var was := v;
        v := v / 128;
        if v != 0 { byte := byte + 128; }
        UnsignedStarts(was);
        JoinFirst(bytes, byte, Unsigned(v));
        bytes := bytes + [byte];
        if v == 0 { break; }
      }
    }

    /** Appends a signed value; shifting right keeps the sign. */
    method PutSigned(value: int)
      modifies this
      ensures bytes == old(bytes) + Signed(value)
    {
      var v := value;
      while true
        invariant bytes + Signed(v) == old(bytes) + Signed(value)
        decreases if v < 0 then -v else v
      {
        var byte: Byte := v % 128;
        ghost var was := v;
        v := v / 128;
        var sign := byte >= 64;
        var done := (v == 0 && !sign) || (v == -1 && sign);
        if !done { byte := byte + 128; }
        assert Signed(was) == if done then [byte] else [byte] + Signed(v);
        bytes := bytes + [byte];
        if done { break; }
      }
    }
  }

  /** Fills the buffer with the padded form. */
  method PutFixed(buf: array<Byte>, value: nat)
    modifies buf
    ensures buf[..] == Fixed(value, buf.Length)
  {
    var v := value;
    for i := 0 to buf.Length
      invariant buf[..i] + Fixed(v, buf.Length - i) == Fixed(value, buf.Length)
    {
      ghost var was := v;
      buf[i] := v % 128;
      v := v / 128;
      if i != buf.Length - 1 { buf[i] := buf[i] + 128; }
      assert Fixed(was, buf.Length - i) == [buf[i]] + Fixed(v, buf.Length - i - 1);
      assert buf[..i + 1] == buf[..i] + [buf[i]];
    }
  }
}
