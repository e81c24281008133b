/**
 Numbers in groups of seven bits and length-prefixed strings, as LevelDB's files
 and nanopb's messages share them.
 */
module Varints {
  import opened Basics

  /** Base 128, least significant group first, the top bit of a byte telling that another follows. */
  function Varint(v: nat): (b: seq<byte>)
    ensures |b| > 0
  {
    if v < 128 then [v] else [v % 128 + 128] + Varint(v / 128)
  }

  /** used counts the bytes that reading takes, also when it fails. */
  datatype VarintRead = Number(value: nat, used: nat) | Broken(read: nat)

  /** The groups of seven bits from position shift on, in a result of width bits; what is shifted out is lost.
      The positions are disjoint, so adding is the same as combining bits. */
  function ReadVarint(b: seq<byte>, shift: nat, width: nat): (r: VarintRead)
    ensures if r.Number? then 0 < r.used <= |b| else r.read <= |b|
  {
    if shift >= width || b == [] then Broken(0)
    else
      var group := (b[0] % 128 * Pow2(shift)) % Pow2(width);
      if b[0] < 128 then Number(group, 1)
      else
        match ReadVarint(b[1..], shift + 7, width)
        case Broken(n) => Broken(n + 1)
        case Number(v, n) => Number(group + v, n + 1)
  }

  lemma SmallRemainder(a: nat, m: nat)
    requires a < m
    ensures a % m == a
  {
  }

  lemma SplitGroup(v: nat, p: nat)
    ensures v * p == v % 128 * p + v / 128 * (128 * p)
  {
    assert v == v % 128 + 128 * (v / 128);
  }

  lemma Products(a: nat, b: nat)
    ensures a * b >= 0
  {
  }

  lemma PositiveProduct(v: nat, p: nat)
    requires v >= 1 && p > 0
    ensures v * p >= p
  {
  }

  lemma SmallPow2()
    ensures Pow2(7) == 128
  {
    assert Pow2(4) == 16;
  }

  lemma {:induction false} Pow2Grows(a: nat, b: nat)
    requires a <= b
    ensures Pow2(a) <= Pow2(b)
  {
    if a < b {
      Pow2Grows(a, b - 1);
    }
  }

  lemma {:induction false} Pow2Less(a: nat, b: nat)
    requires Pow2(a) < Pow2(b)
    ensures a < b
  {
    if b <= a { Pow2Grows(b, a); }
  }

  lemma GroupIsKept(v: nat, shift: nat, width: nat)
    requires v * Pow2(shift) < Pow2(width)
    ensures (v % 128 * Pow2(shift)) % Pow2(width) == v % 128 * Pow2(shift)
  {
    hide Pow2;
    var p := Pow2(shift);
    SplitGroup(v, p);
    Products(v % 128, p);
    Products(v / 128, 128 * p);
    SmallRemainder(v % 128 * p, Pow2(width));
  }

  lemma VarintIs(v: nat)
    ensures v < 128 ==> Varint(v) == [v]
    ensures v >= 128 ==> Varint(v) == [v % 128 + 128] + Varint(v / 128)
  {
  }

  lemma FirstOfVarint(v: nat, tail: seq<byte>)
    ensures Varint(v) + tail != []
    ensures v < 128 ==> |Varint(v)| == 1 && (Varint(v) + tail)[0] == v && v % 128 == v
    ensures v >= 128 ==> (Varint(v) + tail)[0] == v % 128 + 128 && (v % 128 + 128) % 128 == v % 128
                         && (Varint(v) + tail)[1..] == Varint(v / 128) + tail && |Varint(v)| == |Varint(v / 128)| + 1
  {
    hide Varint;
    VarintIs(v);
    var rest := Varint(v / 128);
    var first: byte := v % 128 + 128;
    assert ([first] + rest + tail)[1..] == rest + tail;
  }

  lemma ReadFirst(b: seq<byte>, shift: nat, width: nat)
    requires b != [] && shift < width
    ensures b[0] < 128 ==> ReadVarint(b, shift, width) == Number((b[0] % 128 * Pow2(shift)) % Pow2(width), 1)
    ensures b[0] >= 128 && ReadVarint(b[1..], shift + 7, width).Number? ==>
              ReadVarint(b, shift, width) == Number((b[0] % 128 * Pow2(shift)) % Pow2(width) + ReadVarint(b[1..], shift + 7, width).value,
                                                    ReadVarint(b[1..], shift + 7, width).used + 1)
  {
    hide Pow2;
  }

  /** A number that fits reads back, whatever follows it. */
  lemma {:induction false} VarintReads(v: nat, shift: nat, width: nat, tail: seq<byte>)
    requires v * Pow2(shift) < Pow2(width) && shift < width
    ensures ReadVarint(Varint(v) + tail, shift, width) == Number(v * Pow2(shift), |Varint(v)|)
    decreases v
  {
    hide *;
    var b := Varint(v) + tail;
    FirstOfVarint(v, tail);
    GroupIsKept(v, shift, width);
    ReadFirst(b, shift, width);
    if v >= 128 {
      NextShift(v, shift, width);
      SplitGroup(v, Pow2(shift));
      VarintReads(v / 128, shift + 7, width, tail);
    }
  }

  lemma NextShift(v: nat, shift: nat, width: nat)
    requires v >= 128 && v * Pow2(shift) < Pow2(width)
    ensures Pow2(shift + 7) == 128 * Pow2(shift)
    ensures shift + 7 < width && v / 128 * Pow2(shift + 7) < Pow2(width)
  {
    Pow2Sum(shift, 7);
    SmallPow2();
    var p, q := Pow2(shift), Pow2(shift + 7);
    assert q == 128 * p;
    SplitGroup(v, p);
    Products(v % 128, p);
    PositiveProduct(v / 128, q);
    Pow2Less(shift + 7, width);
  }

  lemma VarintRoundTrip(v: nat, width: nat, tail: seq<byte>)
    requires v < Pow2(width) && width > 0
    ensures ReadVarint(Varint(v) + tail, 0, width) == Number(v, |Varint(v)|)
  {
    assert Pow2(0) == 1;
    VarintReads(v, 0, width, tail);
  }

  /** A number cut short does not read at all. */
  lemma {:induction false} TornVarint(v: nat, shift: nat, width: nat, n: nat)
    requires n < |Varint(v)|
    ensures ReadVarint(Varint(v)[..n], shift, width).Broken?
    decreases v
  {
    if n > 0 && shift < width {
      var b := Varint(v)[..n];
      assert b[0] == v % 128 + 128 && b[1..] == Varint(v / 128)[..n - 1];
      TornVarint(v / 128, shift + 7, width, n - 1);
    }
  }

  // ---------------------------------------------------------------------------
  // LevelDB's readers and writers, over strings
  // ---------------------------------------------------------------------------

  /** What reading one thing off the front of a string gives: the thing and the rest of the string. */
  datatype Got<T> = Got(value: T, rest: seq<byte>)

  function TakeNumber(b: seq<byte>, width: nat): (r: Option<Got<nat>>)
    ensures r.Some? ==> |r.value.rest| < |b|
  {
    var r := ReadVarint(b, 0, width);
    if r.Broken? then None else Some(Got(r.value, b[r.used..]))
  }

  function SliceBytes(s: seq<byte>): seq<byte> {
    Varint(|s|) + s
  }

  function TakeSlice(b: seq<byte>): (r: Option<Got<seq<byte>>>)
    ensures r.Some? ==> |r.value.rest| < |b|
  {
    var n := TakeNumber(b, 32);
    if n.None? || |n.value.rest| < n.value.value then None
    else Some(Got(n.value.rest[..n.value.value], n.value.rest[n.value.value..]))
  }

  lemma NumberReads(v: nat, width: nat, tail: seq<byte>)
    requires (width == 32 && v < TWO32) || (width == 64 && v < TWO64)
    ensures TakeNumber(Varint(v) + tail, width) == Some(Got(v, tail))
  {
    WordBits();
    VarintRoundTrip(v, width, tail);
  }

  lemma SliceReads(s: seq<byte>, tail: seq<byte>)
    requires |s| < TWO32
    ensures TakeSlice(SliceBytes(s) + tail) == Some(Got(s, tail))
  {
    NumberReads(|s|, 32, s + tail);
    assert SliceBytes(s) + tail == Varint(|s|) + (s + tail);
  }

  lemma TornSlice(s: seq<byte>, n: nat)
    requires |s| < TWO32 && n < |SliceBytes(s)|
    ensures TakeSlice(SliceBytes(s)[..n]).None?
  {
    var k := |Varint(|s|)|;
    if n < k {
      TornVarint(|s|, 0, 32, n);
      assert SliceBytes(s)[..n] == Varint(|s|)[..n];
    } else {
      NumberReads(|s|, 32, s[..n - k]);
      assert SliceBytes(s)[..n] == Varint(|s|) + s[..n - k];
    }
  }

  /** GetVarint32 and GetVarint64. */
  method GetVarint(input: seq<byte>, width: nat) returns (r: Option<Got<nat>>)
    ensures r == TakeNumber(input, width)
  {
    hide Pow2;
    var p: nat, shift: nat, result: nat := 0, 0, 0;
    while shift < width && p < |input|
      invariant p <= |input|
      invariant match ReadVarint(input[p..], shift, width)
                case Broken(_) => ReadVarint(input, 0, width).Broken?
                case Number(v, n) => ReadVarint(input, 0, width) == Number(result + v, p + n)
    {
      var group := input[p] % 128;
      assert input[p..][1..] == input[p + 1..];
      p, shift, result := p + 1, shift + 7, result + (group * Pow2(shift)) % Pow2(width);
      if input[p - 1] < 128 {
        return Some(Got(result, input[p..]));
      }
    }
    r := None;
  }

  method GetLengthPrefixedSlice(input: seq<byte>) returns (r: Option<Got<seq<byte>>>)
    ensures r == TakeSlice(input)
  {
    var len := GetVarint(input, 32);
    if len.Some? && |len.value.rest| >= len.value.value {
      r := Some(Got(len.value.rest[..len.value.value], len.value.rest[len.value.value..]));
    } else {
      r := None;
    }
  }

  /** EncodeVarint32 writes each length in its own branch. */
  method PutVarint32(dst: seq<byte>, v: nat) returns (r: seq<byte>)
    requires v < TWO32
    ensures r == dst + Varint(v)
  {
    var a, b, c, d := v / 128, v / 128 / 128, v / 128 / 128 / 128, v / 128 / 128 / 128 / 128;
    if v < 0x80 {
      r := dst + [v];
    } else if v < 0x4000 {
      r := dst + [v % 128 + 128, a];
    } else if v < 0x20_0000 {
      r := dst + [v % 128 + 128, a % 128 + 128, b];
      assert Varint(a) == [a % 128 + 128, b];
    } else if v < 0x1000_0000 {
      r := dst + [v % 128 + 128, a % 128 + 128, b % 128 + 128, c];
      assert Varint(b) == [b % 128 + 128, c];
      assert Varint(a) == [a % 128 + 128] + Varint(b);
    } else {
      r := dst + [v % 128 + 128, a % 128 + 128, b % 128 + 128, c % 128 + 128, d];
      assert Varint(c) == [c % 128 + 128, d];
      assert Varint(b) == [b % 128 + 128] + Varint(c);
      assert Varint(a) == [a % 128 + 128] + Varint(b);
    }
  }

  /** EncodeVarint64 is a loop. */
  method PutVarint64(dst: seq<byte>, value: nat) returns (r: seq<byte>)
    ensures r == dst + Varint(value)
  {
    var v := value;
    r := dst;
    while v >= 128
      invariant r + Varint(v) == dst + Varint(value)
    {
      assert r + Varint(v) == r + [v % 128 + 128] + Varint(v / 128);
      r := r + [v % 128 + 128];
      v := v / 128;
    }
    r := r + [v];
  }

  method PutLengthPrefixedSlice(dst: seq<byte>, value: seq<byte>) returns (r: seq<byte>)
    requires |value| < TWO32
    ensures r == dst + SliceBytes(value)
  {
    r := PutVarint32(dst, |value|);
    r := r + value;
  }
}
