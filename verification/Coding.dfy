/** Fixed-width numbers in files, least significant byte first. */
module Coding {
  import opened Basics

  type word = x: int | 0 <= x < 0x1_0000_0000

  function Low(n: nat): byte { n % 256 }

  function EncodeFixed32(v: word): (s: seq<byte>)
    ensures |s| == 4
  {
    [Low(v), Low(v as nat / 256), Low(v as nat / 256 / 256), Low(v as nat / 256 / 256 / 256)]
  }

  function DecodeFixed32(s: seq<byte>): word
    requires |s| == 4
  {
    s[0] as int + 256 * (s[1] as int + 256 * (s[2] as int + 256 * s[3] as int))
  }

  lemma FixedRoundTrip(v: word)
    ensures DecodeFixed32(EncodeFixed32(v)) == v
  {
  }

  function EncodeFixed64(v: nat): (s: seq<byte>)
    requires v < TWO32 * TWO32
    ensures |s| == 8
  {
    EncodeFixed32(v % TWO32) + EncodeFixed32(v / TWO32)
  }

  function DecodeFixed64(s: seq<byte>): nat
    requires |s| == 8
  {
    DecodeFixed32(s[..4]) as nat + TWO32 * DecodeFixed32(s[4..]) as nat
  }

  lemma Fixed64RoundTrip(v: nat)
    requires v < TWO32 * TWO32
    ensures DecodeFixed64(EncodeFixed64(v)) == v
  {
    hide EncodeFixed32, DecodeFixed32;
    FixedRoundTrip(v % TWO32);
    FixedRoundTrip(v / TWO32);
    assert EncodeFixed64(v)[..4] == EncodeFixed32(v % TWO32);
    assert EncodeFixed64(v)[4..] == EncodeFixed32(v / TWO32);
  }

  function Fixed32s(ns: seq<nat>): (r: seq<byte>)
    requires forall i :: 0 <= i < |ns| ==> ns[i] < 0x1_0000_0000
    ensures |r| == 4 * |ns|
  {
    if ns == [] then [] else EncodeFixed32(ns[0]) + Fixed32s(ns[1..])
  }

  lemma {:induction false} Fixed32At(ns: seq<nat>, i: nat)
    requires i < |ns| && forall i :: 0 <= i < |ns| ==> ns[i] < 0x1_0000_0000
    ensures Fixed32s(ns)[4 * i..4 * i + 4] == EncodeFixed32(ns[i])
  {
    if i > 0 {
      Fixed32At(ns[1..], i - 1);
    }
  }
}
