/**
 The scalar encodings of Protocol Buffers as nanopb writes and reads them, and
 its streams. A stream is a struct that the code copies by assignment, so here
 it is a value that each operation takes and gives back.
 */
module ProtoWire {
  import opened Basics
  import opened Varints

  // ---------------------------------------------------------------------------
  // Streams
  // ---------------------------------------------------------------------------

  datatype Error = StreamFull | ArrayMaxSizeExceeded | BytesSizeExceeded | InvalidValue | SizeChanged

  /** An output stream without a callback only counts. */
  datatype OStream = OStream(sizing: bool, out: seq<byte>, max: nat, written: nat)

  function SizingStream(): OStream { OStream(true, [], 0, 0) }

  /** The unread part of the stream is left bytes from pos. */
  datatype IStream = IStream(buf: seq<byte>, pos: nat, left: nat)

  ghost predicate Readable(s: IStream) { s.pos + s.left <= |s.buf| }

  ghost function Unread(s: IStream): (b: seq<byte>)
    requires Readable(s)
  {
    s.buf[s.pos..s.pos + s.left]
  }

  function Skip(s: IStream, n: nat): IStream
    requires n <= s.left
  {
    s.(pos := s.pos + n, left := s.left - n)
  }

  /**
   What an encoder does to a stream when the bytes to encode are e, or cannot be encoded: it succeeds
   exactly when there are bytes and, unless it only counts, room for them; then it counts them and
   writes exactly them.
   */
  ghost predicate Encodes(s: OStream, e: Option<seq<byte>>, error: Option<Error>, t: OStream) {
    && t.sizing == s.sizing && t.max == s.max && (s.sizing ==> t.out == s.out)
    && error != Some(SizeChanged)
    && (error.None? <==> e.Some? && (s.sizing || s.written + |e.value| <= s.max))
    && (error.None? ==> t.written == s.written + |e.value| && t.out == if s.sizing then s.out else s.out + e.value)
  }

  /** One encoding after the other. */
  function Then(a: Option<seq<byte>>, b: Option<seq<byte>>): Option<seq<byte>> {
    if a.None? || b.None? then None else Some(a.value + b.value)
  }

  lemma EncodesThen(s: OStream, a: Option<seq<byte>>, t: OStream, b: Option<seq<byte>>, error: Option<Error>, u: OStream)
    requires Encodes(s, a, None, t) && Encodes(t, b, error, u)
    ensures Encodes(s, Then(a, b), error, u)
  {
  }

  method Write(s: OStream, data: seq<byte>) returns (error: Option<Error>, t: OStream)
    ensures Encodes(s, Some(data), error, t)
  {
    t := s;
    if !s.sizing {
      if s.written + |data| > s.max {
        return Some(StreamFull), t;
      }
      t := t.(out := t.out + data);
    }
    t := t.(written := t.written + |data|);
    error := None;
  }

  /** Counting without data, which only happens on a stream that does not write. */
  method WriteNothing(s: OStream, count: nat) returns (t: OStream)
    requires s.sizing
    ensures forall data: seq<byte> :: |data| == count ==> Encodes(s, Some(data), None, t)
  {
    t := s.(written := s.written + count);
  }

  // ---------------------------------------------------------------------------
  // Numbers
  // ---------------------------------------------------------------------------

  /** pb_encode_varint: the loop fills a buffer, then the last byte loses its top bit. */
  method EncodeVarint(s: OStream, value: nat) returns (error: Option<Error>, t: OStream)
    ensures Encodes(s, Some(Varint(value)), error, t)
  {
    if value <= 0x7F {
      error, t := Write(s, [value]);
      return;
    }
    var buffer: seq<byte> := [];
    var v := value;
    while v != 0
      invariant buffer == [] ==> v == value
      invariant v == 0 ==> buffer != [] && buffer[|buffer| - 1] >= 128
                           && Varint(value) == buffer[..|buffer| - 1] + [buffer[|buffer| - 1] - 128]
      invariant v != 0 ==> Varint(value) == buffer + Varint(v)
    {
      ghost var before := buffer;
      buffer := buffer + [v % 128 + 128];
      assert buffer[..|buffer| - 1] == before;
      assert v >= 128 ==> before + Varint(v) == buffer + Varint(v / 128);
      v := v / 128;
    }
    buffer := buffer[..|buffer| - 1] + [buffer[|buffer| - 1] - 128];
    error, t := Write(s, buffer);
  }

  lemma UnreadRest(s: IStream, n: nat)
    requires Readable(s) && n <= s.left
    ensures |Unread(s)| == s.left && Readable(Skip(s, n)) && Unread(Skip(s, n)) == Unread(s)[n..]
    ensures s.left > 0 ==> s.buf[s.pos] == Unread(s)[0]
  {
    var a, b := Unread(s), Unread(Skip(s, n));
    forall i | 0 <= i < |b| ensures b[i] == a[n..][i] {
    }
  }

  /** What has been read so far, and what the rest gives. */
  ghost predicate PartlyRead(all: VarintRead, value: nat, used: nat, rest: VarintRead) {
    match rest
    case Broken(n) => all == Broken(used + n)
    case Number(v, n) => all == Number(value + v, used + n)
  }

  /** pb_decode_varint and pb_decode_varint32: width is 64 or 32. */
  method DecodeVarint(s: IStream, width: nat) returns (ok: bool, value: nat, t: IStream)
    requires Readable(s)
    ensures Readable(t)
    ensures match ReadVarint(Unread(s), 0, width)
            case Broken(n) => !ok && n <= s.left && t == Skip(s, n)
            case Number(v, n) => ok && value == v && t == Skip(s, n)
  {
    hide Pow2, Unread;
    value, t := 0, s;
    var bitpos := 0;
    UnreadRest(s, 0);
    ghost var used := 0;
    ghost var all := ReadVarint(Unread(s), 0, width);
    while true
      invariant used <= s.left && t == Skip(s, used) && Readable(t) && bitpos >= 0
      invariant PartlyRead(all, value, used, ReadVarint(Unread(t), bitpos, width))
      decreases t.left
    {
      if bitpos >= width || t.left == 0 {
        UnreadRest(t, 0);
        return false, value, t;
      }
      var b := t.buf[t.pos];
      UnreadRest(t, 0);
      UnreadRest(t, 1);
      t, used := Skip(t, 1), used + 1;
      value := value + (b % 128 * Pow2(bitpos)) % Pow2(width);
      bitpos := bitpos + 7;
      if b < 128 {
        return true, value, t;
      }
    }
  }
}
