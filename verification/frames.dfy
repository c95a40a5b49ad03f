/** The device protocol's framing: one type byte, a 16-bit length, the payload.
    `device.WriteMsg` and the client's `writeMsg` build frames; the server's `readLoop`
    and the client's `readMsg` take a byte stream apart again. */
module Frames {
  import opened ByteStrings

  datatype Frame = Frame(typ: byte, data: Bytes)

  /** Why a reader stopped: nothing more to read (or a cut-off frame), or a type it refuses. */
  datatype Stop = Exhausted | UnknownType

  datatype Decoded = Decoded(frames: seq<Frame>, stop: Stop)

  datatype Turn = Got(f: Frame) | Stopped(why: Stop)

  const MAX_FRAME := 0xFFFF
  /** `msgTypeMax` of the server; the client reads any type byte. */
  const SERVER_MAX_TYPE: byte := 9
  const CLIENT_MAX_TYPE: byte := 255

  /** `device.WriteMsg`: the length is cut to 16 bits, the data is not. */
  function WriteMsg(typ: byte, data: Bytes): Bytes {
    [typ] + Put16(|data|) + data
  }

  /** The client's `writeMsg` refuses data that the length field cannot hold. */
  function ClientWriteMsg(typ: byte, data: Bytes): Option<Bytes> {
    if |data| > MAX_FRAME then None else Some(WriteMsg(typ, data))
  }

  function EncodeAll(fs: seq<Frame>): Bytes {
    if fs == [] then [] else WriteMsg(fs[0].typ, fs[0].data) + EncodeAll(fs[1..])
  }

  /** What a reader that accepts types up to `maxType` makes of a whole byte stream. */
  function Decode(s: Bytes, maxType: byte): Decoded
    decreases |s|
  {
    if |s| < 3 then Decoded([], Exhausted)
    else if s[0] > maxType then Decoded([], UnknownType)
    else
      var n := Get16(s[1..3]);
      if |s| < 3 + n then Decoded([], Exhausted)
      else
        var rest := Decode(s[3 + n..], maxType);
        Decoded([Frame(s[0], s[3..3 + n])] + rest.frames, rest.stop)
  }

  predicate Sendable(f: Frame, maxType: byte) { |f.data| <= MAX_FRAME && f.typ <= maxType }

  lemma DecodeFrame(typ: byte, data: Bytes, tail: Bytes, maxType: byte)
    requires typ <= maxType
    ensures var d := Decode(WriteMsg(typ, data) + tail, maxType);
            && d.frames != []
            && d.frames[0].typ == typ
            && |d.frames[0].data| == |data| % 0x1_0000
            && (|data| <= MAX_FRAME ==>
                  d == Decoded([Frame(typ, data)] + Decode(tail, maxType).frames, Decode(tail, maxType).stop))
  {
    var s := WriteMsg(typ, data) + tail;
    var n := |data| % 0x1_0000;
    assert s[1..3] == Put16(|data|);
    Get16Put16(|data|);
    assert s[3..] == data + tail;
    if |data| <= MAX_FRAME {
      assert n == |data|;
      assert s[3..3 + n] == data && s[3 + n..] == tail;
    }
  }

  /** One written message arrives as it was sent exactly when the 16-bit length can hold it. */
  lemma FrameArrivesIntact(typ: byte, data: Bytes, tail: Bytes, maxType: byte)
    requires typ <= maxType
    ensures var d := Decode(WriteMsg(typ, data) + tail, maxType);
            (d.frames != [] && d.frames[0] == Frame(typ, data)) <==> |data| <= 65535
  {
    DecodeFrame(typ, data, tail, maxType);
  }

  /** Frames written before some other bytes come first, whatever those bytes are. */
  lemma {:induction false} DecodeAppend(fs: seq<Frame>, tail: Bytes, maxType: byte)
    requires forall f :: f in fs ==> Sendable(f, maxType)
    ensures var rest := Decode(tail, maxType);
            Decode(EncodeAll(fs) + tail, maxType) == Decoded(fs + rest.frames, rest.stop)
  {
    if fs == [] {
      assert EncodeAll(fs) + tail == tail;
      assert fs + Decode(tail, maxType).frames == Decode(tail, maxType).frames;
    } else {
      var f, more := fs[0], EncodeAll(fs[1..]) + tail;
      assert f in fs;
      calc {
        Decode(EncodeAll(fs) + tail, maxType);
        { assert EncodeAll(fs) + tail == WriteMsg(f.typ, f.data) + more; }
        Decode(WriteMsg(f.typ, f.data) + more, maxType);
        { DecodeFrame(f.typ, f.data, more, maxType); }
        Decoded([f] + Decode(more, maxType).frames, Decode(more, maxType).stop);
        { DecodeAppend(fs[1..], tail, maxType); }
        Decoded([f] + (fs[1..] + Decode(tail, maxType).frames), Decode(tail, maxType).stop);
        { assert [f] + (fs[1..] + Decode(tail, maxType).frames) == fs + Decode(tail, maxType).frames; }
        Decoded(fs + Decode(tail, maxType).frames, Decode(tail, maxType).stop);
      }
    }
  }

  /** The stream of any sequence of sendable frames decodes to exactly that sequence. */
  lemma RoundTrip(fs: seq<Frame>, maxType: byte)
    requires forall f :: f in fs ==> Sendable(f, maxType)
    ensures Decode(EncodeAll(fs), maxType) == Decoded(fs, Exhausted)
  {
    DecodeAppend(fs, [], maxType);
    assert EncodeAll(fs) + [] == EncodeAll(fs);
    assert fs + [] == fs;
  }

  /** A frame of a type beyond the last one ends the reading: of what follows nothing is taken. */
  lemma UnknownTypeStops(fs: seq<Frame>, typ: byte, rest: Bytes, maxType: byte)
    requires (forall f :: f in fs ==> Sendable(f, maxType)) && typ > maxType && |rest| >= 2
    ensures Decode(EncodeAll(fs) + ([typ] + rest), maxType) == Decoded(fs, UnknownType)
  {
    DecodeAppend(fs, [typ] + rest, maxType);
    assert fs + [] == fs;
  }

  /** A stream that starts with a whole frame: that frame, then the rest. */
  lemma DecodeStep(s: Bytes, maxType: byte)
    requires |s| >= 3 && s[0] <= maxType && |s| >= 3 + Get16(s[1..3])
    ensures var n := Get16(s[1..3]);
            Decode(s, maxType).frames == [Frame(s[0], s[3..3 + n])] + Decode(s[3 + n..], maxType).frames
  {
  }

  lemma NoWholeFrame(s: Bytes, maxType: byte)
    requires |s| < 3 || s[0] > maxType || |s| < 3 + Get16(s[1..3])
    ensures Decode(s, maxType).frames == []
  {
  }

  lemma SliceOfPrefix(s: Bytes, k: nat, i: nat, j: nat)
    requires i <= j <= k <= |s|
    ensures s[..k][i..j] == s[i..j] && s[..k][j..] == s[j..][..k - j]
  {
  }

  lemma ConsPrefix<T>(x: T, a: seq<T>, b: seq<T>)
    requires a <= b
    ensures [x] + a <= [x] + b
  {
  }

  /** A cut behind the first whole frame leaves that frame, and cuts the rest. */
  lemma CutBehindFrame(s: Bytes, k: nat, maxType: byte)
    requires 3 <= k <= |s| && s[0] <= maxType && 3 + Get16(s[1..3]) <= k
    ensures var m := 3 + Get16(s[1..3]);
            && Decode(s, maxType).frames == [Frame(s[0], s[3..m])] + Decode(s[m..], maxType).frames
            && Decode(s[..k], maxType).frames == [Frame(s[0], s[3..m])] + Decode(s[m..][..k - m], maxType).frames
  {
    var m := 3 + Get16(s[1..3]);
    SliceOfPrefix(s, k, 1, 3);
    SliceOfPrefix(s, k, 3, m);
    DecodeStep(s, maxType);
    DecodeStep(s[..k], maxType);
  }

  /** Cutting any stream anywhere, well formed or not, only loses frames at the end. */
  lemma {:induction false} PrefixDecodesToPrefix(s: Bytes, k: nat, maxType: byte)
    requires k <= |s|
    ensures Decode(s[..k], maxType).frames <= Decode(s, maxType).frames
    decreases |s|
  {
    if k < 3 || s[0] > maxType || k < 3 + Get16(s[1..3]) {
      if k >= 3 {
        SliceOfPrefix(s, k, 1, 3);
      }
      NoWholeFrame(s[..k], maxType);
    } else {
      var m := 3 + Get16(s[1..3]);
      CutBehindFrame(s, k, maxType);
      PrefixDecodesToPrefix(s[m..], k - m, maxType);
      ConsPrefix(Frame(s[0], s[3..m]), Decode(s[m..][..k - m], maxType).frames, Decode(s[m..], maxType).frames);
    }
  }

  function Flatten(chunks: seq<Bytes>): Bytes {
    if chunks == [] then [] else chunks[0] + Flatten(chunks[1..])
  }

  /** A connection as a reader sees it: bytes already buffered and the chunks still to come. */
  class Stream {
    var buffered: Bytes
    var chunks: seq<Bytes>

    constructor (chunks: seq<Bytes>)
      ensures Rest() == Flatten(chunks)
    {
      buffered, this.chunks := [], chunks;
    }

    ghost function Rest(): Bytes reads this { buffered + Flatten(chunks) }

    /** `io.ReadFull`: waits for `n` bytes however they are cut into chunks. */
    method ReadFull(n: nat) returns (ok: bool, data: Bytes)
      modifies this
      ensures ok <==> n <= |old(Rest())|
      ensures ok ==> data == old(Rest())[..n] && Rest() == old(Rest())[n..]
      ensures !ok ==> Rest() == old(Rest())
    {
      while |buffered| < n && chunks != []
        invariant Rest() == old(Rest())
        decreases |chunks|
      {
        ghost var later := Flatten(chunks[1..]);
        assert buffered + (chunks[0] + later) == (buffered + chunks[0]) + later;
        buffered, chunks := buffered + chunks[0], chunks[1..];
      }
      ok, data := |buffered| >= n, [];
      if ok {
        assert Rest()[..n] == buffered[..n] && Rest()[n..] == buffered[n..] + Flatten(chunks);
        data, buffered := buffered[..n], buffered[n..];
      }
    }

    /** `readMsg`, or one turn of the server's `readLoop`: one frame off the front of the stream. */
    method ReadFrame(maxType: byte) returns (r: Turn)
      modifies this
      ensures var d := Decode(old(Rest()), maxType);
              match r
              case Stopped(stop) => d == Decoded([], stop)
              case Got(f) =>
                && f.typ <= maxType
                && |Rest()| < |old(Rest())|
                && d == Decoded([f] + Decode(Rest(), maxType).frames, Decode(Rest(), maxType).stop)
    {
      ghost var s := Rest();
      var ok, header := ReadFull(3);
      if !ok { return Stopped(Exhausted); }
      if header[0] > maxType { return Stopped(UnknownType); }
      assert header[1..] == s[1..3];
      var msgLen := Get16(header[1..]);
      var full, data := ReadFull(msgLen);
      if !full { return Stopped(Exhausted); }
      assert s[3..][..msgLen] == s[3..3 + msgLen] && s[3..][msgLen..] == s[3 + msgLen..];
      return Got(Frame(header[0], data));
    }

    /** The client's reading loop: what it gets depends on the bytes, not on how they were chunked. */
    method ReadFrames(maxType: byte) returns (frames: seq<Frame>, stop: Stop)
      modifies this
      ensures Decoded(frames, stop) == Decode(old(Rest()), maxType)
    {
      frames := [];
      ghost var whole := Decode(Rest(), maxType);
      while true
        invariant whole == Decoded(frames + Decode(Rest(), maxType).frames, Decode(Rest(), maxType).stop)
        decreases |Rest()|
      {
        var r := ReadFrame(maxType);
        match r {
          case Stopped(why) => return frames, why;
          case Got(f) => frames := frames + [f];
        }
      }
    }
  }

  lemma {:induction false} FlattenTake(chunks: seq<Bytes>, k: nat)
    requires k <= |chunks|
    ensures |Flatten(chunks[..k])| <= |Flatten(chunks)|
    ensures Flatten(chunks[..k]) == Flatten(chunks)[..|Flatten(chunks[..k])|]
  {
    if k == 0 {
    } else {
      assert chunks[..k][1..] == chunks[1..][..k - 1];
      FlattenTake(chunks[1..], k - 1);
    }
  }

  /** However the stream of some sendable frames is cut into chunks, a reader has after any
      number of chunks a prefix of those frames, and all of them after the last chunk. */
  lemma ArrivedSoFar(fs: seq<Frame>, chunks: seq<Bytes>, k: nat, maxType: byte)
    requires forall f :: f in fs ==> Sendable(f, maxType)
    requires Flatten(chunks) == EncodeAll(fs) && k <= |chunks|
    ensures Decode(Flatten(chunks[..k]), maxType).frames <= fs
    ensures k == |chunks| ==> Decode(Flatten(chunks[..k]), maxType) == Decoded(fs, Exhausted)
  {
    RoundTrip(fs, maxType);
    FlattenTake(chunks, k);
    PrefixDecodesToPrefix(EncodeAll(fs), |Flatten(chunks[..k])|, maxType);
    assert k == |chunks| ==> chunks[..k] == chunks;
  }
}
