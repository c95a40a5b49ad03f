/** Flow control of the terminal: the browser counts the bytes it has shown and acknowledges them
    in batches, and the broker passes each acknowledgement on as a 16-bit number. */
module AckFlow {
  import opened ByteStrings
  import opened Frames
  import opened Inbound
  import opened BrokerSpec

  /** `AckBlkSize`. */
  const BLOCK := 4096

  /** The counter after one chunk, and the acknowledgement it causes, if any. */
  function Counted(unack: nat, chunk: nat): (nat, seq<nat>) {
    if unack + chunk > BLOCK then (0, [unack + chunk]) else (unack + chunk, [])
  }

  /** The same for a sequence of chunks. */
  function Shown(unack: nat, chunks: seq<nat>): (nat, seq<nat>)
    decreases chunks
  {
    if chunks == [] then (unack, [])
    else
      var (left, acks) := Counted(unack, chunks[0]);
      var (end, more) := Shown(left, chunks[1..]);
      (end, acks + more)
  }

  /** The terminal's message handler, with its counter. */
  class Terminal {
    var unack: nat

    constructor ()
      ensures unack == 0
    {
      unack := 0;
    }

    method OnData(data: Bytes) returns (acks: seq<nat>)
      modifies this
      ensures (unack, acks) == Counted(old(unack), |data|)
    {
      unack := unack + |data|;
      acks := [];
      if unack > BLOCK {
        acks := [unack];
        unack := 0;
      }
    }
  }

  function Sum(ns: seq<nat>): nat { if ns == [] then 0 else ns[0] + Sum(ns[1..]) }

  lemma {:induction false} SumAppend(a: seq<nat>, b: seq<nat>)
    ensures Sum(a + b) == Sum(a) + Sum(b)
  {
    if a == [] {
      assert a + b == b;
    } else {
      assert (a + b)[1..] == a[1..] + b;
      SumAppend(a[1..], b);
    }
  }

  /** Nothing is acknowledged twice or forgotten: what was sent and what is left make up what was
      received; no more than a block is ever left. */
  lemma {:induction false} Conservation(unack: nat, chunks: seq<nat>)
    requires unack <= BLOCK
    ensures var (left, acks) := Shown(unack, chunks);
            Sum(acks) + left == unack + Sum(chunks) && left <= 4096
    decreases chunks
  {
    if chunks == [] {
    } else {
      var (mid, first) := Counted(unack, chunks[0]);
      Conservation(mid, chunks[1..]);
      SumAppend(first, Shown(mid, chunks[1..]).1);
    }
  }

  // ----- On the wire -----

  /** What a device reads from an ack message: the number after the session id. */
  function AckOf(f: Frame): Option<nat> {
    if f.typ == 9 && |f.data| >= 34 then Some(Get16(f.data[32..34])) else None
  }

  /** The number in the message that the broker makes of an acknowledgement, if it is an ack message. */
  function OnTheWire(sid: Bytes, ack: nat): nat {
    match Forwarded(sid, Ack(ack))
    case None => 0
    case Some((typ, data)) => match AckOf(Frame(typ, data)) case None => 0 case Some(n) => n
  }

  lemma WireWraps(sid: Bytes, ack: nat)
    ensures Forwarded(sid, Ack(ack)).Some?
    ensures var out := Forwarded(sid, Ack(ack)).value;
            AckOf(Frame(out.0, out.1)) == Some(ack % 0x1_0000) && OnTheWire(sid, ack) == ack % 0x1_0000
  {
    assert Forwarded(sid, Ack(ack)).value.1[32..34] == Put16(ack);
    Get16Put16(ack);
  }

  /** What the device has been told was received, in all. */
  function Told(sid: Bytes, acks: seq<nat>): nat {
    if acks == [] then 0 else OnTheWire(sid, acks[0]) + Told(sid, acks[1..])
  }

  /** The device is told the true count exactly when every acknowledgement fits 16 bits; otherwise
      it is told less. */
  lemma {:induction false} ToldIffFits(sid: Bytes, acks: seq<nat>)
    ensures Told(sid, acks) <= Sum(acks)
    ensures Told(sid, acks) == Sum(acks) <==> forall i :: 0 <= i < |acks| ==> acks[i] <= 0xFFFF
  {
    if acks == [] {
    } else {
      WireWraps(sid, acks[0]);
      ToldIffFits(sid, acks[1..]);
      assert forall i :: 0 < i < |acks| ==> acks[i] == acks[1..][i - 1];
      assert forall i :: 0 <= i < |acks| - 1 ==> acks[1..][i] == acks[i + 1];
    }
  }

  predicate AtMost(chunks: seq<nat>, most: nat) { forall i :: 0 <= i < |chunks| ==> chunks[i] <= most }

  lemma {:induction false} AcksAreBounded(unack: nat, chunks: seq<nat>, most: nat)
    requires unack <= BLOCK && AtMost(chunks, most)
    ensures AtMost(Shown(unack, chunks).1, BLOCK + most)
    decreases chunks
  {
    if chunks == [] {
    } else {
      AcksAreBounded(Counted(unack, chunks[0]).0, chunks[1..], most);
    }
  }

  ghost predicate Lossless(sid: Bytes, chunks: seq<nat>) {
    var (left, acks) := Shown(0, chunks);
    Told(sid, acks) + left == Sum(chunks)
  }

  /** No byte is lost to the 16 bits, whatever the chunks, exactly when they are bounded by 61439. */
  lemma LosslessIffChunksBounded(sid: Bytes, most: nat)
    ensures (forall chunks :: AtMost(chunks, most) ==> Lossless(sid, chunks)) <==> most <= 61439
  {
    forall chunks | AtMost(chunks, most) && most <= 0xFFFF - BLOCK ensures Lossless(sid, chunks) {
      var acks := Shown(0, chunks).1;
      Conservation(0, chunks);
      AcksAreBounded(0, chunks, most);
      ToldIffFits(sid, acks);
    }
    if most > 0xFFFF - BLOCK {
      TooLargeAChunk(sid, most);
    }
  }

  /** A chunk of more than 61439 bytes after one of a whole block loses bytes. */
  lemma TooLargeAChunk(sid: Bytes, chunk: nat)
    requires chunk > 0xFFFF - BLOCK
    ensures !Lossless(sid, [BLOCK, chunk])
  {
    var chunks := [BLOCK, chunk];
    assert chunks[1..] == [chunk] && [chunk][1..] == [];
    assert [BLOCK + chunk] + [] == [BLOCK + chunk];
    assert Shown(BLOCK, [chunk]) == (0, [BLOCK + chunk]);
    var (left, acks) := Shown(0, chunks);
    assert acks == [] + [BLOCK + chunk];
    assert acks[0] > 0xFFFF;
    ToldIffFits(sid, acks);
    Conservation(0, chunks);
  }

  // ----- From the client's shell to its acknowledgements -----

  /** The size of the client's reads from its shell. */
  const CLIENT_READ := 4096

  function Lengths(outputs: seq<Bytes>): seq<nat> { seq(|outputs|, i requires 0 <= i < |outputs| => |outputs[i]|) }

  function Sends(sid: UniqueId, outputs: seq<Bytes>): seq<Sent> {
    seq(|outputs|, i requires 0 <= i < |outputs| => SendTermData(sid, outputs[i]))
  }

  /** Whatever the client's shell prints, read in pieces of the client's size, reaches the broker
      as those pieces, and every byte of it comes to be acknowledged or counted. */
  lemma ClientOutputIsAccounted(sid: UniqueId, outputs: seq<Bytes>)
    requires forall o :: o in outputs ==> |o| <= CLIENT_READ
    ensures var heard := Receive(Decode(Written(Sends(sid, outputs)), SERVER_MAX_TYPE));
            && heard.end.Closed? && |heard.messages| == |outputs|
            && (forall i :: 0 <= i < |outputs| ==> heard.messages[i] == TermData(sid, outputs[i]))
    ensures Lossless(sid, Lengths(outputs))
  {
    AllFramed(Sends(sid, outputs));
    ServerHearsTheClient(Sends(sid, outputs));
    LosslessIffChunksBounded(sid, CLIENT_READ);
    assert AtMost(Lengths(outputs), CLIENT_READ);
  }
}
