/**
 * The way of a byte through the program: written into the session's buffer,
 * drained in one chunk, handed to every destination's own buffer, sent on.
 * The two kinds of buffer overflow differently; both are bounded.
 */
module Streams {

  newtype Byte = x: int | 0 <= x < 256

  type Bytes = seq<Byte>
  const BUFFER_SIZE: nat := 1024 * 1024
  const PACKET: nat := 188
  const BLOCK: nat := 4096

  // ---------------------------------------------------------------- histories

  /** A history is cut into what was sent on and what an overflow dumped. */
  datatype Segment = Sent(bytes: Bytes) | Dumped(bytes: Bytes)

  function All(h: seq<Segment>): Bytes {
    if h == [] then [] else All(h[..|h| - 1]) + h[|h| - 1].bytes
  }

  function Delivered(h: seq<Segment>): Bytes {
    if h == [] then []
    else Delivered(h[..|h| - 1]) + (if h[|h| - 1].Sent? then h[|h| - 1].bytes else [])
  }

  function DumpedCount(h: seq<Segment>): nat {
    if h == [] then 0
    else DumpedCount(h[..|h| - 1]) + (if h[|h| - 1].Dumped? then |h[|h| - 1].bytes| else 0)
  }

  lemma AllSnoc(h: seq<Segment>, s: Segment)
    ensures All(h + [s]) == All(h) + s.bytes
    ensures Delivered(h + [s]) == Delivered(h) + (if s.Sent? then s.bytes else [])
    ensures DumpedCount(h + [s]) == DumpedCount(h) + (if s.Dumped? then |s.bytes| else 0)
  {
    assert (h + [s])[..|h|] == h;
  }

  lemma {:induction false} CountsAddUp(h: seq<Segment>)
    ensures |All(h)| == |Delivered(h)| + DumpedCount(h)
    ensures DumpedCount(h) == 0 ==> All(h) == Delivered(h)
  {
    if h != [] {
      CountsAddUp(h[..|h| - 1]);
    }
  }

  function Concat(chunks: seq<Bytes>): Bytes {
    if chunks == [] then [] else Concat(chunks[..|chunks| - 1]) + chunks[|chunks| - 1]
  }

  // ---------------------------------------------------------------- one destination

  datatype Kind = Udp | Mcast | File | Http | Other

  datatype Dest = Dest(kind: Kind, size: nat, data: Bytes)

  /** An overflow throws away the buffer and the chunk that did not fit. */
  function AddToBuffer(data: Bytes, size: nat, chunk: Bytes): Bytes {
    if |chunk| + |data| < size then data + chunk else []
  }

  /** How many bytes a destination offers to the system call after a chunk. */
  function Offered(kind: Kind, data: Bytes): (n: nat)
    ensures n <= |data|
  {
    match kind
    case Udp => if |data| > 4 * PACKET then 3 * PACKET else 0
    case Mcast => if |data| > 10 * PACKET then |data| else 0
    case File => |data| / BLOCK * BLOCK
    case Http => 0
    case Other => 0
  }

  lemma NetworkOffers(data: Bytes)
    ensures Offered(Udp, data) == if |data| > 4 * PACKET then 3 * PACKET else 0
    ensures Offered(Mcast, data) == if |data| > 10 * PACKET then |data| else 0
    ensures Offered(Http, data) == 0
  {
  }

  /** How many bytes a reader of a stream gets. */
  function Readable(data: Bytes, reqlen: nat): (n: nat)
    ensures n <= |data|
  {
    if |data| >= 50 * PACKET then (if reqlen > |data| then |data| else reqlen) else 0
  }

  /** A destination is handed a drained chunk, and the system call takes up to
      `taken` bytes of the offer (none if it fails or the handle is not open); or
      a web client reads. */
  datatype Op = Hand(chunk: Bytes, taken: nat) | Read(reqlen: nat)

  function Processed(d: Dest, op: Op): Bytes {
    if op.Read? || d.kind == Other then d.data else AddToBuffer(d.data, d.size, op.chunk)
  }

  function Gone(d: Dest, op: Op): (n: nat)
    ensures n <= |Processed(d, op)|
  {
    match op
    case Read(reqlen) => if d.kind == Http then Readable(d.data, reqlen) else 0
    case Hand(_, taken) =>
      var offer := Offered(d.kind, Processed(d, op));
      if taken < offer then taken else offer
  }

  function Step(d: Dest, op: Op): (Dest, Bytes) {
    var data, n := Processed(d, op), Gone(d, op);
    (d.(data := data[n..]), data[..n])
  }

  /** All of a run: the destination afterwards and what each step sent out. */
  function Run(d: Dest, ops: seq<Op>): (r: (Dest, seq<Bytes>))
    ensures |r.1| == |ops| && r.0.kind == d.kind && r.0.size == d.size
  {
    if ops == [] then (d, [])
    else
      var (d1, outs) := Run(d, ops[..|ops| - 1]);
      var (d2, out) := Step(d1, ops[|ops| - 1]);
      (d2, outs + [out])
  }

  /** The bytes handed to the destination, whatever became of them. */
  function Handed(ops: seq<Op>): Bytes {
    if ops == [] then []
    else Handed(ops[..|ops| - 1]) + (if ops[|ops| - 1].Hand? then ops[|ops| - 1].chunk else [])
  }

  predicate Overflows(d: Dest, op: Op) {
    op.Hand? && d.kind != Other && |op.chunk| + |d.data| >= d.size
  }

  /** The history of a run, cut at every overflow and every send. */
  function Trace(d: Dest, ops: seq<Op>): seq<Segment> {
    if ops == [] then []
    else
      var h, op := Trace(d, ops[..|ops| - 1]), ops[|ops| - 1];
      var d1 := Run(d, ops[..|ops| - 1]).0;
      (if Overflows(d1, op) then h + [Dumped(d1.data + op.chunk)] else h) + [Sent(Step(d1, op).1)]
  }

  predicate Serves(d: Dest) {
    d.kind != Other && |d.data| < d.size
  }

  lemma ConcatSnoc(chunks: seq<Bytes>, c: Bytes)
    ensures Concat(chunks + [c]) == Concat(chunks) + c
  {
    assert (chunks + [c])[..|chunks|] == chunks;
  }

  lemma Regroup(a: Bytes, b: Bytes, c: Bytes)
    ensures (a + b) + c == a + (b + c)
  {
  }

  /** A step cuts the buffer in two, after an overflow has emptied it. */
  lemma StepSplits(d: Dest, op: Op)
    requires Serves(d)
    ensures var (d', out) := Step(d, op);
            && d'.kind == d.kind && d'.size == d.size && |d'.data| < d.size
            && out + d'.data == (if op.Read? then d.data else if Overflows(d, op) then [] else d.data + op.chunk)
  {
    hide Gone;
    var (d', out) := Step(d, op);
    assert out + d'.data == Processed(d, op);
  }

  lemma StepAccounted(d: Dest, d1: Dest, h: seq<Segment>, handed: Bytes, op: Op)
    requires Serves(d1) && All(h) + d1.data == d.data + handed
    ensures var (d2, out) := Step(d1, op);
            var h1 := if Overflows(d1, op) then h + [Dumped(d1.data + op.chunk)] else h;
            && Serves(d2)
            && All(h1 + [Sent(out)]) + d2.data == d.data + (handed + (if op.Hand? then op.chunk else []))
            && Delivered(h1 + [Sent(out)]) == Delivered(h) + out
  {
    hide All, Delivered, DumpedCount, Step;
    var (d2, out) := Step(d1, op);
    var h1 := if Overflows(d1, op) then h + [Dumped(d1.data + op.chunk)] else h;
    var chunk := if op.Hand? then op.chunk else [];
    StepSplits(d1, op);
    AllSnoc(h1, Sent(out));
    Regroup(All(h), d1.data, chunk);
    Regroup(d.data, handed, chunk);
    Regroup(All(h1), out, d2.data);
    if Overflows(d1, op) {
      AllSnoc(h, Dumped(d1.data + chunk));
      assert All(h1) + [] == All(h1);
    } else if op.Read? {
      assert d1.data + [] == d1.data;
    }
  }

  /** Nothing is lost but whole dumped runs, and nothing changes order: what was
      handed in, in order, is what was sent, dumped and is still buffered. */
  lemma {:induction false} HistoryAccounted(d: Dest, ops: seq<Op>)
    requires Serves(d)
    ensures var (d', outs) := Run(d, ops);
            && Serves(d')
            && All(Trace(d, ops)) + d'.data == d.data + Handed(ops)
            && Delivered(Trace(d, ops)) == Concat(outs)
    decreases |ops|
  {
    if ops != [] {
      var before, op := ops[..|ops| - 1], ops[|ops| - 1];
      HistoryAccounted(d, before);
      var (d1, outs) := Run(d, before);
      StepAccounted(d, d1, Trace(d, before), Handed(before), op);
      ConcatSnoc(outs, Step(d1, op).1);
    }
  }

  lemma {:induction false} NothingDumped(d: Dest, ops: seq<Op>)
    requires forall n :: 0 <= n < |ops| ==> !Overflows(Run(d, ops[..n]).0, ops[n])
    ensures DumpedCount(Trace(d, ops)) == 0
    decreases |ops|
  {
    hide Step, Run;
    if ops != [] {
      var before := ops[..|ops| - 1];
      assert forall n :: 0 <= n < |before| ==> before[..n] == ops[..n] && before[n] == ops[n];
      NothingDumped(d, before);
      var d1 := Run(d, before).0;
      AllSnoc(Trace(d, before), Sent(Step(d1, ops[|ops| - 1]).1));
    }
  }

  /** Conservation of bytes, and exactness when nothing overflowed. */
  lemma BytesConserved(d: Dest, ops: seq<Op>)
    requires Serves(d)
    ensures var (d', outs) := Run(d, ops);
            && |d.data| + |Handed(ops)| == |Concat(outs)| + |d'.data| + DumpedCount(Trace(d, ops))
            && |d'.data| < d.size
    ensures (forall n :: 0 <= n < |ops| ==> !Overflows(Run(d, ops[..n]).0, ops[n])) ==>
              Concat(Run(d, ops).1) + Run(d, ops).0.data == d.data + Handed(ops)
  {
    HistoryAccounted(d, ops);
    CountsAddUp(Trace(d, ops));
    if forall n :: 0 <= n < |ops| ==> !Overflows(Run(d, ops[..n]).0, ops[n]) {
      NothingDumped(d, ops);
    }
  }

  // ---------------------------------------------------------------- files

  /** Every call hands over a chunk that leaves room for a partial block, and the
      write takes all that is offered. */
  predicate CompleteWrites(ops: seq<Op>, size: nat) {
    forall n :: 0 <= n < |ops| ==>
      ops[n].Hand? && |ops[n].chunk| + BLOCK <= size && ops[n].taken >= size
  }

  lemma FileBlocks(sent: nat, rest: nat)
    requires sent % BLOCK == 0 && rest < BLOCK
    ensures (sent + rest) / BLOCK * BLOCK == sent
  {
  }

  lemma NothingSent()
    ensures Concat([]) == [] && Concat([]) + [] == []
  {
  }

  lemma BlockSum(a: nat, b: nat)
    requires a % BLOCK == 0 && b % BLOCK == 0
    ensures (a + b) % BLOCK == 0
  {
  }

  lemma FileStep(d: Dest, op: Op)
    requires d.kind == File && |d.data| < BLOCK && op.Hand?
    requires |op.chunk| + BLOCK <= d.size && op.taken >= d.size
    ensures var (d', out) := Step(d, op);
            out + d'.data == d.data + op.chunk && |d'.data| < BLOCK && |out| % BLOCK == 0
  {
    var data := d.data + op.chunk;
    assert data[..|data| / BLOCK * BLOCK] + data[|data| / BLOCK * BLOCK..] == data;
    assert |data| / BLOCK * BLOCK <= |data| < |data| / BLOCK * BLOCK + BLOCK;
  }

  lemma {:induction false} FileRemainder(d: Dest, ops: seq<Op>)
    requires d.kind == File && d.data == [] && CompleteWrites(ops, d.size) && d.size > 0
    ensures var (d', outs) := Run(d, ops);
            && Concat(outs) + d'.data == Handed(ops) && |d'.data| < BLOCK
            && |Concat(outs)| % BLOCK == 0
            && forall n :: 0 <= n < |outs| ==> |outs[n]| % BLOCK == 0
    decreases |ops|
  {
    hide Step, Concat, Processed, Gone, Offered, Readable;
    if ops == [] {
      NothingSent();
    } else {
      var before, op := ops[..|ops| - 1], ops[|ops| - 1];
      assert CompleteWrites(before, d.size);
      FileRemainder(d, before);
      var (d1, outs) := Run(d, before);
      FileStep(d1, op);
      var (d2, out) := Step(d1, op);
      ConcatSnoc(outs, out);
      Regroup(Concat(outs), out, d2.data);
      Regroup(Concat(outs), d1.data, op.chunk);
      BlockSum(|Concat(outs)|, |out|);
    }
  }

  /** A file receives exactly the whole blocks of its input, in order; less than
      one block waits, and nothing is dropped. */
  lemma {:induction false} FileGetsWholeBlocks(d: Dest, ops: seq<Op>)
    requires d.kind == File && d.data == [] && CompleteWrites(ops, d.size) && d.size > 0
    ensures var (d', outs) := Run(d, ops);
            && Concat(outs) + d'.data == Handed(ops) && |d'.data| < BLOCK
            && Concat(outs) == Handed(ops)[..|Handed(ops)| / BLOCK * BLOCK]
            && forall n :: 0 <= n < |outs| ==> |outs[n]| % BLOCK == 0
    decreases |ops|
  {
    hide Run, Concat;
    FileRemainder(d, ops);
    var (d', outs) := Run(d, ops);
    var total := Handed(ops);
    FileBlocks(|Concat(outs)|, |d'.data|);
    assert total[..|Concat(outs)|] == Concat(outs);
  }

  /** One call drops bytes exactly when chunk and buffer do not fit together. */
  lemma DropsExactlyOnOverflow(d: Dest, op: Op)
    requires Serves(d) && op.Hand?
    ensures var (d', out) := Step(d, op);
            out + d'.data == d.data + op.chunk <==> (!Overflows(d, op) || d.data + op.chunk == [])
  {
    var (d', out) := Step(d, op);
    assert out + d'.data == Processed(d, op);
  }

  /** What one hand-over sends, to the byte: the front of the buffer, as much as was
      offered and taken. */
  lemma SendExact(d: Dest, chunk: Bytes, taken: nat)
    requires d.kind != Other
    ensures var (d', out) := Step(d, Hand(chunk, taken));
            var full := if |d.data| + |chunk| < d.size then d.data + chunk else [];
            var offer := match d.kind
                         case Udp => if |full| > 4 * 188 then 3 * 188 else 0
                         case Mcast => if |full| > 10 * 188 then |full| else 0
                         case File => |full| / 4096 * 4096
                         case _ => 0;
            && out + d'.data == full && |out| == (if taken < offer then taken else offer)
            && d' == d.(data := d'.data)
  {
  }

  // ---------------------------------------------------------------- web clients and multicast

  /** A web client gets nothing below fifty packets; from there on as much as it asks
      for or all there is, from the front, and the rest stays. */
  lemma ReaderGets(d: Dest, reqlen: nat)
    requires d.kind == Http
    ensures var (d', out) := Step(d, Read(reqlen));
            && out + d'.data == d.data
            && |out| == (if |d.data| < 50 * 188 then 0 else if reqlen < |d.data| then reqlen else |d.data|)
  {
  }

  /** Handing data to a web destination sends nothing; it waits for a reader. */
  lemma WebWaits(d: Dest, chunk: Bytes, taken: nat)
    requires d.kind == Http && |d.data| + |chunk| < d.size
    ensures var (d', out) := Step(d, Hand(chunk, taken)); out == [] && d'.data == d.data + chunk
  {
    NetworkOffers(d.data + chunk);
  }

  lemma McastKeepsUp(d: Dest, op: Op)
    requires d.kind == Mcast && |d.data| <= 10 * 188
    requires op.Hand? && |op.chunk| + 10 * 188 < d.size && op.taken >= d.size
    ensures var (d', out) := Step(d, op);
            && out + d'.data == d.data + op.chunk && |d'.data| <= 10 * 188
            && (|out| == 0 || |out| > 10 * 188)
  {
    hide Offered;
    NetworkOffers(d.data + op.chunk);
  }

  /** With complete sends a multicast destination that has room for ten packets and a
      chunk loses nothing: it sends all it has once that is more than ten packets. */
  lemma {:induction false} McastLosesNothing(d: Dest, ops: seq<Op>)
    requires d.kind == Mcast && d.data == [] && d.size > 0
    requires forall n :: 0 <= n < |ops| ==>
               ops[n].Hand? && |ops[n].chunk| + 10 * 188 < d.size && ops[n].taken >= d.size
    ensures var (d', outs) := Run(d, ops);
            && Concat(outs) + d'.data == Handed(ops) && |d'.data| <= 10 * 188
            && forall n :: 0 <= n < |outs| ==> |outs[n]| == 0 || |outs[n]| > 10 * 188
    decreases |ops|
  {
    hide Step, Concat, Processed, Gone, Offered, Readable;
    if ops == [] {
      NothingSent();
    } else {
      var before, op := ops[..|ops| - 1], ops[|ops| - 1];
      assert forall n :: 0 <= n < |before| ==> before[n] == ops[n];
      McastLosesNothing(d, before);
      var (d1, outs) := Run(d, before);
      McastKeepsUp(d1, op);
      var (d2, out) := Step(d1, op);
      ConcatSnoc(outs, out);
      Regroup(Concat(outs), out, d2.data);
      Regroup(Concat(outs), d1.data, op.chunk);
    }
  }

  // ---------------------------------------------------------------- datagrams

  predicate WholePackets(b: Bytes) {
    |b| % PACKET == 0
  }

  predicate WholeDatagrams(ops: seq<Op>) {
    forall n :: 0 <= n < |ops| ==>
      ops[n].Hand? ==> WholePackets(ops[n].chunk) && (ops[n].taken == 0 || ops[n].taken >= 3 * PACKET)
  }

  /** `out` is three consecutive whole packets of the stream `handed`. */
  ghost predicate ThreePackets(out: Bytes, handed: Bytes) {
    exists k: nat :: (k + 3) * PACKET <= |handed| && out == handed[k * PACKET..(k + 3) * PACKET]
  }

  lemma {:induction false} HandedWhole(ops: seq<Op>)
    requires WholeDatagrams(ops)
    ensures WholePackets(Handed(ops))
  {
    if ops != [] {
      assert WholeDatagrams(ops[..|ops| - 1]);
      HandedWhole(ops[..|ops| - 1]);
    }
  }

  lemma ThreePacketsKept(out: Bytes, handed: Bytes, more: Bytes)
    requires ThreePackets(out, handed)
    ensures ThreePackets(out, handed + more)
  {
    var k: nat :| (k + 3) * PACKET <= |handed| && out == handed[k * PACKET..(k + 3) * PACKET];
    assert (handed + more)[k * PACKET..(k + 3) * PACKET] == handed[k * PACKET..(k + 3) * PACKET];
  }

  lemma PacketSum(a: nat, b: nat)
    requires a % PACKET == 0 && b % PACKET == 0
    ensures (a + b) % PACKET == 0
  {
  }

  lemma PacketsLeft(n: nat)
    ensures n % PACKET == 0 && n >= 3 * PACKET ==> (n - 3 * PACKET) % PACKET == 0
  {
  }

  /** A datagram is the first three packets of the buffer. */
  lemma UdpSends(d: Dest, op: Op)
    requires d.kind == Udp && WholePackets(d.data)
    requires op.Hand? ==> WholePackets(op.chunk) && (op.taken == 0 || op.taken >= 3 * PACKET)
    ensures var (d', out) := Step(d, op);
            && WholePackets(d'.data)
            && (out != [] ==> op.Hand? && 3 * PACKET <= |d.data + op.chunk| && out == (d.data + op.chunk)[..3 * PACKET])
  {
    if op.Hand? {
      PacketsLeft(|Processed(d, op)|);
      PacketSum(|d.data|, |op.chunk|);
    }
  }

  lemma SliceAfter(a: Bytes, b: Bytes, n: nat)
    requires n <= |b|
    ensures (a + b)[|a|..|a| + n] == b[..n]
  {
  }

  lemma PacketOffset(sent: nat, buffered: nat, total: nat)
    requires buffered % PACKET == 0 && total % PACKET == 0 && sent + buffered == total
    ensures sent / PACKET * PACKET == sent
  {
  }

  lemma UdpStep(d: Dest, op: Op, h: seq<Segment>, handed: Bytes)
    requires d.kind == Udp && WholePackets(d.data) && WholePackets(handed)
    requires op.Hand? ==> WholePackets(op.chunk) && (op.taken == 0 || op.taken >= 3 * PACKET)
    requires All(h) + d.data == handed
    ensures var (d', out) := Step(d, op);
            WholePackets(d'.data) &&
            (out == [] || ThreePackets(out, handed + (if op.Hand? then op.chunk else [])))
  {
    hide All, Step;
    var (d', out) := Step(d, op);
    UdpSends(d, op);
    if out != [] {
      var sent := |All(h)|;
      Regroup(All(h), d.data, op.chunk);
      SliceAfter(All(h), d.data + op.chunk, 3 * PACKET);
      PacketOffset(sent, |d.data|, |handed|);
      assert (sent / PACKET + 3) * PACKET == sent + 3 * PACKET;
    }
  }

  /** A datagram goes out whole or not at all, so each one is three consecutive
      transport packets of the stream, even after overflow dumps. */
  lemma {:induction false} DatagramsAreThreePackets(d: Dest, ops: seq<Op>)
    requires d.kind == Udp && d.data == [] && d.size > 0 && WholeDatagrams(ops)
    ensures var (d', outs) := Run(d, ops);
            && WholePackets(d'.data)
            && forall n :: 0 <= n < |outs| ==> outs[n] == [] || ThreePackets(outs[n], Handed(ops))
    decreases |ops|
  {
    if ops != [] {
      var before, op := ops[..|ops| - 1], ops[|ops| - 1];
      assert WholeDatagrams(before);
      DatagramsAreThreePackets(d, before);
      var (d1, outs) := Run(d, before);
      HistoryAccounted(d, before);
      HandedWhole(before);
      forall n | 0 <= n < |outs| && outs[n] != []
        ensures ThreePackets(outs[n], Handed(ops))
      {
        ThreePacketsKept(outs[n], Handed(before), if op.Hand? then op.chunk else []);
      }
      UdpStep(d1, op, Trace(d, before), Handed(before));
    }
  }

  /** Every call hands over at most three packets, and a datagram that is offered
      is sent. */
  predicate SmallChunks(ops: seq<Op>) {
    forall n :: 0 <= n < |ops| ==> ops[n].Hand? && |ops[n].chunk| <= 3 * PACKET && ops[n].taken >= 3 * PACKET
  }

  lemma UdpKeepsUp(d: Dest, op: Op)
    requires d.kind == Udp && |d.data| <= 4 * PACKET && d.size > 7 * PACKET
    requires op.Hand? && |op.chunk| <= 3 * PACKET && op.taken >= 3 * PACKET
    ensures var (d', out) := Step(d, op);
            && out + d'.data == d.data + op.chunk && |d'.data| <= 4 * PACKET
            && (|out| == 0 || |out| == 3 * PACKET)
  {
  }

  /** Handed at most three packets at a time, a UDP destination with room for seven
      loses nothing: its datagrams and what it still holds, never more than four
      packets, are its input exactly. */
  lemma {:induction false} UdpLosesNothing(d: Dest, ops: seq<Op>)
    requires d.kind == Udp && d.data == [] && d.size > 7 * PACKET && SmallChunks(ops)
    ensures var (d', outs) := Run(d, ops);
            && Concat(outs) + d'.data == Handed(ops) && |d'.data| <= 4 * PACKET
            && forall n :: 0 <= n < |outs| ==> |outs[n]| == 0 || |outs[n]| == 3 * PACKET
    decreases |ops|
  {
    hide Step, Concat, Processed, Gone, Offered, Readable;
    if ops == [] {
      NothingSent();
    } else {
      var before, op := ops[..|ops| - 1], ops[|ops| - 1];
      assert SmallChunks(before);
      UdpLosesNothing(d, before);
      var (d1, outs) := Run(d, before);
      UdpKeepsUp(d1, op);
      var (d2, out) := Step(d1, op);
      ConcatSnoc(outs, out);
      Regroup(Concat(outs), out, d2.data);
      Regroup(Concat(outs), d1.data, op.chunk);
    }
  }

  // ---------------------------------------------------------------- the session and its destinations

  /** The session's buffer keeps the newest data when it overflows. */
  function SessionWrite(buf: Bytes, data: Bytes): Bytes {
    if |buf| + |data| < BUFFER_SIZE then buf + data else data
  }

  datatype Pipe = Pipe(buf: Bytes, dests: seq<Dest>)

  datatype Event =
    | Write(data: Bytes)
    | Drain(taken: seq<nat>)
    | WebRead(dest: nat, reqlen: nat)

  /** What destination `j` sees of an event. */
  function OpFor(p: Pipe, e: Event, j: nat): seq<Op> {
    match e
    case Write(_) => []
    case Drain(taken) => [Hand(p.buf, if j < |taken| then taken[j] else 0)]
    case WebRead(dest, reqlen) => if dest == j then [Read(reqlen)] else []
  }

  function Stepped(d: Dest, ops: seq<Op>): Dest {
    if ops == [] then d else Step(d, ops[0]).0
  }

  function Flow(p: Pipe, e: Event): Pipe {
    var dests := seq(|p.dests|, j requires 0 <= j < |p.dests| => Stepped(p.dests[j], OpFor(p, e, j)));
    match e
    case Write(data) => Pipe(SessionWrite(p.buf, data), dests)
    case Drain(_) => Pipe([], dests)
    case WebRead(_, _) => Pipe(p.buf, dests)
  }

  function FlowAll(p: Pipe, es: seq<Event>): (r: Pipe)
    ensures |r.dests| == |p.dests|
  {
    if es == [] then p else Flow(FlowAll(p, es[..|es| - 1]), es[|es| - 1])
  }

  function Written(es: seq<Event>): Bytes {
    if es == [] then []
    else Written(es[..|es| - 1]) + (if es[|es| - 1].Write? then es[|es| - 1].data else [])
  }

  /** The operations destination `j` goes through in a run of the whole pipe. */
  function OpsFor(p: Pipe, es: seq<Event>, j: nat): seq<Op> {
    if es == [] then []
    else OpsFor(p, es[..|es| - 1], j) + OpFor(FlowAll(p, es[..|es| - 1]), es[|es| - 1], j)
  }

  /** The session's own history: what was drained and what overflows dumped. */
  function SessionTrace(p: Pipe, es: seq<Event>): seq<Segment> {
    if es == [] then []
    else
      var h, e, buf := SessionTrace(p, es[..|es| - 1]), es[|es| - 1], FlowAll(p, es[..|es| - 1]).buf;
      match e
      case Write(data) => if |buf| + |data| < BUFFER_SIZE then h else h + [Dumped(buf)]
      case Drain(_) => h + [Sent(buf)]
      case WebRead(_, _) => h
  }

  lemma FlowStep(p: Pipe, e: Event, j: nat)
    requires j < |p.dests|
    ensures |OpFor(p, e, j)| <= 1 && Flow(p, e).dests[j] == Stepped(p.dests[j], OpFor(p, e, j))
  {
    hide Stepped;
  }

  lemma RunNothing(d: Dest)
    ensures Run(d, []).0 == d
  {
  }

  lemma RunStep(d: Dest, ops: seq<Op>, op: seq<Op>)
    requires |op| <= 1
    ensures Run(d, ops + op).0 == Stepped(Run(d, ops).0, op)
  {
    hide Step;
    if op == [] {
      assert ops + op == ops;
    } else {
      assert (ops + op)[..|ops + op| - 1] == ops;
    }
  }

  /** In the pipe each destination runs exactly its own operations. */
  lemma {:induction false} DestinationsIndependent(p: Pipe, es: seq<Event>, j: nat)
    requires j < |p.dests|
    ensures FlowAll(p, es).dests[j] == Run(p.dests[j], OpsFor(p, es, j)).0
    decreases |es|
  {
    hide Flow, OpFor, Run, Stepped;
    if es == [] {
      RunNothing(p.dests[j]);
    } else {
      var before, e := es[..|es| - 1], es[|es| - 1];
      DestinationsIndependent(p, before, j);
      FlowStep(FlowAll(p, before), e, j);
      RunStep(p.dests[j], OpsFor(p, before, j), OpFor(FlowAll(p, before), e, j));
    }
  }

  lemma HandedSnoc(ops: seq<Op>, op: seq<Op>)
    requires |op| <= 1
    ensures Handed(ops + op) == Handed(ops) + (if op != [] && op[0].Hand? then op[0].chunk else [])
  {
    if op == [] {
      assert ops + op == ops;
    } else {
      assert (ops + op)[..|ops|] == ops;
    }
  }

  /** What an event does to the whole pipe: a write touches the session's buffer only,
      a drain empties it into every destination, a reader touches its destination
      only. */
  lemma PipeSteps(p: Pipe, e: Event, j: nat)
    requires j < |p.dests|
    ensures var p', d := Flow(p, e), p.dests[j];
            && |p'.dests| == |p.dests|
            && match e
               case Write(data) => p'.dests[j] == d && p'.buf == SessionWrite(p.buf, data)
               case Drain(taken) =>
                 p'.buf == [] && p'.dests[j] == Step(d, Hand(p.buf, if j < |taken| then taken[j] else 0)).0
               case WebRead(dest, reqlen) =>
                 p'.buf == p.buf && p'.dests[j] == if dest == j then Step(d, Read(reqlen)).0 else d
  {
    hide Step, SessionWrite;
  }

  /** Every destination is handed the same stream: what the session drained. */
  lemma {:induction false} SameStreamForAll(p: Pipe, es: seq<Event>, j: nat)
    requires j < |p.dests|
    ensures Handed(OpsFor(p, es, j)) == Delivered(SessionTrace(p, es))
    decreases |es|
  {
    if es != [] {
      var before, e := es[..|es| - 1], es[|es| - 1];
      SameStreamForAll(p, before, j);
      var ops, op, h := OpsFor(p, before, j), OpFor(FlowAll(p, before), e, j), SessionTrace(p, before);
      HandedSnoc(ops, op);
      match e {
        case Write(data) => AllSnoc(h, Dumped(FlowAll(p, before).buf));
        case Drain(_) => AllSnoc(h, Sent(FlowAll(p, before).buf));
        case WebRead(_, _) =>
      }
    }
  }

  lemma SessionStep(h: seq<Segment>, buf: Bytes, start: Bytes, written: Bytes, e: Event)
    requires All(h) + buf == start + written
    ensures e.Write? && |buf| + |e.data| < BUFFER_SIZE ==> All(h) + (buf + e.data) == start + (written + e.data)
    ensures e.Write? ==> All(h + [Dumped(buf)]) + e.data == start + (written + e.data)
    ensures All(h + [Sent(buf)]) + [] == start + (written + [])
    ensures start + (written + []) == start + written
  {
    hide All;
    AllSnoc(h, Dumped(buf));
    AllSnoc(h, Sent(buf));
    assert start + (written + []) == start + written;
    if e.Write? {
      assert (All(h) + buf) + e.data == All(h) + (buf + e.data);
      assert (start + written) + e.data == start + (written + e.data);
    }
  }

  /** The session loses nothing but whole dumped runs either. */
  lemma {:induction false} SessionAccounted(p: Pipe, es: seq<Event>)
    ensures All(SessionTrace(p, es)) + FlowAll(p, es).buf == p.buf + Written(es)
    ensures |p.buf| < BUFFER_SIZE && (forall n :: 0 <= n < |es| && es[n].Write? ==> |es[n].data| < BUFFER_SIZE) ==>
              |FlowAll(p, es).buf| < BUFFER_SIZE
    decreases |es|
  {
    if es != [] {
      var before, e := es[..|es| - 1], es[|es| - 1];
      SessionAccounted(p, before);
      var h, buf := SessionTrace(p, before), FlowAll(p, before).buf;
      SessionStep(h, buf, p.buf, Written(before), e);
      assert forall n :: 0 <= n < |before| ==> before[n] == es[n];
    }
  }

  /** One transport packet per write, datagrams whole or not at all. */
  predicate PacketEvents(es: seq<Event>) {
    forall n :: 0 <= n < |es| ==>
      && (es[n].Write? ==> |es[n].data| == PACKET)
      && (es[n].Drain? ==> forall j :: 0 <= j < |es[n].taken| ==> es[n].taken[j] == 0 || es[n].taken[j] >= 3 * PACKET)
  }

  lemma {:induction false} SessionHoldsWholePackets(p: Pipe, es: seq<Event>)
    requires WholePackets(p.buf) && PacketEvents(es)
    ensures WholePackets(FlowAll(p, es).buf)
    decreases |es|
  {
    if es != [] {
      assert PacketEvents(es[..|es| - 1]);
      SessionHoldsWholePackets(p, es[..|es| - 1]);
      var buf := FlowAll(p, es[..|es| - 1]).buf;
      assert (|buf| + PACKET) % PACKET == 0;
    }
  }

  lemma {:induction false} OpsAreWhole(p: Pipe, es: seq<Event>, j: nat)
    requires WholePackets(p.buf) && PacketEvents(es)
    ensures WholeDatagrams(OpsFor(p, es, j))
    decreases |es|
  {
    if es != [] {
      var before, e := es[..|es| - 1], es[|es| - 1];
      assert PacketEvents(before);
      OpsAreWhole(p, before, j);
      SessionHoldsWholePackets(p, before);
      var op := OpFor(FlowAll(p, before), e, j);
      assert WholeDatagrams(op);
    }
  }

  /** End to end: every datagram of every UDP destination is three consecutive
      whole packets of the stream the session drained, and that stream is what was
      written except for dumped runs of whole packets. */
  lemma PacketsEndToEnd(p: Pipe, es: seq<Event>, j: nat)
    requires p.buf == [] && PacketEvents(es)
    requires j < |p.dests| && p.dests[j].kind == Udp && p.dests[j].data == [] && p.dests[j].size > 0
    ensures var outs := Run(p.dests[j], OpsFor(p, es, j)).1;
            forall n :: 0 <= n < |outs| ==>
              outs[n] == [] || ThreePackets(outs[n], Delivered(SessionTrace(p, es)))
    ensures WholePackets(FlowAll(p, es).buf) && WholePackets(FlowAll(p, es).dests[j].data)
    ensures All(SessionTrace(p, es)) + FlowAll(p, es).buf == Written(es)
  {
    OpsAreWhole(p, es, j);
    DatagramsAreThreePackets(p.dests[j], OpsFor(p, es, j));
    SameStreamForAll(p, es, j);
    SessionHoldsWholePackets(p, es);
    DestinationsIndependent(p, es, j);
    SessionAccounted(p, es);
    assert p.buf + Written(es) == Written(es);
  }

  lemma {:induction false} SessionDumpsWholePackets(p: Pipe, es: seq<Event>)
    requires WholePackets(p.buf) && PacketEvents(es)
    ensures forall n :: 0 <= n < |SessionTrace(p, es)| ==> WholePackets(SessionTrace(p, es)[n].bytes)
    decreases |es|
  {
    if es != [] {
      assert PacketEvents(es[..|es| - 1]);
      SessionDumpsWholePackets(p, es[..|es| - 1]);
      SessionHoldsWholePackets(p, es[..|es| - 1]);
    }
  }
}
