/** What the packet operations add up to: chunks written on one side are the chunks read on the other, through
    WebSocket framing, masking, the gateway and TCP framing. */
module Gateway {
  import opened Bytes
  import opened Wire
  import opened Packets
  import opened Sequences
  import T = TcpFrames
  import W = WsFrames

  /** A chunk on the wire: its length, then its bytes. */
  function Chunk(c: seq<byte>): (s: seq<byte>)
    ensures |s| == 4 + |c|
  {
    BigEndian(|c|, 4) + c
  }

  function Chunks(cs: seq<seq<byte>>): seq<byte> {
    if cs == [] then [] else Chunk(cs[0]) + Chunks(cs[1..])
  }

  function WriteAll(b: Buf, cs: seq<seq<byte>>): Buf
    decreases |cs|
  {
    if cs == [] then b else WriteAll(WriteBinary(b, cs[0]).0, cs[1..])
  }

  /** Reads chunks until a read delivers none. */
  function ReadAll(b: Buf): seq<seq<byte>>
    decreases |b.bytes| - b.pos
  {
    var g := ReadBinary(b, CAPACITY);
    if g.code <= 0 then [] else [g.data] + ReadAll(g.after)
  }

  /** Moves chunks over until the gateway refuses one. */
  function Relay(tcp: Buf, ws: Buf): (Buf, Buf)
    decreases |ws.bytes| - ws.pos
  {
    var (t, w, ok) := Cover(tcp, ws);
    if ok then Relay(t, w) else (t, w)
  }

  /** The chunks before the first empty one. */
  function Deliverable(cs: seq<seq<byte>>): seq<seq<byte>> {
    if cs == [] || cs[0] == [] then [] else [cs[0]] + Deliverable(cs[1..])
  }

  lemma {:induction false} WriteAllAppends(b: Buf, cs: seq<seq<byte>>)
    requires |b.bytes| + |Chunks(cs)| <= CAPACITY
    ensures WriteAll(b, cs) == b.(bytes := b.bytes + Chunks(cs))
    decreases |cs|
  {
    if cs == [] {
      assert b.bytes + [] == b.bytes;
    } else {
      var b1 := WriteBinary(b, cs[0]).0;
      assert b1.bytes == b.bytes + Chunk(cs[0]);
      WriteAllAppends(b1, cs[1..]);
      assert b1.bytes + Chunks(cs[1..]) == b.bytes + Chunks(cs);
    }
  }

  /** The cursor of `b` stands before chunk `c`, with `tail` after it. */
  ghost predicate AtChunk(b: Buf, c: seq<byte>, tail: seq<byte>) {
    b.pos <= |b.bytes| <= CAPACITY && b.bytes[b.pos..] == Chunk(c) + tail
  }

  function Past(b: Buf, c: seq<byte>): Buf {
    b.(pos := b.pos + 4 + |c|)
  }

  /** An integer of either sign, written, is the integer read back. */
  lemma IntReadBack(b: Buf, n: int)
    requires -0x8000_0000 <= n < 0x8000_0000 && b.pos == |b.bytes| && b.pos + 4 <= CAPACITY
    ensures var w := Write(b, BigEndian(n % 0x1_0000_0000, 4));
            w.1 && ReadInt(w.0) == (n, w.0.(pos := b.pos + 4))
  {
    var s := BigEndian(n % 0x1_0000_0000, 4);
    Widths();
    BigEndianRoundTrip(n % 0x1_0000_0000, 4);
    assert (b.bytes + s)[b.pos..b.pos + 4] == s;
  }

  /** Writing puts the bytes at the end, or refuses and changes nothing. */
  lemma WriteCases(b: Buf, d: seq<byte>)
    ensures |b.bytes| + |d| <= CAPACITY ==> Write(b, d) == (Buf(b.bytes + d, b.pos), true)
    ensures |b.bytes| + |d| > CAPACITY ==> Write(b, d) == (b, false)
  {
  }

  /** The length goes first: it is kept even where the chunk behind it no longer fits. */
  lemma WriteBinaryCases(b: Buf, c: seq<byte>)
    ensures var used := |b.bytes|;
            && (used + 4 + |c| <= CAPACITY ==> WriteBinary(b, c) == (Buf(b.bytes + Chunk(c), b.pos), true))
            && (used + 4 <= CAPACITY < used + 4 + |c| ==>
                  WriteBinary(b, c) == (Buf(b.bytes + BigEndian(|c|, 4), b.pos), false))
            && (CAPACITY < used + 4 && used + |c| <= CAPACITY ==> WriteBinary(b, c) == (Buf(b.bytes + c, b.pos), true))
            && (CAPACITY < used + 4 && CAPACITY < used + |c| ==> WriteBinary(b, c) == (b, false))
  {
    assert b.bytes + BigEndian(|c|, 4) + c == b.bytes + Chunk(c);
  }

  /** Reading a chunk, in all its cases: no length left, a negative one, one beyond the caller's room, one beyond what
      is there, and a whole chunk. Only the third leaves the cursor where the read can be repeated; the first never
      moved. */
  lemma ReadBinaryCases(b: Buf, maxLen: nat)
    requires b.pos <= |b.bytes| <= CAPACITY
    ensures var left, g := |b.bytes| - b.pos, ReadBinary(b, maxLen);
            && (left < 4 ==> g == Got(0, [], b))
            && (left >= 4 ==>
                  var n, behind := FromBigEndian(b.bytes[b.pos..b.pos + 4]), b.(pos := b.pos + 4);
                  && (n >= 0x8000_0000 ==> g == Got(-1, [], behind))
                  && (maxLen < n < 0x8000_0000 ==> g == Got(-2, [], b))
                  && (n < 0x8000_0000 && n <= maxLen && left < 4 + n ==> g == Got(0, [], behind))
                  && (n < 0x8000_0000 && n <= maxLen && 4 + n <= left ==>
                        g == Got(n, b.bytes[b.pos + 4..b.pos + 4 + n], b.(pos := b.pos + 4 + n))))
  {
    if |b.bytes| - b.pos >= 4 {
      Widths();
      FromBigEndianRoundTrip(b.bytes[b.pos..b.pos + 4]);
    }
  }

  /** Where a read delivers nothing, the relay and the gateway leave the packet being built as it is. */
  lemma NothingForwarded(out: Buf, input: Buf)
    requires ReadBinary(input, CAPACITY).code <= 0
    ensures Forward(out, input) == Cover(out, input) == (out, ReadBinary(input, CAPACITY).after, false)
  {
  }

  /** Copying bytes without the mask bit keeps them as they are; the cursor goes behind the header they announce. */
  lemma CopyUnmasked(data: seq<byte>)
    requires 2 <= |data| <= CAPACITY && data[1] < 128
    ensures W.PayloadInBuffer(data)
    ensures CopyWs(data) ==
              Buf(data, if data[1] < 126 then 2 else if data[1] == 126 then 4 else 10)
  {
    assert W.Loaded(data)[..|data|] == data && W.Loaded(data)[1] == data[1];
  }

  lemma ReadAt(b: Buf, len: seq<byte>, n: nat)
    requires |len| == 4 && FromBigEndian(len) == n && b.pos + 4 + n <= |b.bytes| <= CAPACITY
    requires b.bytes[b.pos..b.pos + 4] == len
    ensures forall maxLen: nat {:trigger ReadBinary(b, maxLen)} ::
              ReadBinary(b, maxLen) ==
              if n <= maxLen then Got(n, b.bytes[b.pos + 4..b.pos + 4 + n], b.(pos := b.pos + 4 + n))
              else Got(-2, [], b)
  {
  }

  /** A chunk at the cursor is delivered whole if it fits the caller's room; otherwise the answer is -2 and the
      cursor has not moved, so that the read can be repeated with more room. */
  lemma ReadChunk(b: Buf, c: seq<byte>, tail: seq<byte>, maxLen: nat)
    requires AtChunk(b, c, tail)
    ensures ReadBinary(b, maxLen) ==
              if |c| <= maxLen then Got(|c|, c, Past(b, c)) else Got(-2, [], b)
    ensures b.bytes[Past(b, c).pos..] == tail
  {
    var s, len := b.bytes[b.pos..], BigEndian(|c|, 4);
    assert s == len + c + tail;
    Widths();
    BigEndianRoundTrip(|c|, 4);
    assert b.bytes[b.pos..b.pos + 4] == s[..4] == len;
    assert b.bytes[b.pos + 4..b.pos + 4 + |c|] == s[4..4 + |c|] == c;
    assert b.bytes[b.pos + 4 + |c|..] == s[4 + |c|..] == tail;
    ReadAt(b, len, |c|);
  }

  /** Reading undoes writing, up to the first empty chunk. */
  lemma {:induction false} ReadAllChunks(b: Buf, cs: seq<seq<byte>>)
    requires b.pos <= |b.bytes| <= CAPACITY && b.bytes[b.pos..] == Chunks(cs)
    ensures ReadAll(b) == Deliverable(cs)
    decreases |cs|
  {
    if cs != [] {
      ReadChunk(b, cs[0], Chunks(cs[1..]), CAPACITY);
      if cs[0] != [] {
        ReadAllChunks(ReadBinary(b, CAPACITY).after, cs[1..]);
      }
    }
  }

  /** A TCP packet under construction: a header's room, filled in once something has been moved, and chunks. */
  ghost predicate Carries(tcp: Buf, cs: seq<seq<byte>>) {
    && tcp.pos == TCP_HEADER
    && tcp.bytes == (if cs == [] then Zeros(TCP_HEADER) else T.Header(TCP_HEADER + |Chunks(cs)|)) + Chunks(cs)
  }

  lemma {:induction false} ChunksAppend(cs: seq<seq<byte>>, c: seq<byte>)
    ensures Chunks(cs + [c]) == Chunks(cs) + Chunk(c)
  {
    if cs == [] {
      assert cs + [c] == [c] && [c][1..] == [];
      assert Chunk(c) + [] == Chunk(c);
    } else {
      ChunksAppend(cs[1..], c);
      assert (cs + [c])[1..] == cs[1..] + [c];
      assert (cs + [c])[0] == cs[0];
      assert Chunk(cs[0]) + (Chunks(cs[1..]) + Chunk(c)) == Chunk(cs[0]) + Chunks(cs[1..]) + Chunk(c);
    }
  }

  lemma ForwardOne(out: Buf, input: Buf, c: seq<byte>, tail: seq<byte>)
    requires c != [] && |out.bytes| + |Chunk(c)| <= CAPACITY
    requires AtChunk(input, c, tail)
    ensures Forward(out, input) == (out.(bytes := out.bytes + Chunk(c)), Past(input, c), true)
    ensures Past(input, c).bytes[Past(input, c).pos..] == tail
  {
    ReadChunk(input, c, tail, CAPACITY);
    assert out.bytes + BigEndian(|c|, 4) + c == out.bytes + Chunk(c);
  }

  lemma OverwrittenFront(h0: seq<byte>, x: seq<byte>, y: seq<byte>, h: seq<byte>)
    requires |h0| == |h|
    ensures Overwritten(h0 + x + y, h) == h + (x + y)
  {
  }

  /** Closing a packet that carries `done` with one more chunk behind it. */
  lemma EndCarries(tcp: Buf, done: seq<seq<byte>>, c: seq<byte>)
    requires Carries(tcp, done)
    ensures Carries(EndTcp(tcp.(bytes := tcp.bytes + Chunk(c))), done + [c])
  {
    ChunksAppend(done, c);
    var h0 := tcp.bytes[..TCP_HEADER];
    assert tcp.bytes == h0 + Chunks(done);
    OverwrittenFront(h0, Chunks(done), Chunk(c), T.Header(|tcp.bytes + Chunk(c)|));
    assert done + [c] != [];
  }

  lemma CoverOne(tcp: Buf, ws: Buf, done: seq<seq<byte>>, c: seq<byte>, tail: seq<byte>)
    requires Carries(tcp, done) && c != [] && |tcp.bytes| + |Chunk(c)| <= CAPACITY
    requires AtChunk(ws, c, tail)
    ensures var (t, w, ok) := Cover(tcp, ws);
            && ok && Carries(t, done + [c]) && |t.bytes| == |tcp.bytes| + |Chunk(c)|
            && w == Past(ws, c) && w.bytes[w.pos..] == tail
  {
    ForwardOne(tcp, ws, c, tail);
    EndCarries(tcp, done, c);
  }

  lemma RelayStep(tcp: Buf, ws: Buf)
    ensures var (t, w, ok) := Cover(tcp, ws);
            Relay(tcp, ws) == if ok then Relay(t, w) else (t, w)
  {
  }

  lemma RelayStops(tcp: Buf, ws: Buf, tail: seq<byte>)
    requires ws.pos == |ws.bytes| || AtChunk(ws, [], tail)
    ensures Relay(tcp, ws).0 == tcp
  {
    if ws.pos < |ws.bytes| {
      ReadChunk(ws, [], tail, CAPACITY);
    }
  }

  lemma DeliverableStep(done: seq<seq<byte>>, cs: seq<seq<byte>>)
    requires cs != [] && cs[0] != []
    ensures done + [cs[0]] + Deliverable(cs[1..]) == done + Deliverable(cs)
  {
    Regroup(done, [cs[0]], Deliverable(cs[1..]));
  }

  lemma {:induction false} RelayChunks(tcp: Buf, ws: Buf, done: seq<seq<byte>>, cs: seq<seq<byte>>)
    requires Carries(tcp, done)
    requires ws.pos <= |ws.bytes| <= CAPACITY && ws.bytes[ws.pos..] == Chunks(cs)
    requires |tcp.bytes| + |Chunks(cs)| <= CAPACITY
    ensures Carries(Relay(tcp, ws).0, done + Deliverable(cs))
    decreases |cs|
  {
    if cs == [] || cs[0] == [] {
      RelayStops(tcp, ws, if cs == [] then [] else Chunks(cs[1..]));
      assert done + Deliverable(cs) == done;
    } else {
      var c, rest := cs[0], cs[1..];
      CoverOne(tcp, ws, done, c, Chunks(rest));
      RelayStep(tcp, ws);
      var (t, w, ok) := Cover(tcp, ws);
      RelayChunks(t, w, done + [c], rest);
      DeliverableStep(done, cs);
    }
  }

  lemma {:induction false} DeliverableFits(cs: seq<seq<byte>>)
    ensures |Chunks(Deliverable(cs))| <= |Chunks(cs)|
  {
    if cs != [] && cs[0] != [] {
      DeliverableFits(cs[1..]);
      assert Deliverable(cs)[1..] == Deliverable(cs[1..]);
    }
  }

  /** End to end. A client puts chunks into one WebSocket frame, with any length class and any masking key; the
      gateway copies it in and moves the chunks over. The TCP packet then reads back exactly the chunks up to the
      first empty one, and the TCP decoder takes it as one whole frame exactly when there is such a chunk. */
  lemma GatewayDelivers(first: byte, c: W.LenClass, key: W.Key, cs: seq<seq<byte>>)
    requires W.Fits(c, |Chunks(cs)|) && |W.Frame(first, c, key, Chunks(cs))| <= CAPACITY
    requires TCP_HEADER + |Chunks(cs)| <= CAPACITY
    ensures var f := W.Frame(first, c, key, Chunks(cs));
            W.PayloadInBuffer(f) &&
            var tcp := Relay(Buf(Zeros(TCP_HEADER), TCP_HEADER), CopyWs(f)).0;
            && ReadAll(Buf(tcp.bytes, TCP_HEADER)) == Deliverable(cs)
            && (T.ParsePacket(tcp.bytes) == |tcp.bytes| <==> Deliverable(cs) != [])
  {
    var f := W.Frame(first, c, key, Chunks(cs));
    W.CopyRecoversBody(first, c, key, Chunks(cs));
    var ws := CopyWs(f);
    assert ws.bytes[ws.pos..] == Chunks(cs);
    var blank := Buf(Zeros(TCP_HEADER), TCP_HEADER);
    assert Carries(blank, []) by {
      assert Zeros(TCP_HEADER) + [] == Zeros(TCP_HEADER);
    }
    RelayChunks(blank, ws, [], cs);
    assert [] + Deliverable(cs) == Deliverable(cs);
    DeliverableFits(cs);
    DeliverableTwice(cs);
    CarriedIsReadable(Relay(blank, ws).0, Deliverable(cs));
  }

  lemma CarriedIsReadable(tcp: Buf, ds: seq<seq<byte>>)
    requires Carries(tcp, ds) && TCP_HEADER + |Chunks(ds)| <= CAPACITY
    ensures ReadAll(Buf(tcp.bytes, TCP_HEADER)) == Deliverable(ds)
    ensures T.ParsePacket(tcp.bytes) == |tcp.bytes| <==> ds != []
  {
    var h := if ds == [] then Zeros(TCP_HEADER) else T.Header(TCP_HEADER + |Chunks(ds)|);
    Behind(h, Chunks(ds));
    ReadAllChunks(Buf(tcp.bytes, TCP_HEADER), ds);
    CarriedIsFrame(tcp, ds);
  }

  lemma Behind(h: seq<byte>, s: seq<byte>)
    ensures (h + s)[|h|..] == s
  {
  }

  lemma CarriedIsFrame(tcp: Buf, ds: seq<seq<byte>>)
    requires Carries(tcp, ds) && TCP_HEADER + |Chunks(ds)| <= CAPACITY
    ensures T.ParsePacket(tcp.bytes) == |tcp.bytes| <==> ds != []
  {
    if ds != [] {
      T.HeaderMakesFrame(TCP_HEADER + |Chunks(ds)|, Chunks(ds));
    }
  }

  lemma {:induction false} DeliverableTwice(cs: seq<seq<byte>>)
    ensures Deliverable(Deliverable(cs)) == Deliverable(cs)
  {
    if cs != [] && cs[0] != [] {
      DeliverableTwice(cs[1..]);
      assert Deliverable(cs)[1..] == Deliverable(cs[1..]);
    }
  }

  /** WebSocket round trip of the packet class itself: what `_end` frames, `_copy` opens again on the chunks. */
  lemma WsRoundTrip(cs: seq<seq<byte>>)
    requires |Chunks(cs)| <= CAPACITY
    requires |W.Frame(0x82, W.Minimal(|Chunks(cs)|), [], Chunks(cs))| <= CAPACITY
    ensures WriteAll(Buf([], 0), cs).bytes == Chunks(cs)
    ensures var f := EndWs(WriteAll(Buf([], 0), cs)).bytes;
            |f| <= CAPACITY && W.PayloadInBuffer(f) && ReadAll(CopyWs(f)) == Deliverable(cs)
  {
    WriteAllAppends(Buf([], 0), cs);
    assert [] + Chunks(cs) == Chunks(cs);
    var f := W.Frame(0x82, W.Minimal(|Chunks(cs)|), [], Chunks(cs));
    W.CopyRecoversBody(0x82, W.Minimal(|Chunks(cs)|), [], Chunks(cs));
    var ws := CopyWs(f);
    assert ws.bytes[ws.pos..] == Chunks(cs);
    ReadAllChunks(ws, cs);
  }

  /** TCP round trip: write chunks, close the packet, and the decoder takes it whole and the reader gets them back. */
  lemma TcpRoundTrip(cs: seq<seq<byte>>)
    requires TCP_HEADER + |Chunks(cs)| <= CAPACITY
    ensures var f := EndTcp(WriteAll(Buf(Zeros(TCP_HEADER), TCP_HEADER), cs)).bytes;
            && T.ParsePacket(f) == |f|
            && ReadAll(Buf(f, TCP_HEADER)) == Deliverable(cs)
  {
    var blank := Buf(Zeros(TCP_HEADER), TCP_HEADER);
    WriteAllAppends(blank, cs);
    var f := EndTcp(WriteAll(blank, cs)).bytes;
    assert f == T.Header(|f|) + Chunks(cs);
    T.HeaderMakesFrame(|f|, Chunks(cs));
    ReadAllChunks(Buf(f, TCP_HEADER), cs);
  }

  /** The relay reports success on any non-empty chunk, but the copy is intact exactly when the chunk and its
      length still fit behind what the packet holds. */
  lemma ForwardIntact(out: Buf, input: Buf, c: seq<byte>, tail: seq<byte>)
    requires c != [] && |out.bytes| <= CAPACITY
    requires AtChunk(input, c, tail)
    ensures var (o, rest, ok) := Forward(out, input);
            && ok && rest.bytes[rest.pos..] == tail
            && (o.bytes == out.bytes + Chunk(c) <==> |out.bytes| + |Chunk(c)| <= CAPACITY)
  {
    ReadChunk(input, c, tail, CAPACITY);
    if |out.bytes| + |Chunk(c)| <= CAPACITY {
      ForwardOne(out, input, c, tail);
    } else {
      assert |WriteBinary(out, c).0.bytes| < |out.bytes + Chunk(c)|;
    }
  }
}
