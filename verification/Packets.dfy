/** The packet buffer: a fixed array, the number of bytes in use and a read cursor. The TCP and the WebSocket
    packet classes repeat these members word for word; here they are one class, with the framing of each kind
    (`TcpReset`, `TcpEnd`, `WsEnd`, `WsCopy`) beside them. */
module Packets {
  import opened Bytes
  import opened Wire
  import T = TcpFrames
  import W = WsFrames

  /** What a packet buffer holds: the bytes in use and the cursor. */
  datatype Buf = Buf(bytes: seq<byte>, pos: nat)

  function Write(b: Buf, d: seq<byte>): (Buf, bool) {
    if |b.bytes| + |d| > CAPACITY then (b, false) else (b.(bytes := b.bytes + d), true)
  }

  /** The length goes first, and its failure is not looked at. */
  function WriteBinary(b: Buf, d: seq<byte>): (Buf, bool) {
    Write(Write(b, BigEndian(|d|, 4)).0, d)
  }

  predicate CanRead(b: Buf, n: nat) {
    b.pos + n <= |b.bytes| && b.pos + n <= CAPACITY
  }

  /** A read past the end leaves the caller's zero in place. */
  function ReadInt(b: Buf): (int, Buf) {
    if CanRead(b, 4) then
      (Int32(FromBigEndian(b.bytes[b.pos..b.pos + 4])), b.(pos := b.pos + 4))
    else
      (0, b)
  }

  /** Return code, bytes delivered, buffer afterwards. */
  datatype Got = Got(code: int, data: seq<byte>, after: Buf)

  function ReadBinary(b: Buf, maxLen: nat): (g: Got) {
    var (n, b1) := ReadInt(b);
    if n < 0 then Got(-1, [], b1)
    else if n > maxLen then Got(-2, [], b)
    else if CanRead(b1, n) then Got(n, b1.bytes[b1.pos..b1.pos + n], b1.(pos := b1.pos + n))
    else Got(0, [], b1)
  }

  /** The first bytes of `s` replaced by those of `h`; what does not fit is lost. */
  function Overwritten(s: seq<byte>, h: seq<byte>): (r: seq<byte>)
    ensures |r| == |s|
  {
    if |s| < |h| then h[..|s|] else h + s[|h|..]
  }

  lemma PatchOverwrites(s: seq<byte>, n: nat, a: seq<byte>, b: seq<byte>)
    requires |a| + |b| <= |s| && n <= |s|
    ensures Patch(Patch(s, 0, a), |a|, b)[..n] == Overwritten(s[..n], a + b)
  {
    PatchTwice(s, 0, a, b);
  }

  lemma TcpHeaderStored(size: nat)
    ensures LittleEndian(Htonl((size - 4) % 0x1_0000_0000), 4) + ['X' as int, 'X' as int] == T.Header(size)
  {
    StoredHtonl((size - 4) % 0x1_0000_0000);
  }

  /** Contents once the TCP header has been written; the cursor stays. */
  function EndTcp(b: Buf): (r: Buf) {
    b.(bytes := Overwritten(b.bytes, T.Header(|b.bytes|)))
  }

  /** Contents once the WebSocket header has been put in front. */
  function EndWs(b: Buf): (r: Buf)
    requires |b.bytes| < 0x8000_0000
  {
    b.(bytes := W.Frame(0x82, W.Minimal(|b.bytes|), [], b.bytes))
  }

  /** The moves of `_end`, put together: the body behind the room for the header, the first two bytes, the rest. */
  lemma HeaderWritten(was: seq<byte>, s: seq<byte>, headerLen: nat, code: byte, body: seq<byte>)
    requires headerLen + |body| <= |was| && |body| < 0x8000_0000
    requires var c := W.Minimal(|body|);
             headerLen == 2 + |W.Extended(c, |body|)| && code == W.Code(c, |body|)
    requires s == Patch(was, headerLen, body)
    ensures Patch(Patch(s, 0, [0x82, code]), 2, W.Extended(W.Minimal(|body|), |body|))[..headerLen + |body|]
            == W.Frame(0x82, W.Minimal(|body|), [], body)
  {
    var c := W.Minimal(|body|);
    var head := W.FrameHeader(0x82, c, [], |body|);
    var ext := W.Extended(c, |body|);
    PatchTwice(s, 0, [0x82, code], ext);
    assert head == [0x82, code] + ext;
    PatchFrame(was, head, body);
  }

  /** Contents after a received WebSocket frame has been copied in and unmasked. */
  function CopyWs(data: seq<byte>): (r: Buf)
    requires |data| <= CAPACITY && W.PayloadInBuffer(data)
  {
    Buf(W.Copied(data)[..|data|], W.HeadLen(W.Loaded(data)[1]))
  }

  function Forward(out: Buf, input: Buf): (Buf, Buf, bool) {
    var g := ReadBinary(input, CAPACITY);
    if g.code <= 0 then (out, g.after, false) else (WriteBinary(out, g.data).0, g.after, true)
  }

  function Cover(tcp: Buf, ws: Buf): (Buf, Buf, bool) {
    var (out, after, ok) := Forward(tcp, ws);
    (if ok then EndTcp(out) else out, after, ok)
  }

  class Packet {
    const buf: array<byte>
    var size: nat
    var pos: nat

    ghost predicate Valid()
      reads this
    {
      buf.Length == CAPACITY && size <= CAPACITY
    }

    ghost function Contents(): Buf
      reads this, buf
      requires Valid()
    {
      Buf(buf[..size], pos)
    }

    constructor Tcp()
      ensures Valid() && fresh(buf) && Contents() == Buf(Zeros(TCP_HEADER), TCP_HEADER)
    {
      buf := new byte[CAPACITY](_ => 0);
      size, pos := TCP_HEADER, TCP_HEADER;
      new;
      assert buf[..size] == Zeros(TCP_HEADER);
    }

    constructor WsInput()
      ensures Valid() && fresh(buf) && Contents() == Buf(Zeros(WS_HEADER), WS_HEADER)
    {
      buf := new byte[CAPACITY](_ => 0);
      size, pos := WS_HEADER, WS_HEADER;
      new;
      assert buf[..size] == Zeros(WS_HEADER);
    }

    constructor WsOutput()
      ensures Valid() && fresh(buf) && Contents() == Buf([], 0)
    {
      buf := new byte[CAPACITY](_ => 0);
      size, pos := 0, 0;
    }

    /** The packet's own bytes, as handed to the socket. */
    method PacketBytes() returns (s: seq<byte>)
      requires Valid()
      ensures s == Contents().bytes
    {
      s := buf[..size];
    }

    /** memcpy into the buffer. */
    method Store(at: nat, d: seq<byte>)
      requires Valid() && at + |d| <= CAPACITY
      modifies buf
      ensures buf[..] == Patch(old(buf[..]), at, d)
    {
      forall i | 0 <= i < |d| {
        buf[at + i] := d[i];
      }
      assert buf[..] == Patch(old(buf[..]), at, d);
    }

    method Append(d: seq<byte>) returns (ok: bool)
      requires Valid()
      modifies this`size, buf
      ensures Valid() && (Contents(), ok) == Write(old(Contents()), d)
    {
      if |d| + size > CAPACITY {
        return false;
      }
      Store(size, d);
      PatchAppend(old(buf[..]), size, d);
      size := size + |d|;
      return true;
    }

    method Take(n: nat) returns (ok: bool, d: seq<byte>)
      requires Valid()
      modifies this`pos
      ensures Valid() && ok == CanRead(old(Contents()), n)
      ensures ok ==> d == old(Contents().bytes[pos..pos + n]) && Contents() == old(Contents()).(pos := old(pos) + n)
      ensures !ok ==> d == [] && Contents() == old(Contents())
    {
      if n + pos > size || n + pos > CAPACITY {
        return false, [];
      }
      d := buf[pos..pos + n];
      assert d == buf[..size][pos..pos + n];
      pos := pos + n;
      return true, d;
    }

    method AppendInt(n: int) returns (ok: bool)
      requires Valid() && -0x8000_0000 <= n < 0x8000_0000
      modifies this`size, buf
      ensures Valid() && (Contents(), ok) == Write(old(Contents()), BigEndian(n % 0x1_0000_0000, 4))
    {
      var value := n % 0x1_0000_0000;
      StoredHtonl(value);
      ok := Append(LittleEndian(Htonl(value), 4));
    }

    method TakeInt() returns (n: int)
      requires Valid()
      modifies this`pos
      ensures Valid() && (n, Contents()) == ReadInt(old(Contents()))
    {
      var ok, raw := Take(4);
      if !ok {
        raw := [0, 0, 0, 0];
      }
      LoadedNtohl(raw);
      assert FromBigEndian([0, 0, 0, 0]) == 0 by { ZeroIsZero(); }
      n := Int32(Htonl(FromLittleEndian(raw)));
    }

    method AppendBinary(d: seq<byte>) returns (ok: bool)
      requires Valid() && |d| < 0x8000_0000
      modifies this`size, buf
      ensures Valid() && (Contents(), ok) == WriteBinary(old(Contents()), d)
    {
      var _ := AppendInt(|d|);
      ok := Append(d);
    }

    method TakeBinary(maxLen: nat) returns (code: int, d: seq<byte>)
      requires Valid()
      modifies this`pos
      ensures Valid() && Got(code, d, Contents()) == ReadBinary(old(Contents()), maxLen)
    {
      var n := TakeInt();
      if n < 0 {
        return -1, [];
      }
      if n > maxLen {
        assert CanRead(old(Contents()), 4);
        pos := pos - 4;
        return -2, [];
      }
      var ok;
      ok, d := Take(n);
      if ok {
        return n, d;
      }
      return 0, d;
    }

    // ---- framing ----

    method Reset(header: nat)
      requires Valid() && header <= CAPACITY
      modifies this, buf
      ensures Valid() && buf[..] == Zeros(CAPACITY) && size == header && pos == header
    {
      forall i | 0 <= i < CAPACITY {
        buf[i] := 0;
      }
      size, pos := header, header;
    }

    method TcpCopy(data: seq<byte>) returns (ok: bool)
      requires Valid()
      modifies this, buf
      ensures Valid() && ok == (|data| <= CAPACITY)
      ensures Contents() == if ok then Buf(data, TCP_HEADER) else old(Contents())
    {
      if |data| > CAPACITY {
        return false;
      }
      Reset(TCP_HEADER);
      Store(0, data);
      size := |data|;
      assert buf[..size] == data;
      return true;
    }

    /** `_writeHeader`: small moves to the start of the buffer. */
    method WriteHeader(d: seq<byte>, at: nat, header: nat)
      requires Valid() && at + |d| <= CAPACITY
      modifies buf
      ensures buf[..] == if at > 0 || at + |d| < header then Patch(old(buf[..]), at, d) else old(buf[..])
    {
      if at > 0 || at + |d| < header {
        Store(at, d);
      }
    }

    /** The body length is everything after the length field; the two magic bytes follow it. */
    method TcpEnd()
      requires Valid()
      modifies buf
      ensures Valid() && Contents() == EndTcp(old(Contents()))
    {
      var nBody := (size - 4) % 0x1_0000_0000;
      var len := LittleEndian(Htonl(nBody), 4);
      WriteHeader(len, 0, TCP_HEADER);
      WriteHeader(['X' as int, 'X' as int], |len|, TCP_HEADER);
      PatchOverwrites(old(buf[..]), size, len, ['X' as int, 'X' as int]);
      TcpHeaderStored(size);
      assert buf[..size] == buf[..][..size] && old(buf[..size]) == old(buf[..])[..size];
    }

    /** The extended length, in network byte order, behind the first two header bytes. */
    method WriteExtended(headerLen: nat, n: nat)
      requires Valid() && n <= CAPACITY && headerLen == 2 + |W.Extended(W.Minimal(n), n)|
      modifies buf
      ensures buf[..] == Patch(old(buf[..]), 2, W.Extended(W.Minimal(n), n))
    {
      if headerLen == 4 {
        WriteHeader(LittleEndian(Htons(n), 2), 2, WS_HEADER);
      } else if headerLen == 10 {
        StoredHtonl64(n);
        WriteHeader(LittleEndian(Htonl64(n), 8), 2, WS_HEADER);
      }
    }

    method WriteFirstTwo(first: byte, second: byte)
      requires Valid()
      modifies buf
      ensures buf[..] == Patch(old(buf[..]), 0, [first, second])
    {
      WriteHeader([first], 0, WS_HEADER);
      WriteHeader([second], 1, WS_HEADER);
      PatchTwice(old(buf[..]), 0, [first], [second]);
      assert [first] + [second] == [first, second];
    }

    /** Moves the body up and puts the shortest header in front of it, unmasked, final, binary. */
    method WsEnd()
      requires Valid() && |W.Frame(0x82, W.Minimal(size), [], Contents().bytes)| <= CAPACITY
      modifies this`size, buf
      ensures Valid()
      ensures Contents() == EndWs(old(Contents()))
    {
      var body := buf[..size];
      var n: nat := size;
      var headerLen: nat, len: nat := 4, 126;
      if n < 126 {
        headerLen, len := 2, n;
      } else if n > 65535 {
        headerLen, len := 10, 127;
      }
      Store(headerLen, body);
      ghost var s := buf[..];
      WriteFirstTwo(0x82, len % 128);
      WriteExtended(headerLen, n);
      HeaderWritten(old(buf[..]), s, headerLen, len % 128, body);
      size := headerLen + n;
      assert buf[..size] == buf[..][..size];
    }

    /** The masking loop: each payload byte in place, with the key read from the header every time. */
    method UnmaskInPlace(keyAt: nat, off: nat, n: int)
      requires Valid() && off == keyAt + 4 <= WS_HEADER && off + n <= CAPACITY
      modifies buf
      ensures buf[..] == W.Unmask(old(buf[..]), off, n)
    {
      var i := 0;
      while i < n
        invariant 0 <= i && (i <= n || i == 0)
        invariant buf[..] == W.Unmask(old(buf[..]), off, i)
      {
        W.KeyedStep(XorByte, old(buf[..]), off, i);
        ghost var u := buf[..];
        assert W.KeyAt(off, off + i) == keyAt + i % 4;
        buf[off + i] := XorByte(buf[off + i], buf[keyAt + i % 4]);
        assert buf[..] == u[off + i := XorByte(u[off + i], u[keyAt + i % 4])];
        i := i + 1;
      }
    }

    method WsCopy(data: seq<byte>) returns (ok: bool)
      requires Valid() && (|data| <= CAPACITY ==> W.PayloadInBuffer(data))
      modifies this, buf
      ensures Valid() && ok == (|data| <= CAPACITY)
      ensures ok ==> buf[..] == W.Copied(data)
      ensures Contents() == if ok then CopyWs(data) else old(Contents())
    {
      if |data| > CAPACITY {
        return false;
      }
      Reset(WS_HEADER);
      Store(0, data);
      assert buf[..] == W.Loaded(data);
      size := |data|;
      pos := if size < 2 then 2 else W.HeadLen(buf[1]);
      var code := buf[1] % 128;
      var keyAt := if code < 126 then 2 else if code == 126 then 4 else 10;
      if W.HasMask(buf[1]) {
        var n := PayloadLength();
        UnmaskInPlace(keyAt, pos, n);
      }
      assert buf[..size] == buf[..][..size];
      return true;
    }

    /** The length as it lies in the header, through ntohs or ntohl64. */
    method PayloadLength() returns (n: int)
      requires Valid()
      ensures n == W.PayloadLen(buf[..])
    {
      var code := buf[1] % 128;
      if code < 126 {
        return code;
      } else if code == 126 {
        assert buf[2..4] == buf[..][2..4];
        return FromBigEndian(buf[2..4]);
      } else {
        assert buf[2..10] == buf[..][2..10];
        LoadedNtohl64(buf[2..10]);
        return Int32(Htonl64(FromLittleEndian(buf[2..10])));
      }
    }

    // ---- the gateway and the relay ----

    /** Moves the next chunk of a WebSocket packet into this TCP packet. */
    method CoverFrom(ws: Packet) returns (ok: bool)
      requires Valid() && ws.Valid() && ws != this && ws.buf != buf
      modifies this`size, buf, ws`pos
      ensures Valid() && ws.Valid()
      ensures (Contents(), ws.Contents(), ok) == Cover(old(Contents()), old(ws.Contents()))
    {
      var n, d := ws.TakeBinary(CAPACITY);
      if n <= 0 {
        return false;
      }
      var _ := AppendBinary(d);
      TcpEnd();
      return true;
    }

    /** `EnCodeProtoPBInpuf`: copies the next chunk of `input` behind what this packet holds. */
    method AppendFrom(input: Packet) returns (ok: bool)
      requires Valid() && input.Valid() && input != this && input.buf != buf
      modifies this`size, buf, input`pos
      ensures Valid() && input.Valid()
      ensures (Contents(), input.Contents(), ok) == Forward(old(Contents()), old(input.Contents()))
    {
      var n, d := input.TakeBinary(CAPACITY);
      if n <= 0 {
        return false;
      }
      var _ := AppendBinary(d);
      return true;
    }
  }
}
