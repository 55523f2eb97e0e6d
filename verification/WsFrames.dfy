/** The WebSocket data frame (sections 5.2 and 5.3 of RFC 6455), the header arithmetic of the packet class, and
    the stream decoder beside it. */
module WsFrames {
  import opened Bytes
  import opened Wire
  import opened Streams

  /** How the payload length is written: in the second byte, or in 2 or 8 further bytes. */
  datatype LenClass = Seven | Sixteen | SixtyFour

  predicate Fits(c: LenClass, n: nat) {
    match c
    case Seven => n < 126
    case Sixteen => n < 0x1_0000
    case SixtyFour => n < 0x8000_0000_0000_0000
  }

  /** The class the standard demands: the shortest that holds the length. */
  function Minimal(n: nat): (c: LenClass)
    ensures forall d: LenClass :: Fits(d, n) ==> |Extended(c, n)| <= |Extended(d, n)|
  {
    if n < 126 then Seven else if n < 0x1_0000 then Sixteen else SixtyFour
  }

  function Code(c: LenClass, n: nat): (r: nat)
    requires Fits(c, n)
    ensures r < 128
  {
    match c
    case Seven => n
    case Sixteen => 126
    case SixtyFour => 127
  }

  function Extended(c: LenClass, n: nat): (s: seq<byte>)
    ensures |s| == match c case Seven => 0 case Sixteen => 2 case SixtyFour => 8
  {
    match c
    case Seven => []
    case Sixteen => BigEndian(n, 2)
    case SixtyFour => BigEndian(n, 8)
  }

  /** A masking key of four bytes, or none. */
  type Key = k: seq<byte> | |k| == 0 || |k| == 4

  function MaskData(key: Key, d: seq<byte>): (r: seq<byte>)
    ensures |r| == |d|
    ensures forall i :: 0 <= i < |d| ==> r[i] == if key == [] then d[i] else XorByte(d[i], key[i % 4])
  {
    if key == [] then d else seq(|d|, i requires 0 <= i < |d| => XorByte(d[i], key[i % 4]))
  }

  function FrameHeader(first: byte, c: LenClass, key: Key, n: nat): (h: seq<byte>)
    requires Fits(c, n)
    ensures |h| == 2 + |Extended(c, n)| + |key|
  {
    [first, Code(c, n) + if key == [] then 0 else 128] + Extended(c, n) + key
  }

  /** The frame carrying `body`. */
  function Frame(first: byte, c: LenClass, key: Key, body: seq<byte>): (f: seq<byte>)
    requires Fits(c, |body|)
  {
    FrameHeader(first, c, key, |body|) + MaskData(key, body)
  }

  // ---- the packet class ----

  function HeadLen(second: byte): (n: nat) {
    var mask := if second / 128 > 0 then 4 else 0;
    if second % 128 < 126 then 2 + mask
    else if second % 128 == 126 then 4 + mask
    else 10 + mask
  }

  predicate HasMask(second: byte) {
    second / 128 > 0
  }

  /** The 64-bit length is cut to `unsigned int` and returned as `int`. */
  function PayloadLen(m: seq<byte>): (n: int)
    requires |m| >= 10
  {
    if m[1] % 128 < 126 then m[1] % 128
    else if m[1] % 128 == 126 then FromBigEndian(m[2..4])
    else Int32(FromBigEndian(m[2..10]))
  }

  /** `m` with the masking key just before `off` applied to the `n` bytes from `off` on. */
  function Unmask(m: seq<byte>, off: nat, n: int): (r: seq<byte>)
    requires 4 <= off && off + n <= |m|
    ensures |r| == |m|
  {
    Keyed(XorByte, m, off, n)
  }

  /** Where the key byte for position `i` of the buffer lies, the payload starting at `off`. */
  function KeyAt(off: nat, i: nat): (k: nat)
    requires 4 <= off <= i
    ensures off - 4 <= k < off
  {
    off - 4 + (i - off) % 4
  }

  function Keyed(f: (byte, byte) -> byte, m: seq<byte>, off: nat, n: int): (r: seq<byte>)
    requires 4 <= off && off + n <= |m|
    ensures |r| == |m|
  {
    seq(|m|, i requires 0 <= i < |m| => KeyedByte(f, m, off, n, i))
  }

  function KeyedByte(f: (byte, byte) -> byte, m: seq<byte>, off: nat, n: int, i: nat): byte
    requires 4 <= off && off + n <= |m| && i < |m|
  {
    if off <= i < off + n then f(m[i], m[KeyAt(off, i)]) else m[i]
  }

  /** The whole buffer after the bytes have been copied to its start. */
  function Loaded(data: seq<byte>): (m: seq<byte>)
    requires |data| <= CAPACITY
    ensures |m| == CAPACITY
  {
    data + Zeros(CAPACITY - |data|)
  }

  /** What the copy leaves unchecked: the payload a masked header announces must lie inside the buffer. */
  predicate PayloadInBuffer(data: seq<byte>)
    requires |data| <= CAPACITY
  {
    var m := Loaded(data);
    HasMask(m[1]) ==> HeadLen(m[1]) + PayloadLen(m) <= CAPACITY
  }

  /** Buffer contents after a copy; the cursor goes to `HeadLen`. */
  function Copied(data: seq<byte>): (m: seq<byte>)
    requires |data| <= CAPACITY && PayloadInBuffer(data)
    ensures |m| == CAPACITY
  {
    var m := Loaded(data);
    if HasMask(m[1]) then Unmask(m, HeadLen(m[1]), PayloadLen(m)) else m
  }

  /** The bytes behind the first two spell the length, where it is written there. */
  lemma LengthBytes(first: byte, c: LenClass, key: Key, n: nat, tail: seq<byte>)
    requires Fits(c, n)
    ensures var f := FrameHeader(first, c, key, n) + tail;
            && f[1] % 128 == Code(c, n) && (f[1] / 128 > 0 <==> key != [])
            && (c == Sixteen ==> f[2..4] == BigEndian(n, 2))
            && (c == SixtyFour ==> f[2..10] == BigEndian(n, 8) && f[2..6] == BigEndian(n, 8)[..4])
  {
    var f, ext := FrameHeader(first, c, key, n) + tail, Extended(c, n);
    assert forall i :: 0 <= i < |ext| ==> f[2 + i] == ext[i];
  }

  /** What they spell; the first four of eight, the upper half. */
  lemma LengthRead(c: LenClass, n: nat)
    requires Fits(c, n)
    ensures c == Sixteen ==> FromBigEndian(BigEndian(n, 2)) == n
    ensures c == SixtyFour ==> FromBigEndian(BigEndian(n, 8)) == n
    ensures c == SixtyFour ==> FromBigEndian(BigEndian(n, 8)[..4]) == n / 0x1_0000_0000
  {
    Widths();
    match c {
      case Seven =>
      case Sixteen => BigEndianRoundTrip(n, 2);
      case SixtyFour =>
        BigEndianRoundTrip(n, 8);
        var high, low := n / 0x1_0000_0000, n % 0x1_0000_0000;
        BigEndianSplit(high, low, 4, 4);
        assert BigEndian(n, 8)[..4] == BigEndian(high, 4);
        BigEndianRoundTrip(high, 4);
    }
  }

  /** The header of a frame, read back. */
  lemma HeaderFields(first: byte, c: LenClass, key: Key, n: nat, tail: seq<byte>)
    requires Fits(c, n)
    ensures var h := FrameHeader(first, c, key, n); var f := h + tail;
            && HeadLen(f[1]) == |h| && (HasMask(f[1]) <==> key != []) && h[|h| - |key|..] == key
            && (|f| >= 10 && n < 0x8000_0000 ==> PayloadLen(f) == n)
  {
    LengthBytes(first, c, key, n, tail);
    LengthRead(c, n);
  }

  /** Any payload length, as the packet class reads it: a signed 32-bit number, congruent to the one written. */
  lemma LengthCut(first: byte, c: LenClass, key: Key, n: nat, tail: seq<byte>)
    requires Fits(c, n) && |FrameHeader(first, c, key, n) + tail| >= 10
    ensures var len := PayloadLen(FrameHeader(first, c, key, n) + tail);
            -0x8000_0000 <= len < 0x8000_0000 && (len - n) % 0x1_0000_0000 == 0
  {
    LengthBytes(first, c, key, n, tail);
    LengthRead(c, n);
    Int32Congruent(n);
  }

  /** Masking is undone by applying the key again in place. */
  lemma UnmaskRestores(pre: seq<byte>, key: Key, body: seq<byte>, tail: seq<byte>)
    requires |key| == 4
    ensures Unmask(pre + key + MaskData(key, body) + tail, |pre| + 4, |body|) == pre + key + body + tail
  {
    var masked := MaskData(key, body);
    var m, off := pre + key + masked + tail, |pre| + 4;
    forall j | 0 <= j < |body|
      ensures XorByte(m[off + j], m[KeyAt(off, off + j)]) == body[j]
    {
      MaskedAt(pre, key, masked, tail, j);
      XorByteTwice(body[j], key[j % 4]);
    }
    KeyedSlice(XorByte, m, off, body);
    Around(pre, key, masked, tail);
  }

  lemma MaskedAt(pre: seq<byte>, key: Key, masked: seq<byte>, tail: seq<byte>, j: nat)
    requires |key| == 4 && j < |masked|
    ensures var m, off := pre + key + masked + tail, |pre| + 4;
            m[off + j] == masked[j] && m[KeyAt(off, off + j)] == key[j % 4]
  {
    var m, k := pre + key + masked + tail, j % 4;
    assert m[|pre| + 4 + j] == (masked + tail)[j];
    assert m[|pre| + k] == key[k];
  }

  lemma Around(pre: seq<byte>, key: Key, masked: seq<byte>, tail: seq<byte>)
    requires |key| == 4
    ensures var m, off := pre + key + masked + tail, |pre| + 4;
            m[..off] == pre + key && m[off + |masked|..] == tail
  {
  }

  /** The keyed part is `body`, the rest is as it was. */
  lemma KeyedSlice(f: (byte, byte) -> byte, m: seq<byte>, off: nat, body: seq<byte>)
    requires 4 <= off && off + |body| <= |m|
    requires forall j :: 0 <= j < |body| ==> f(m[off + j], m[KeyAt(off, off + j)]) == body[j]
    ensures Keyed(f, m, off, |body|) == m[..off] + body + m[off + |body|..]
  {
    var u := Keyed(f, m, off, |body|);
    forall i | off <= i < off + |body|
      ensures u[i] == body[i - off]
    {
      var j := i - off;
      assert f(m[off + j], m[KeyAt(off, off + j)]) == body[j];
    }
    Replaced(u, m, off, body);
  }

  lemma Replaced(u: seq<byte>, m: seq<byte>, off: nat, body: seq<byte>)
    requires |u| == |m| && off + |body| <= |m|
    requires forall i :: 0 <= i < off || off + |body| <= i < |m| ==> u[i] == m[i]
    requires forall i :: off <= i < off + |body| ==> u[i] == body[i - off]
    ensures u == m[..off] + body + m[off + |body|..]
  {
  }

  /** One round of the masking loop. */
  lemma KeyedStep(f: (byte, byte) -> byte, m: seq<byte>, off: nat, i: nat)
    requires 4 <= off && off + i < |m|
    ensures var u, k := Keyed(f, m, off, i), KeyAt(off, off + i);
            && u[k] == m[k] && u[off + i] == m[off + i]
            && Keyed(f, m, off, i + 1) == u[off + i := f(u[off + i], u[k])]
  {
    var u, v, k := Keyed(f, m, off, i), Keyed(f, m, off, i + 1), KeyAt(off, off + i);
    assert u[k] == m[k] && u[off + i] == m[off + i];
    assert v[off + i] == f(m[off + i], m[k]);
    forall j | 0 <= j < |m| && j != off + i
      ensures v[j] == u[j]
    {
    }
    OneDiffers(u, v, off + i);
  }

  lemma OneDiffers(u: seq<byte>, v: seq<byte>, at: nat)
    requires |u| == |v| && at < |u| && forall j :: 0 <= j < |u| && j != at ==> v[j] == u[j]
    ensures v == u[at := v[at]]
  {
  }

  /** Copying a whole frame in puts the cursor on the body, whatever length class and masking key the sender used. */
  lemma CopyRecoversBody(first: byte, c: LenClass, key: Key, body: seq<byte>)
    requires Fits(c, |body|) && |Frame(first, c, key, body)| <= CAPACITY
    ensures var f := Frame(first, c, key, body); var h := |f| - |body|;
            && PayloadInBuffer(f) && HeadLen(Loaded(f)[1]) == h
            && Copied(f)[..|f|] == f[..h] + body
  {
    var f, head := Frame(first, c, key, body), FrameHeader(first, c, key, |body|);
    var zeros := Zeros(CAPACITY - |f|);
    var tail := MaskData(key, body) + zeros;
    var m := Loaded(f);
    assert m == head + tail;
    HeaderFields(first, c, key, |body|, tail);
    if key != [] {
      var pre := head[..|head| - 4];
      assert m == pre + key + MaskData(key, body) + zeros;
      UnmaskRestores(pre, key, body, zeros);
      assert Copied(f) == pre + key + body + zeros == head + body + zeros;
    } else {
      assert Copied(f) == head + body + zeros;
    }
  }

  // ---- the stream decoder ----

  function GetHeadLen(data: seq<byte>): (n: nat) {
    if |data| < 2 then 2 else HeadLen(data[1])
  }

  /** The long form goes through the 32-bit `ntohl`, which on a little-endian host sees the first four of the
      eight length bytes. */
  function GetPacketLen(data: seq<byte>): (n: int)
    requires |data| >= GetHeadLen(data)
  {
    if data[1] % 128 < 126 then data[1] % 128
    else if data[1] % 128 == 126 then FromBigEndian(data[2..4])
    else Int32(FromBigEndian(data[2..6]))
  }

  function ParsePacket(data: seq<byte>): (n: int) {
    if |data| < GetHeadLen(data) then 0
    else if GetPacketLen(data) < 0 then -1
    else
      var total := Int32(GetPacketLen(data) + GetHeadLen(data));
      if |data| < total then 0 else total
  }

  lemma SameFields(s: seq<byte>, t: seq<byte>)
    requires |s| >= GetHeadLen(s)
    requires |t| >= GetHeadLen(s) && s[..GetHeadLen(s)] == t[..GetHeadLen(s)]
    ensures GetHeadLen(t) == GetHeadLen(s) && GetPacketLen(t) == GetPacketLen(s)
  {
    var h := GetHeadLen(s);
    assert forall i :: 0 <= i < h ==> s[i] == s[..h][i] && t[i] == t[..h][i];
    if h >= 4 && s[1] % 128 >= 126 {
      assert s[2..4] == t[2..4];
      if h >= 10 {
        assert s[2..6] == t[2..6];
      }
    }
  }

  lemma FieldBound(s: seq<byte>)
    requires |s| == 2 || |s| == 4
    ensures FromBigEndian(s) < if |s| == 2 then 0x1_0000 else 0x1_0000_0000
  {
    Widths();
    FromBigEndianRoundTrip(s);
  }

  lemma PacketLenBound(s: seq<byte>)
    requires |s| >= GetHeadLen(s)
    ensures GetPacketLen(s) < 0x8000_0000
  {
    if s[1] % 128 == 126 {
      FieldBound(s[2..4]);
    }
  }

  /** An accepted frame covers its header: a sum that wrapped around is negative. */
  lemma TotalCoversHead(s: seq<byte>)
    requires |s| >= GetHeadLen(s)
    ensures ParsePacket(s) > 0 ==> ParsePacket(s) >= GetHeadLen(s)
  {
    PacketLenBound(s);
  }

  lemma ParseLawful()
    ensures Lawful(ParsePacket)
  {
    forall s: seq<byte>
      ensures Modest(ParsePacket, s)
    {
      var n := ParsePacket(s);
      if n > 0 {
        TotalCoversHead(s);
        SameFields(s, s[..n]);
      }
    }
    forall s: seq<byte>, t: seq<byte>
      ensures Stable(ParsePacket, s, t)
    {
      if |s| >= GetHeadLen(s) {
        SameFields(s, s + t);
      }
    }
  }

  /** The decoder gives up exactly on an 8-byte length whose upper half, with the header, does not fit an `int`. */
  lemma ParseRejects(s: seq<byte>)
    requires |s| >= 2 && |s| >= HeadLen(s[1])
    ensures ParsePacket(s) < 0 <==>
            s[1] % 128 == 127 && FromBigEndian(s[2..6]) + HeadLen(s[1]) >= 0x8000_0000
  {
    if s[1] % 128 == 126 {
      FieldBound(s[2..4]);
    } else if s[1] % 128 == 127 {
      FieldBound(s[2..6]);
    }
  }

  /** The payload length the stream decoder sees: the true one, but in the 8-byte form only its upper half. */
  lemma DecoderSees(first: byte, c: LenClass, key: Key, n: nat, tail: seq<byte>)
    requires Fits(c, n)
    ensures var h := FrameHeader(first, c, key, n);
            GetHeadLen(h + tail) == |h| && GetPacketLen(h + tail) == if c == SixtyFour then n / 0x1_0000_0000 else n
  {
    HeaderFields(first, c, key, n, tail);
    LengthBytes(first, c, key, n, tail);
    LengthRead(c, n);
  }

  /** The stream decoder takes a frame whole exactly when the length is not in the 8-byte form, or is zero. */
  lemma ParseWholeFrame(first: byte, c: LenClass, key: Key, body: seq<byte>)
    requires Fits(c, |body|) && |Frame(first, c, key, body)| < 0x8000_0000
    ensures var f := Frame(first, c, key, body);
            ParsePacket(f) == |f| <==> c != SixtyFour || body == []
  {
    DecoderSees(first, c, key, |body|, MaskData(key, body));
    ParseBySum(Frame(first, c, key, body));
  }

  /** With the header there, the answer is the sum of header and payload length, once that much has arrived. */
  lemma ParseBySum(f: seq<byte>)
    requires |f| >= GetHeadLen(f) && 0 <= GetPacketLen(f) && GetPacketLen(f) + GetHeadLen(f) < 0x8000_0000
    ensures var total := GetPacketLen(f) + GetHeadLen(f); ParsePacket(f) == if |f| < total then 0 else total
  {
  }

  /** So a frame as the packet class writes it is taken whole exactly up to 65535 bytes of payload. */
  lemma ParseWrittenFrame(first: byte, key: Key, body: seq<byte>)
    requires |body| < 0x7000_0000
    ensures var f := Frame(first, Minimal(|body|), key, body);
            ParsePacket(f) == |f| <==> |body| <= 65535
  {
    ParseWholeFrame(first, Minimal(|body|), key, body);
  }

  /** A stream of frames with short or medium lengths survives any chunking. */
  lemma StreamRoundTrip(frames: seq<seq<byte>>, rest: seq<byte>, chunks: seq<seq<byte>>)
    requires forall f <- frames :: WrittenFrame(f)
    requires ParsePacket(rest) == 0
    requires Flatten(chunks) == Flatten(frames) + rest
    ensures FeedAll(ParsePacket, chunks) == Outcome(frames, rest, false)
  {
    ParseLawful();
    FramesAccepted(frames);
    DrainUnique(ParsePacket, frames, rest);
    ChunkingIndependence(ParsePacket, chunks);
  }

  ghost predicate WrittenFrame(f: seq<byte>) {
    exists first: byte, key: Key, body: seq<byte> ::
      |body| <= 65535 && f == Frame(first, Minimal(|body|), key, body)
  }

  lemma {:induction false} FramesAccepted(frames: seq<seq<byte>>)
    requires forall f <- frames :: WrittenFrame(f)
    ensures Accepted(ParsePacket, frames)
  {
    if frames != [] {
      assert WrittenFrame(frames[0]);
      var first: byte, key: Key, body: seq<byte> :|
        |body| <= 65535 && frames[0] == Frame(first, Minimal(|body|), key, body);
      ParseWrittenFrame(first, key, body);
      FramesAccepted(frames[1..]);
    }
  }
}
