/** The TCP frame: a 4-byte big-endian count of the bytes that follow it, two magic bytes, the body. */
module TcpFrames {
  import opened Bytes
  import opened Wire
  import opened Streams

  predicate Magic(a: byte, b: byte) {
    (a == 'X' as int && b == 'X' as int) || (a == 'y' as int && b == 'y' as int)
  }

  /** What a whole frame is. */
  predicate TcpFrame(f: seq<byte>) {
    && TCP_HEADER <= |f| <= CAPACITY
    && FromBigEndian(f[..4]) == |f| - 4
    && Magic(f[4], f[5])
  }

  predicate CheckHead(data: seq<byte>)
    requires |data| >= TCP_HEADER
  {
    Magic(data[4], data[5])
  }

  /** The sum is kept in 32 bits, so a length field near the top wraps around. */
  function GetPacketLen(data: seq<byte>): (n: int)
    requires |data| >= TCP_HEADER
  {
    var pkglen := (4 + FromBigEndian(data[..4])) % 0x1_0000_0000;
    if pkglen < TCP_HEADER || pkglen > CAPACITY then -1 else pkglen
  }

  function ParsePacket(data: seq<byte>): (n: int) {
    if |data| < TCP_HEADER then 0
    else if !CheckHead(data) then -1
    else
      var pkglen := GetPacketLen(data);
      if pkglen < 0 then -1
      else if |data| < pkglen then 0
      else pkglen
  }

  lemma LengthField(f: seq<byte>)
    requires |f| >= TCP_HEADER
    ensures FromBigEndian(f[..4]) < 0x1_0000_0000
  {
    Widths();
    FromBigEndianRoundTrip(f[..4]);
  }

  /** The decoder answers n exactly when the first n bytes are a frame. */
  lemma ParseAcceptsFrames(s: seq<byte>, n: int)
    requires n > 0
    ensures ParsePacket(s) == n <==> n <= |s| && TcpFrame(s[..n])
  {
    if |s| >= TCP_HEADER {
      LengthField(s);
      if TCP_HEADER <= n <= |s| {
        assert s[..n][..4] == s[..4];
      }
    }
  }

  predicate HasFrame(s: seq<byte>, n: nat) {
    n <= |s| && TcpFrame(s[..n])
  }

  /** The decoder gives up on a header exactly when no continuation of the bytes starts with a frame. */
  lemma ParseRejectsHopeless(s: seq<byte>)
    requires |s| >= TCP_HEADER
    ensures ParsePacket(s) < 0 <==> forall t, n :: !HasFrame(s + t, n)
  {
    if ParsePacket(s) < 0 {
      forall t, n: nat
        ensures !HasFrame(s + t, n)
      {
        ParseStable(s, t);
        if n > 0 {
          ParseAcceptsFrames(s + t, n);
        }
      }
    } else {
      LengthField(s);
      var n := GetPacketLen(s);
      var t := Zeros(n);
      assert (s + t)[..n][..4] == s[..4];
      assert HasFrame(s + t, n);
    }
  }

  lemma ParseStable(s: seq<byte>, t: seq<byte>)
    requires ParsePacket(s) != 0
    ensures ParsePacket(s + t) == ParsePacket(s)
  {
    assert (s + t)[..4] == s[..4];
  }

  lemma ParseLawful()
    ensures Lawful(ParsePacket)
  {
    forall s: seq<byte>
      ensures Modest(ParsePacket, s)
    {
      var n := ParsePacket(s);
      if n > 0 {
        assert s[..n][..4] == s[..4];
      }
    }
    forall s: seq<byte>, t: seq<byte>
      ensures Stable(ParsePacket, s, t)
    {
      if ParsePacket(s) != 0 {
        ParseStable(s, t);
      }
    }
  }

  /** Any chunking of a stream of frames followed by an unfinished one gives back exactly those frames. */
  lemma StreamRoundTrip(frames: seq<seq<byte>>, rest: seq<byte>, chunks: seq<seq<byte>>)
    requires forall f <- frames :: TcpFrame(f)
    requires ParsePacket(rest) == 0
    requires Flatten(chunks) == Flatten(frames) + rest
    ensures FeedAll(ParsePacket, chunks) == Outcome(frames, rest, false)
  {
    ParseLawful();
    FramesAccepted(frames);
    DrainUnique(ParsePacket, frames, rest);
    ChunkingIndependence(ParsePacket, chunks);
  }

  lemma {:induction false} FramesAccepted(frames: seq<seq<byte>>)
    requires forall f <- frames :: TcpFrame(f)
    ensures Accepted(ParsePacket, frames)
  {
    if frames != [] {
      assert TcpFrame(frames[0]);
      ParseAcceptsFrames(frames[0], |frames[0]|);
      assert frames[0][..|frames[0]|] == frames[0];
      FramesAccepted(frames[1..]);
    }
  }

  /** The header `_end` writes over the first bytes of a packet of `size` bytes. */
  function Header(size: nat): (h: seq<byte>)
    ensures |h| == TCP_HEADER
  {
    BigEndian((size - 4) % 0x1_0000_0000, 4) + ['X' as int, 'X' as int]
  }

  /** A packet of at least header size becomes a frame when its header is written. */
  lemma HeaderMakesFrame(size: nat, body: seq<byte>)
    requires size == TCP_HEADER + |body| <= CAPACITY
    ensures TcpFrame(Header(size) + body)
    ensures ParsePacket(Header(size) + body) == size
  {
    HeaderLength(size);
    LengthMakesFrame(Header(size)[..4], body);
  }

  lemma HeaderLength(size: nat)
    requires 4 <= size <= CAPACITY
    ensures Header(size) == Header(size)[..4] + ['X' as int, 'X' as int]
    ensures FromBigEndian(Header(size)[..4]) == size - 4
  {
    Widths();
    assert (size - 4) % 0x1_0000_0000 == size - 4;
    BigEndianRoundTrip(size - 4, 4);
    assert Header(size)[..4] == BigEndian(size - 4, 4);
  }

  lemma LengthMakesFrame(len: seq<byte>, body: seq<byte>)
    requires |len| == 4 && FromBigEndian(len) == 2 + |body| && TCP_HEADER + |body| <= CAPACITY
    ensures var f := len + ['X' as int, 'X' as int] + body; TcpFrame(f) && ParsePacket(f) == |f|
  {
    var f := len + ['X' as int, 'X' as int] + body;
    assert f[..4] == len;
  }
}
