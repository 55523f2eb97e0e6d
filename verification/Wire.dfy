/** Sizes, byte order and memory moves shared by both packet kinds. */
module Wire {
  import opened Bytes

  const CAPACITY: nat := 409600
  const TCP_HEADER: nat := 6
  const WS_HEADER: nat := 14

  /** `s` with `d` copied over the bytes from `at` on. */
  function Patch(s: seq<byte>, at: nat, d: seq<byte>): (t: seq<byte>)
    requires at + |d| <= |s|
    ensures |t| == |s|
  {
    s[..at] + d + s[at + |d|..]
  }

  lemma PatchAppend(s: seq<byte>, at: nat, d: seq<byte>)
    requires at + |d| <= |s|
    ensures Patch(s, at, d)[..at + |d|] == s[..at] + d
  {
  }

  lemma PatchTwice(s: seq<byte>, at: nat, d: seq<byte>, e: seq<byte>)
    requires at + |d| + |e| <= |s|
    ensures Patch(Patch(s, at, d), at + |d|, e) == Patch(s, at, d + e)
  {
  }

  /** A body stored behind the room for its header, then the header. */
  lemma PatchFrame(s: seq<byte>, head: seq<byte>, body: seq<byte>)
    requires |head| + |body| <= |s|
    ensures Patch(Patch(s, |head|, body), 0, head)[..|head| + |body|] == head + body
  {
  }

  /** htonl and ntohl on a little-endian host: the number whose bytes in memory are those of `n` reversed. */
  function Htonl(n: nat): (r: nat)
    requires n < 0x1_0000_0000
    ensures r < 0x1_0000_0000
  {
    Widths();
    FromLittleEndianRoundTrip(BigEndian(n, 4));
    FromLittleEndian(BigEndian(n, 4))
  }

  /** A number stored after htonl lies in memory most significant byte first. */
  lemma StoredHtonl(n: nat)
    requires n < 0x1_0000_0000
    ensures LittleEndian(Htonl(n), 4) == BigEndian(n, 4)
  {
    FromLittleEndianRoundTrip(BigEndian(n, 4));
  }

  /** A number loaded from memory and passed through ntohl is the big-endian reading of its bytes. */
  lemma LoadedNtohl(s: seq<byte>)
    requires |s| == 4
    ensures FromLittleEndian(s) < 0x1_0000_0000
    ensures Htonl(FromLittleEndian(s)) == FromBigEndian(s)
  {
    Widths();
    FromLittleEndianRoundTrip(s);
    EndiansReverse(FromLittleEndian(s), 4);
    FromEndiansReverse(Reversed(s));
    assert Reversed(Reversed(s)) == s;
  }

  lemma ZeroIsZero()
    ensures FromBigEndian([0, 0, 0, 0]) == 0
  {
    assert [0, 0, 0, 0][..3] == [0, 0, 0] && [0, 0, 0][..2] == [0, 0] && [0, 0][..1] == [0] && [0][..0] == [];
  }

  function Htons(n: nat): (r: nat)
    requires n < 0x1_0000
    ensures LittleEndian(r, 2) == BigEndian(n, 2)
  {
    FromLittleEndianRoundTrip(BigEndian(n, 2));
    FromLittleEndian(BigEndian(n, 2))
  }

  /** The 64-bit form: both 32-bit halves are swapped, and each goes to the other's place. The repository spells
      `ntohl64` with the same steps. */
  function Htonl64(n: nat): (r: nat)
    requires n < 0x1_0000_0000_0000_0000
    ensures r < 0x1_0000_0000_0000_0000
  {
    var low, high := n % 0x1_0000_0000, n / 0x1_0000_0000;
    Htonl(low) * 0x1_0000_0000 + Htonl(high)
  }

  lemma StoredHtonl64(n: nat)
    requires n < 0x1_0000_0000_0000_0000
    ensures LittleEndian(Htonl64(n), 8) == BigEndian(n, 8)
  {
    Widths();
    var low, high := n % 0x1_0000_0000, n / 0x1_0000_0000;
    StoredHtonl(low);
    StoredHtonl(high);
    StoredHalves(high, low, Htonl(high), Htonl(low), 4);
  }

  /** Two numbers of `k` bytes whose bytes are reversed and whose places are exchanged. */
  lemma StoredHalves(high: nat, low: nat, high': nat, low': nat, k: nat)
    requires high < Pow256(k) && low < Pow256(k) && high' < Pow256(k) && low' < Pow256(k)
    requires LittleEndian(high', k) == BigEndian(high, k) && LittleEndian(low', k) == BigEndian(low, k)
    ensures LittleEndian(low' * Pow256(k) + high', k + k) == BigEndian(high * Pow256(k) + low, k + k)
  {
    LittleEndianSplit(low', high', k, k);
    BigEndianSplit(high, low, k, k);
  }

  lemma LoadedNtohl64(s: seq<byte>)
    requires |s| == 8
    ensures FromLittleEndian(s) < 0x1_0000_0000_0000_0000
    ensures Htonl64(FromLittleEndian(s)) == FromBigEndian(s)
  {
    Widths();
    FromLittleEndianRoundTrip(s);
    var n := FromLittleEndian(s);
    var low, high := n % 0x1_0000_0000, n / 0x1_0000_0000;
    LittleEndianSplit(high, low, 4, 4);
    assert s == LittleEndian(low, 4) + LittleEndian(high, 4);
    assert s[..4] == LittleEndian(low, 4) && s[4..] == LittleEndian(high, 4);
    LittleEndianRoundTrip(low, 4);
    LittleEndianRoundTrip(high, 4);
    LoadedNtohl(s[..4]);
    LoadedNtohl(s[4..]);
    FromBigEndianSplit(s[..4], s[4..]);
    assert s[..4] + s[4..] == s;
  }

  /** Applied twice, the swap is the identity. */
  lemma Htonl64Twice(n: nat)
    requires n < 0x1_0000_0000_0000_0000
    ensures Htonl64(Htonl64(n)) == n
  {
    Widths();
    StoredHtonl64(n);
    LittleEndianRoundTrip(Htonl64(n), 8);
    LoadedNtohl64(BigEndian(n, 8));
    BigEndianRoundTrip(n, 8);
  }
}
