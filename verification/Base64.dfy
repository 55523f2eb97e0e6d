/** Base64 (section 4 of RFC 4648) as a regrouping of bits: the alphabet, and one group of three bytes. */
module Base64 {
  import opened Bytes
  import opened Masks
  import Sequences

  function Upper(): string { "ABCDEFGHIJKLMNOPQRSTUVWXYZ" }

  function Lower(): string { "abcdefghijklmnopqrstuvwxyz" }

  function Rest(): string { "0123456789+/" }

  function Alphabet(): string { Upper() + Lower() + Rest() }

  /** What `find` returns when it finds nothing. */
  const NPOS: nat := 0xFFFF_FFFF_FFFF_FFFF

  type sextet = x: int | 0 <= x < 64

  /** isalnum in the C locale, or one of the two signs. */
  predicate IsBase64(c: char) {
    'A' <= c <= 'Z' || 'a' <= c <= 'z' || '0' <= c <= '9' || c == '+' || c == '/'
  }

  /** A table of 64 letters. The loops are stated for any, and used with `Alphabet`. */
  type Table = t: string | |t| == 64 witness Alphabet()

  lemma AlphabetCodes(x: sextet)
    ensures Alphabet()[x] as int == if x < 26 then 65 + x else if x < 52 then 71 + x else if x < 62 then x - 4
                                    else if x == 62 then 43 else 47
  {
    assert |Upper()| == 26 && |Lower()| == 26 && |Rest()| == 12;
    assert Alphabet()[x] == if x < 26 then Upper()[x] else if x < 52 then Lower()[x - 26] else Rest()[x - 52];
  }

  function FindFrom(s: string, c: char, i: nat): (r: nat)
    requires i <= |s|
    decreases |s| - i
  {
    if i == |s| then NPOS else if s[i] == c then i else FindFrom(s, c, i + 1)
  }

  /** `base64_chars.find`, stored in an unsigned char. */
  function Lookup(table: Table, c: char): (x: byte) {
    FindFrom(table, c, 0) % 256
  }

  lemma AlphabetDistinct(x: sextet, y: sextet)
    requires x != y
    ensures Alphabet()[x] != Alphabet()[y]
  {
    AlphabetCodes(x);
    AlphabetCodes(y);
  }

  lemma {:induction false} FoundIn(s: string, x: nat, i: nat)
    requires i <= x < |s| && forall y :: i <= y < x ==> s[y] != s[x]
    ensures FindFrom(s, s[x], i) == x
    decreases x - i
  {
    if i < x {
      FoundIn(s, x, i + 1);
    }
  }

  /** Looking a letter of the alphabet up gives its place ... */
  lemma LookupInverts(x: sextet)
    ensures Lookup(Alphabet(), Alphabet()[x]) == x && IsBase64(Alphabet()[x])
  {
    AlphabetCodes(x);
    forall y | 0 <= y < x
      ensures Alphabet()[y] != Alphabet()[x]
    {
      AlphabetDistinct(x, y);
    }
    FoundIn(Alphabet(), x, 0);
  }

  /** ... and what `is_base64` accepts is in the alphabet. */
  lemma LookupOfLetter(c: char)
    requires IsBase64(c)
    ensures Lookup(Alphabet(), c) < 64 && Alphabet()[Lookup(Alphabet(), c)] == c
  {
    var n := c as int;
    var x: sextet := if 65 <= n <= 90 then n - 65 else if 97 <= n <= 122 then n - 71 else if 48 <= n <= 57 then n + 4
                     else if n == 43 then 62 else 63;
    AlphabetCodes(x);
    assert Alphabet()[x] as int == n;
    LookupInverts(x);
  }

  // ---- bits ----

  /** The lowest `k` bits of `n`, most significant first. */
  function Bits(n: nat, k: nat): (s: seq<int>)
    ensures |s| == k
  {
    if k == 0 then [] else Bits(n / 2, k - 1) + [n % 2]
  }

  function AllBits(s: seq<nat>, k: nat): (r: seq<int>)
  {
    if s == [] then [] else Bits(s[0], k) + AllBits(s[1..], k)
  }

  lemma {:induction false} BitsSplit(hi: nat, lo: nat, k: nat, j: nat)
    requires lo < Pow2(j)
    ensures Bits(hi * Pow2(j) + lo, k + j) == Bits(hi, k) + Bits(lo, j)
  {
    if j == 0 {
      assert hi * Pow2(j) + lo == hi;
    } else {
      var p, n := Pow2(j - 1), hi * Pow2(j) + lo;
      assert hi * (2 * p) == 2 * (hi * p);
      Halve(n, hi * p + lo / 2, lo % 2);
      BitsSplit(hi, lo / 2, k, j - 1);
      var t, u := Bits(hi, k), Bits(lo / 2, j - 1);
      assert Bits(n, k + j) == t + u + [lo % 2];
      assert t + u + [lo % 2] == t + (u + [lo % 2]);
    }
  }

  lemma {:induction false} BitsInjective(a: nat, b: nat, k: nat)
    requires a < Pow2(k) && b < Pow2(k) && Bits(a, k) == Bits(b, k)
    ensures a == b
  {
    if k > 0 {
      var x, y := Bits(a / 2, k - 1), Bits(b / 2, k - 1);
      assert (x + [a % 2])[..k - 1] == x && (y + [b % 2])[..k - 1] == y;
      assert (x + [a % 2])[k - 1] == (y + [b % 2])[k - 1];
      BitsInjective(a / 2, b / 2, k - 1);
    }
  }

  lemma AllBitsCons(x: nat, s: seq<nat>, k: nat)
    ensures AllBits([x] + s, k) == Bits(x, k) + AllBits(s, k)
  {
    assert ([x] + s)[1..] == s;
  }

  lemma {:induction false} AllBitsAppend(s: seq<nat>, t: seq<nat>, k: nat)
    ensures AllBits(s + t, k) == AllBits(s, k) + AllBits(t, k)
  {
    if s == [] {
      assert s + t == t;
    } else {
      var a, b, c := Bits(s[0], k), AllBits(s[1..], k), AllBits(t, k);
      AllBitsAppend(s[1..], t, k);
      assert s + t == [s[0]] + (s[1..] + t);
      AllBitsCons(s[0], s[1..] + t, k);
      Sequences.Regroup(a, b, c);
    }
  }

  lemma {:induction false} AllBitsInjective(s: seq<byte>, t: seq<byte>)
    requires |s| == |t| && AllBits(s, 8) == AllBits(t, 8)
    ensures s == t
  {
    if s != [] {
      Powers();
      var a, b := AllBits(s[1..], 8), AllBits(t[1..], 8);
      assert (Bits(s[0], 8) + a)[..8] == Bits(s[0], 8) && (Bits(t[0], 8) + b)[..8] == Bits(t[0], 8);
      assert (Bits(s[0], 8) + a)[8..] == a && (Bits(t[0], 8) + b)[8..] == b;
      BitsInjective(s[0], t[0], 8);
      AllBitsInjective(s[1..], t[1..]);
    }
  }

  // ---- groups ----

  /** Three bytes to four sextets: (a & 0xfc) >> 2 and so on. */
  function EncodeGroup(a: byte, b: byte, c: byte): (s: seq<sextet>)
    ensures |s| == 4
  {
    [a / 4, a % 4 * 16 + b / 16, b % 16 * 4 + c / 64, c % 64]
  }

  /** Four table values to three bytes, each cut to eight bits; a value may be the 255 of a failed lookup. */
  function DecodeGroup(w: byte, x: byte, y: byte, z: byte): (s: seq<byte>)
    ensures |s| == 3
  {
    [(w * 4 + x / 16 % 4) % 256, (x % 16 * 16 + y / 4 % 16) % 256, (y % 4 * 64 + z) % 256]
  }

  /** The low bits, moved up. */
  lemma LowUp(x: nat, j: nat, k: nat, mask: nat)
    requires mask == Pow2(j) - 1
    ensures Shl(And(x, mask), k) == x % Pow2(j) * Pow2(k)
  {
    AndLow(x, j);
    ShlTimes(x % Pow2(j), k);
  }

  lemma AllBitsOf3(a: nat, b: nat, c: nat, k: nat)
    ensures AllBits([a, b, c], k) == Bits(a, k) + Bits(b, k) + Bits(c, k)
  {
    AllBitsCons(a, [b, c], k);
    AllBitsCons(b, [c], k);
    AllBitsCons(c, [], k);
    assert [a] + [b, c] == [a, b, c] && [b] + [c] == [b, c] && [c] + [] == [c];
  }

  lemma AllBitsOf4(a: nat, b: nat, c: nat, d: nat, k: nat)
    ensures AllBits([a, b, c, d], k) == Bits(a, k) + Bits(b, k) + Bits(c, k) + Bits(d, k)
  {
    AllBitsCons(a, [b, c, d], k);
    AllBitsOf3(b, c, d, k);
    assert [a] + [b, c, d] == [a, b, c, d];
  }

  /** A number whose upper `k` and lower `j` bits are `hi` and `lo`. */
  lemma Cut(n: nat, hi: nat, lo: nat, k: nat, j: nat, w: nat)
    requires lo < Pow2(j) && w == k + j && n == hi * Pow2(j) + lo
    ensures Bits(n, w) == Bits(hi, k) + Bits(lo, j)
  {
    BitsSplit(hi, lo, k, j);
  }

  lemma SixPieces(p: seq<int>, q: seq<int>, r: seq<int>, s: seq<int>, t: seq<int>, u: seq<int>)
    ensures p + (q + r) + (s + t) + u == (p + q) + (r + s) + (t + u)
  {
  }

  lemma Powers()
    ensures Pow2(2) == 4 && Pow2(4) == 16 && Pow2(6) == 64 && Pow2(8) == 256
  {
    assert Pow2(3) == 8 && Pow2(5) == 32 && Pow2(7) == 128;
  }

  /** The two ways of cutting 24 bits, with the widths as parameters. */
  lemma Joined(a1: nat, a2: nat, b1: nat, b2: nat, c1: nat, c2: nat, x2: nat, x3: nat, y1: nat, y2: nat, y3: nat,
               two: nat, four: nat, six: nat, eight: nat)
    requires four == two + two && six == two + four && eight == two + six
    requires a2 < Pow2(two) && b1 < Pow2(four) && b2 < Pow2(four) && c1 < Pow2(two) && c2 < Pow2(six)
    requires x2 == a2 * Pow2(four) + b1 && x3 == b2 * Pow2(two) + c1
    requires y1 == a1 * Pow2(two) + a2 && y2 == b1 * Pow2(four) + b2 && y3 == c1 * Pow2(six) + c2
    ensures AllBits([a1, x2, x3, c2], six) == AllBits([y1, y2, y3], eight)
  {
    Cut(x2, a2, b1, two, four, six);
    Cut(x3, b2, c1, four, two, six);
    Cut(y1, a1, a2, six, two, eight);
    Cut(y2, b1, b2, four, four, eight);
    Cut(y3, c1, c2, two, six, eight);
    AllBitsOf4(a1, x2, x3, c2, six);
    AllBitsOf3(y1, y2, y3, eight);
    SixPieces(Bits(a1, six), Bits(a2, two), Bits(b1, four), Bits(b2, four), Bits(c1, two), Bits(c2, six));
  }

  /** Encoding a group keeps the bits. */
  lemma EncodeGroupBits(a: byte, b: byte, c: byte)
    ensures AllBits(EncodeGroup(a, b, c), 6) == AllBits([a, b, c], 8)
  {
    Powers();
    Joined(a / 4, a % 4, b / 16, b % 16, c / 64, c % 64, a % 4 * 16 + b / 16, b % 16 * 4 + c / 64, a, b, c, 2, 4, 6, 8);
  }

  lemma DecodeExact(w: sextet, x: sextet, y: sextet, z: sextet)
    ensures DecodeGroup(w, x, y, z) == [w * 4 + x / 16, x % 16 * 16 + y / 4, y % 4 * 64 + z]
  {
    Uncut(x / 16, 4);
    Uncut(y / 4, 16);
    Uncut(w * 4 + x / 16, 256);
    Uncut(x % 16 * 16 + y / 4, 256);
    Uncut(y % 4 * 64 + z, 256);
  }

  lemma Uncut(x: nat, n: nat)
    requires x < n
    ensures x % n == x
  {
  }

  /** On four letters decoding keeps the bits too ... */
  lemma DecodeGroupBits(w: sextet, x: sextet, y: sextet, z: sextet)
    ensures AllBits(DecodeGroup(w, x, y, z), 8) == AllBits([w, x, y, z], 6)
  {
    DecodeExact(w, x, y, z);
    Powers();
    Joined(w, x / 16, x % 16, y / 4, y % 4, z, x, y,
           w * 4 + x / 16, x % 16 * 16 + y / 4, y % 4 * 64 + z, 2, 4, 6, 8);
  }

  /** ... and what stands in for missing letters does not reach the bytes that are kept. */
  lemma MissingLetters(w: byte, x: byte, y: byte, z: byte, y': byte, z': byte)
    ensures DecodeGroup(w, x, y, z)[0] == DecodeGroup(w, x, y', z')[0]
    ensures DecodeGroup(w, x, y, z)[1] == DecodeGroup(w, x, y, z')[1]
  {
  }
}
