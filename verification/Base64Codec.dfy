/** The two base64 loops with their group buffers, and what they do to the bits of their input. */
module Base64Codec {
  import opened Bytes
  import opened Base64
  import opened Masks

  function Letters(b: Table, s: seq<sextet>): (t: string)
    ensures |t| == |s|
  {
    seq(|s|, i requires 0 <= i < |s| => b[s[i]])
  }

  function Signs(n: nat): (t: string)
    ensures |t| == n
  {
    seq(n, _ => '=')
  }

  /** A last group of one or two bytes: zeros stand in, and the letters they would give are cut off ... */
  function TailSextets(s: seq<byte>): (v: seq<sextet>)
    requires |s| < 3
    ensures |v| == if |s| == 0 then 0 else |s| + 1
  {
    if |s| == 0 then [] else EncodeGroup(s[0], if |s| == 2 then s[1] else 0, 0)[..|s| + 1]
  }

  /** ... and signs fill up. */
  function EncodeTail(b: Table, s: seq<byte>): (t: string)
    requires |s| < 3
  {
    Letters(b, TailSextets(s)) + Signs(if |s| == 0 then 0 else 3 - |s|)
  }

  function Encode(b: Table, s: seq<byte>): (t: string) {
    if |s| < 3 then EncodeTail(b, s) else Letters(b, EncodeGroup(s[0], s[1], s[2])) + Encode(b, s[3..])
  }

  predicate AllLetters(t: string) {
    forall i :: 0 <= i < |t| ==> IsBase64(t[i])
  }

  /** The letters up to the first character that is none. */
  function Prefix(t: string): (p: string) {
    if t == "" || !IsBase64(t[0]) then "" else [t[0]] + Prefix(t[1..])
  }

  lemma {:induction false} PrefixFacts(t: string)
    ensures var p := Prefix(t);
            |p| <= |t| && p == t[..|p|] && AllLetters(p) && (|p| < |t| ==> !IsBase64(t[|p|]))
  {
    if t != "" && IsBase64(t[0]) {
      PrefixFacts(t[1..]);
      var q := Prefix(t[1..]);
      assert t[1..][..|q|] == t[1..|q| + 1] && [t[0]] + t[1..|q| + 1] == t[..|q| + 1];
    }
  }

  function Value(b: Table, t: string, i: nat): (x: byte) {
    if i < |t| then Lookup(b, t[i]) else Lookup(b, 0 as char)
  }

  /** Fewer than four letters left: of the group's bytes all but the incomplete one are kept. */
  function DecodeTail(b: Table, t: string): (s: seq<byte>)
    requires |t| < 4
  {
    if |t| == 0 then []
    else DecodeGroup(Value(b, t, 0), Value(b, t, 1), Value(b, t, 2), Value(b, t, 3))[..|t| - 1]
  }

  function DecodeFour(b: Table, w: char, x: char, y: char, z: char): (s: seq<byte>) {
    DecodeGroup(Lookup(b, w), Lookup(b, x), Lookup(b, y), Lookup(b, z))
  }

  function DecodeLetters(b: Table, t: string): (s: seq<byte>) {
    if |t| < 4 then DecodeTail(b, t) else DecodeFour(b, t[0], t[1], t[2], t[3]) + DecodeLetters(b, t[4..])
  }

  // ---- what the loops keep ----

  /** Still to come: the bytes held in the group and the rest of the input. */
  ghost predicate EncodeTo(b: Table, ret: string, held: seq<byte>, rest: seq<byte>, goal: string) {
    ret + Encode(b, held + rest) == goal
  }

  lemma EncodeBegin(b: Table, s: seq<byte>)
    ensures EncodeTo(b, "", [], s, Encode(b, s))
  {
    assert [] + s == s && "" + Encode(b, s) == Encode(b, s);
  }

  lemma EncodePush(b: Table, ret: string, held: seq<byte>, rest: seq<byte>, goal: string)
    requires EncodeTo(b, ret, held, rest, goal) && rest != []
    ensures EncodeTo(b, ret, held + [rest[0]], rest[1..], goal)
  {
    assert held + [rest[0]] + rest[1..] == held + rest;
  }

  lemma EncodeFlush(b: Table, ret: string, x: byte, y: byte, z: byte, rest: seq<byte>, goal: string)
    requires EncodeTo(b, ret, [x, y, z], rest, goal)
    ensures EncodeTo(b, ret + Letters(b, EncodeGroup(x, y, z)), [], rest, goal)
  {
    var s := [x, y, z] + rest;
    assert s[3..] == rest && s[0] == x && s[1] == y && s[2] == z;
    var t, u := Letters(b, EncodeGroup(x, y, z)), Encode(b, rest);
    assert [] + rest == rest && ret + (t + u) == ret + t + u;
  }

  lemma EncodeEnd(b: Table, ret: string, held: seq<byte>, goal: string)
    requires EncodeTo(b, ret, held, [], goal) && |held| < 3
    ensures ret + EncodeTail(b, held) == goal
  {
    assert held + [] == held;
  }

  ghost predicate DecodeTo(b: Table, ret: seq<byte>, held: string, rest: string, goal: seq<byte>) {
    ret + DecodeLetters(b, held + rest) == goal
  }

  lemma DecodeBegin(b: Table, t: string)
    ensures DecodeTo(b, [], "", t, DecodeLetters(b, t))
  {
    assert "" + t == t && [] + DecodeLetters(b, t) == DecodeLetters(b, t);
  }

  lemma DecodePush(b: Table, ret: seq<byte>, held: string, rest: string, goal: seq<byte>)
    requires DecodeTo(b, ret, held, rest, goal) && rest != ""
    ensures DecodeTo(b, ret, held + [rest[0]], rest[1..], goal)
  {
    assert held + [rest[0]] + rest[1..] == held + rest;
  }

  lemma DecodeFlush(b: Table, ret: seq<byte>, w: char, x: char, y: char, z: char, rest: string, goal: seq<byte>)
    requires DecodeTo(b, ret, [w, x, y, z], rest, goal)
    ensures DecodeTo(b, ret + DecodeFour(b, w, x, y, z), "", rest, goal)
  {
    var t := [w, x, y, z] + rest;
    assert t[4..] == rest && t[0] == w && t[1] == x && t[2] == y && t[3] == z;
    var d, e := DecodeFour(b, w, x, y, z), DecodeLetters(b, rest);
    assert "" + rest == rest && ret + (d + e) == ret + d + e;
  }

  lemma DecodeEnd(b: Table, ret: seq<byte>, held: string, goal: seq<byte>)
    requires DecodeTo(b, ret, held, "", goal) && |held| < 4
    ensures ret + DecodeTail(b, held) == goal
  {
    assert held + "" == held;
  }

  // ---- the loops ----

  /** `(x & mask) >> k`, for a mask of `j` bits. */
  method MaskDown(x: byte, mask: nat, ghost j: nat, k: nat) returns (r: nat)
    requires mask == (Pow2(j) - 1) * Pow2(k)
    ensures r == x / Pow2(k) % Pow2(j)
  {
    MaskField(x, j, k, mask);
    r := Shr(And(x, mask), k);
  }

  /** `(x & mask) << k`, for a mask of the low `j` bits. */
  method MaskUp(x: byte, mask: nat, ghost j: nat, k: nat) returns (r: nat)
    requires mask == Pow2(j) - 1
    ensures r == x % Pow2(j) * Pow2(k)
  {
    LowUp(x, j, k, mask);
    r := Shl(And(x, mask), k);
  }

  /** char_array_3 to char_array_4. */
  method EmitGroup(group: array<byte>) returns (four: seq<sextet>)
    requires group.Length == 3
    ensures four == EncodeGroup(group[0], group[1], group[2])
  {
    Powers();
    var a0 := MaskDown(group[0], 0xfc, 6, 2);
    var a1 := MaskUp(group[0], 0x03, 2, 4);
    var b1 := MaskDown(group[1], 0xf0, 4, 4);
    var b2 := MaskUp(group[1], 0x0f, 4, 2);
    var c2 := MaskDown(group[2], 0xc0, 2, 6);
    var c3 := MaskUp(group[2], 0x3f, 6, 0);
    assert a0 == group[0] / 4 && a1 == group[0] % 4 * 16;
    assert b1 == group[1] / 16 && b2 == group[1] % 16 * 4;
    assert c2 == group[2] / 64 && c3 == group[2] % 64;
    four := [a0, a1 + b1, b2 + c2, c3];
  }

  method AppendLetters(b: Table, ret: string, four: seq<sextet>, n: nat) returns (r: string)
    requires n <= |four|
    ensures r == ret + Letters(b, four[..n])
  {
    r := ret;
    var j := 0;
    while j < n
      invariant 0 <= j <= n && r == ret + Letters(b, four[..n])[..j]
    {
      r := r + [b[four[j]]];
      j := j + 1;
    }
  }

  /** What is left in the group when the input ends. */
  method EncodeRest(b: Table, group: array<byte>, n: nat, ret: string) returns (r: string)
    requires group.Length == 3 && 0 < n < 3
    modifies group
    ensures r == ret + EncodeTail(b, old(group[..n]))
  {
    var j := n;
    while j < 3
      invariant n <= j <= 3 && group[..n] == old(group[..n])
      invariant forall m :: n <= m < j ==> group[m] == 0
    {
      group[j] := 0;
      j := j + 1;
    }
    var four := EmitGroup(group);
    ghost var tail := old(group[..n]);
    assert tail[0] == group[0] && (n == 2 ==> tail[1] == group[1]);
    assert four[..n + 1] == TailSextets(tail);
    r := AppendLetters(b, ret, four, n + 1);
    ghost var body := r;
    var i := n;
    while i < 3
      invariant n <= i <= 3 && r == body + Signs(i - n)
    {
      assert Signs(i + 1 - n) == Signs(i - n) + "=";
      r := r + "=";
      i := i + 1;
    }
    assert r == ret + (Letters(b, TailSextets(tail)) + Signs(3 - n));
  }

  method Base64Encode(b: Table, bytes: seq<byte>) returns (ret: string)
    ensures ret == Encode(b, bytes)
  {
    ret := "";
    var i, k := 0, 0;
    var group := new byte[3];
    ghost var goal := Encode(b, bytes);
    EncodeBegin(b, bytes);
    while k < |bytes|
      invariant 0 <= k <= |bytes| && 0 <= i < 3
      invariant EncodeTo(b, ret, group[..i], bytes[k..], goal)
      decreases |bytes| - k
    {
      EncodePush(b, ret, group[..i], bytes[k..], goal);
      ghost var held := group[..i];
      group[i] := bytes[k];
      assert group[..i + 1] == held + [bytes[k]] && bytes[k..][1..] == bytes[k + 1..];
      i, k := i + 1, k + 1;
      if i == 3 {
        var four := EmitGroup(group);
        assert group[..3] == [group[0], group[1], group[2]] && four[..4] == four;
        EncodeFlush(b, ret, group[0], group[1], group[2], bytes[k..], goal);
        ret := AppendLetters(b, ret, four, 4);
        i := 0;
      }
    }
    assert bytes[k..] == [];
    EncodeEnd(b, ret, group[..i], goal);
    if i > 0 {
      ret := EncodeRest(b, group, i, ret);
    }
  }

  /** char_array_4 to char_array_3. */
  method OpenGroup(values: array<byte>) returns (three: seq<byte>)
    requires values.Length == 4
    ensures three == DecodeGroup(values[0], values[1], values[2], values[3])
  {
    Powers();
    ShlTimes(values[0], 2);
    var x1 := MaskDown(values[1], 0x30, 2, 4);
    var x2 := MaskUp(values[1], 0x0f, 4, 4);
    var y2 := MaskDown(values[2], 0x3c, 4, 2);
    var y3 := MaskUp(values[2], 0x03, 2, 6);
    assert x1 == values[1] / 16 % 4 && x2 == values[1] % 16 * 16;
    assert y2 == values[2] / 4 % 16 && y3 == values[2] % 4 * 64;
    three := [(Shl(values[0], 2) + x1) % 256, (x2 + y2) % 256, (y3 + values[3]) % 256];
  }

  /** Letters to table values to bytes. The source keeps letters and values in one array of unsigned chars; here they
      are two. */
  method OpenLetters(b: Table, letters: array<char>, values: array<byte>) returns (three: seq<byte>)
    requires letters.Length == 4 && values.Length == 4
    modifies values
    ensures three == DecodeFour(b, letters[0], letters[1], letters[2], letters[3])
  {
    var m := 0;
    while m < 4
      invariant 0 <= m <= 4 && forall n :: 0 <= n < m ==> values[n] == Lookup(b, letters[n])
    {
      values[m] := Lookup(b, letters[m]);
      m := m + 1;
    }
    three := OpenGroup(values);
  }

  method DecodeRest(b: Table, letters: array<char>, values: array<byte>, n: nat) returns (s: seq<byte>)
    requires letters.Length == 4 && values.Length == 4 && 0 < n < 4
    modifies letters, values
    ensures s == DecodeTail(b, old(letters[..n]))
  {
    ghost var tail := letters[..n];
    var j := n;
    while j < 4
      invariant n <= j <= 4 && letters[..n] == tail
      invariant forall m :: n <= m < j ==> letters[m] == 0 as char
    {
      letters[j] := 0 as char;
      j := j + 1;
    }
    assert forall m :: 0 <= m < n ==> tail[m] == letters[..n][m];
    assert forall m :: 0 <= m < 4 ==> Lookup(b, letters[m]) == Value(b, tail, m);
    var three := OpenLetters(b, letters, values);
    s := three[..n - 1];
  }

  method FlushGroup(b: Table, letters: array<char>, values: array<byte>, ret: seq<byte>,
                    ghost rest: string, ghost goal: seq<byte>) returns (r: seq<byte>)
    requires letters.Length == 4 && values.Length == 4 && DecodeTo(b, ret, letters[..4], rest, goal)
    modifies values
    ensures DecodeTo(b, r, letters[..0], rest, goal)
  {
    assert letters[..4] == [letters[0], letters[1], letters[2], letters[3]];
    DecodeFlush(b, ret, letters[0], letters[1], letters[2], letters[3], rest, goal);
    var three := OpenLetters(b, letters, values);
    r := ret + three;
  }

  /** One turn of the decoding loop: the letter goes into the group, and a full group is opened. */
  method TakeLetter(b: Table, letters: array<char>, values: array<byte>, n: nat, c: char, ret: seq<byte>,
                    ghost rest: string, ghost goal: seq<byte>) returns (m: nat, r: seq<byte>)
    requires letters.Length == 4 && values.Length == 4 && n < 4
    requires rest != "" && rest[0] == c && DecodeTo(b, ret, letters[..n], rest, goal)
    modifies letters, values
    ensures m == (n + 1) % 4 && DecodeTo(b, r, letters[..m], rest[1..], goal)
  {
    DecodePush(b, ret, letters[..n], rest, goal);
    ghost var held := letters[..n];
    letters[n] := c;
    assert letters[..n + 1] == held + [c];
    m, r := n + 1, ret;
    if m == 4 {
      r := FlushGroup(b, letters, values, ret, rest[1..], goal);
      m := 0;
    }
  }

  method Base64Decode(b: Table, encoded: string) returns (ret: seq<byte>)
    ensures ret == DecodeLetters(b, Prefix(encoded))
  {
    ret := [];
    var i, k := 0, 0;
    var letters, values := new char[4], new byte[4];
    ghost var p := Prefix(encoded);
    ghost var goal := DecodeLetters(b, p);
    PrefixFacts(encoded);
    DecodeBegin(b, p);
    while k < |encoded| && encoded[k] != '=' && IsBase64(encoded[k])
      invariant 0 <= k <= |p| && 0 <= i < 4
      invariant DecodeTo(b, ret, letters[..i], p[k..], goal)
      decreases |encoded| - k
    {
      assert p[k..][1..] == p[k + 1..];
      i, ret := TakeLetter(b, letters, values, i, encoded[k], ret, p[k..], goal);
      k := k + 1;
    }
    Exhausted(encoded, k);
    assert p[k..] == "";
    DecodeEnd(b, ret, letters[..i], goal);
    if i > 0 {
      var last := DecodeRest(b, letters, values, i);
      ret := ret + last;
    }
  }

  /** The loop stops where the letters end. */
  lemma Exhausted(t: string, k: nat)
    requires k <= |Prefix(t)| && (k >= |t| || t[k] == '=' || !IsBase64(t[k]))
    ensures k == |Prefix(t)|
  {
    PrefixFacts(t);
    assert k < |Prefix(t)| ==> Prefix(t)[k] == t[k];
  }

  // ---- bits and lengths ----

  /** The table values of letters. */
  function Values(b: Table, t: string): (s: seq<byte>)
    ensures |s| == |t|
  {
    seq(|t|, i requires 0 <= i < |t| => Lookup(b, t[i]))
  }

  predicate Small(s: seq<byte>) {
    forall i :: 0 <= i < |s| ==> s[i] < 64
  }

  lemma {:induction false} PrefixSkips(t: string, u: string)
    requires AllLetters(t)
    ensures Prefix(t + u) == t + Prefix(u)
  {
    if t == "" {
      assert t + u == u;
    } else {
      PrefixSkips(t[1..], u);
      assert (t + u)[1..] == t[1..] + u;
      assert [t[0]] + (t[1..] + Prefix(u)) == t + Prefix(u);
    }
  }

  lemma {:induction false} AllBitsLength(s: seq<nat>, k: nat)
    ensures |AllBits(s, k)| == k * |s|
  {
    if s != [] {
      AllBitsLength(s[1..], k);
      assert k * |s| == k + k * |s[1..]|;
    }
  }

  lemma {:induction false} BitsOfZero(k: nat)
    ensures Bits(0, k) == Zeros(k)
  {
    if k > 0 {
      BitsOfZero(k - 1);
    }
  }

  lemma AllBitsCut(s: seq<nat>, n: nat, k: nat)
    requires n <= |s|
    ensures k * n <= |AllBits(s, k)| && AllBits(s[..n], k) == AllBits(s, k)[..k * n]
  {
    AllBitsAppend(s[..n], s[n..], k);
    AllBitsLength(s[..n], k);
    assert s[..n] + s[n..] == s;
  }

  /** A short last group: the letters kept hold its bits and the zeros that fill the last of them. */
  lemma TailBits1(x: byte)
    ensures AllBits(EncodeGroup(x, 0, 0)[..2], 6) == AllBits([x], 8) + Zeros(4)
  {
    EncodeGroupBits(x, 0, 0);
    AllBitsCut(EncodeGroup(x, 0, 0), 2, 6);
    AllBitsOf3(x, 0, 0, 8);
    BitsOfZero(8);
    AllBitsCons(x, [], 8);
    assert [x] + [] == [x] && Bits(x, 8) + [] == Bits(x, 8);
    assert (Bits(x, 8) + Zeros(8) + Zeros(8))[..12] == Bits(x, 8) + Zeros(4);
  }

  lemma TailBits2(x: byte, y: byte)
    ensures AllBits(EncodeGroup(x, y, 0)[..3], 6) == AllBits([x, y], 8) + Zeros(2)
  {
    EncodeGroupBits(x, y, 0);
    AllBitsCut(EncodeGroup(x, y, 0), 3, 6);
    AllBitsOf3(x, y, 0, 8);
    BitsOfZero(8);
    AllBitsCons(x, [y], 8);
    AllBitsCons(y, [], 8);
    assert [x] + [y] == [x, y] && [y] + [] == [y] && Bits(y, 8) + [] == Bits(y, 8);
    assert (Bits(x, 8) + Bits(y, 8) + Zeros(8))[..18] == Bits(x, 8) + Bits(y, 8) + Zeros(2);
  }

  /** How many letters carry data. */
  function LetterCount(n: nat): nat {
    (4 * n + 2) / 3
  }

  /** The letters of the encoding, without the signs. */
  function Body(s: seq<byte>): (v: seq<sextet>) {
    if |s| < 3 then TailSextets(s) else EncodeGroup(s[0], s[1], s[2]) + Body(s[3..])
  }

  lemma CountStep(n: nat)
    requires n >= 3
    ensures LetterCount(n) == 4 + LetterCount(n - 3) && (n + 2) / 3 * 4 == 4 + (n - 3 + 2) / 3 * 4
  {
  }

  lemma LettersConcat(b: Table, s: seq<sextet>, t: seq<sextet>)
    ensures Letters(b, s + t) == Letters(b, s) + Letters(b, t)
  {
  }

  lemma LettersAreLetters(b: Table, s: seq<sextet>)
    requires AllLetters(b)
    ensures AllLetters(Letters(b, s))
  {
  }

  /** The encoding `t` of `s`: letters for `v`, then signs up to a multiple of four. */
  ghost predicate Encoded(b: Table, t: string, v: seq<sextet>) {
    |v| <= |t| && t == Letters(b, v) + Signs(|t| - |v|) && Prefix(t) == Letters(b, v)
  }

  lemma ShortEncoded(b: Table, s: seq<byte>)
    requires |s| < 3 && AllLetters(b)
    ensures Encoded(b, Encode(b, s), Body(s))
  {
    var p := Letters(b, TailSextets(s));
    var signs := Signs(if |s| == 0 then 0 else 3 - |s|);
    LettersAreLetters(b, TailSextets(s));
    PrefixSkips(p, signs);
    assert Prefix(signs) == "" && p + "" == p;
  }

  lemma StepEncoded(b: Table, g: seq<sextet>, v: seq<sextet>, t: string)
    requires Encoded(b, t, v) && AllLetters(b)
    ensures Encoded(b, Letters(b, g) + t, g + v)
  {
    var p, q, signs := Letters(b, g), Letters(b, v), Signs(|t| - |v|);
    LettersConcat(b, g, v);
    LettersAreLetters(b, g);
    PrefixSkips(p, t);
    assert p + (q + signs) == p + q + signs;
  }

  lemma {:induction false} EncodeIsBody(b: Table, s: seq<byte>)
    requires AllLetters(b)
    ensures Encoded(b, Encode(b, s), Body(s))
    ensures |Body(s)| == LetterCount(|s|) && |Encode(b, s)| == (|s| + 2) / 3 * 4
  {
    if |s| < 3 {
      ShortEncoded(b, s);
    } else {
      EncodeIsBody(b, s[3..]);
      CountStep(|s|);
      StepEncoded(b, EncodeGroup(s[0], s[1], s[2]), Body(s[3..]), Encode(b, s[3..]));
    }
  }

  lemma {:induction false} BodyBits(s: seq<byte>)
    ensures |Body(s)| == LetterCount(|s|)
    ensures AllBits(Body(s), 6) == AllBits(s, 8) + Zeros(6 * LetterCount(|s|) - 8 * |s|)
  {
    if |s| == 0 {
    } else if |s| == 1 {
      TailBits1(s[0]);
      assert s == [s[0]];
    } else if |s| == 2 {
      TailBits2(s[0], s[1]);
      assert s == [s[0], s[1]];
    } else {
      var g, rest, three := EncodeGroup(s[0], s[1], s[2]), s[3..], [s[0], s[1], s[2]];
      BodyBits(rest);
      CountStep(|s|);
      EncodeGroupBits(s[0], s[1], s[2]);
      AllBitsAppend(g, Body(rest), 6);
      AllBitsAppend(three, rest, 8);
      assert three + rest == s;
      var z := Zeros(6 * LetterCount(|s|) - 8 * |s|);
      assert AllBits(three, 8) + (AllBits(rest, 8) + z) == AllBits(three, 8) + AllBits(rest, 8) + z;
    }
  }

  lemma AlphabetLetters()
    ensures AllLetters(Alphabet())
  {
    forall i | 0 <= i < 64
      ensures IsBase64(Alphabet()[i])
    {
      LookupInverts(i);
    }
  }

  /** The encoding: the bits of the input in groups of six, zeros after the last, then signs up to a multiple of
      four. Its letters are exactly its longest alphabet prefix. */
  lemma EncodeRegroupsBits(b: Table, s: seq<byte>)
    requires AllLetters(b)
    ensures var t, v := Encode(b, s), Body(s);
            && |t| == (|s| + 2) / 3 * 4 && |v| == (4 * |s| + 2) / 3
            && t == Letters(b, v) + Signs(|t| - |v|) && Prefix(t) == Letters(b, v)
            && AllBits(v, 6) == AllBits(s, 8) + Zeros(6 * |v| - 8 * |s|)
  {
    EncodeIsBody(b, s);
    BodyBits(s);
  }

  lemma DecodeTailBits(b: Table, t: string)
    requires |t| < 4 && Small(Values(b, t))
    ensures |DecodeTail(b, t)| == 3 * |t| / 4
    ensures 8 * (3 * |t| / 4) <= |AllBits(Values(b, t), 6)|
    ensures AllBits(DecodeTail(b, t), 8) == AllBits(Values(b, t), 6)[..8 * (3 * |t| / 4)]
  {
    var v := Values(b, t);
    AllBitsLength(v, 6);
    if |t| >= 2 {
      TailBytes(v, Value(b, t, 2), Value(b, t, 3));
    }
  }

  /** Two or three values, and whatever stands in for the others. */
  lemma TailBytes(v: seq<byte>, y: byte, z: byte)
    requires 2 <= |v| < 4 && Small(v) && (|v| == 3 ==> y == v[2])
    ensures var d := DecodeGroup(v[0], v[1], y, z)[..|v| - 1];
            8 * |d| <= |AllBits(v, 6)| && AllBits(d, 8) == AllBits(v, 6)[..8 * |d|]
  {
    var w, x, y' := v[0], v[1], if |v| == 3 then v[2] else 0;
    MissingLetters(w, x, y, z, y', 0);
    MissingLetters(w, x, y', z, y', 0);
    var d := DecodeGroup(w, x, y', 0);
    assert d[..|v| - 1] == DecodeGroup(w, x, y, z)[..|v| - 1];
    DecodeGroupBits(w, x, y', 0);
    KeptBits(d, |v| - 1, [w, x, y', 0], |v|);
    assert [w, x, y', 0][..|v|] == v;
  }

  lemma KeptBits(d: seq<byte>, n: nat, v: seq<byte>, m: nat)
    requires n <= |d| && m <= |v| && 8 * n <= 6 * m && AllBits(d, 8) == AllBits(v, 6)
    ensures 8 * n <= |AllBits(v[..m], 6)| && AllBits(d[..n], 8) == AllBits(v[..m], 6)[..8 * n]
  {
    AllBitsCut(d, n, 8);
    AllBitsCut(v, m, 6);
  }

  lemma TakeConcat(a: seq<int>, b: seq<int>, n: nat)
    requires n <= |b|
    ensures (a + b)[..|a| + n] == a + b[..n]
  {
  }

  lemma GroupStep(four: seq<byte>, u: seq<byte>, e: seq<byte>, n: nat)
    requires |four| == 4 && Small(four)
    requires 8 * n <= |AllBits(u, 6)| && AllBits(e, 8) == AllBits(u, 6)[..8 * n]
    ensures 8 * (3 + n) <= |AllBits(four + u, 6)|
    ensures AllBits(DecodeGroup(four[0], four[1], four[2], four[3]) + e, 8) == AllBits(four + u, 6)[..8 * (3 + n)]
  {
    var d := DecodeGroup(four[0], four[1], four[2], four[3]);
    DecodeGroupBits(four[0], four[1], four[2], four[3]);
    assert four == [four[0], four[1], four[2], four[3]];
    AllBitsAppend(d, e, 8);
    AllBitsAppend(four, u, 6);
    AllBitsLength(d, 8);
    TakeConcat(AllBits(four, 6), AllBits(u, 6), 8 * n);
  }

  lemma FirstGroup(b: Table, t: string)
    requires |t| >= 4
    ensures Values(b, t) == Values(b, t)[..4] + Values(b, t[4..])
    ensures var v := Values(b, t)[..4];
            DecodeLetters(b, t) == DecodeGroup(v[0], v[1], v[2], v[3]) + DecodeLetters(b, t[4..])
    ensures 3 * |t| / 4 == 3 + 3 * |t[4..]| / 4
  {
    assert forall i :: 0 <= i < |t| - 4 ==> t[4..][i] == t[i + 4];
  }

  /** Decoding letters: their bits in groups of eight, the incomplete last group dropped. */
  lemma {:induction false} DecodeRegroupsBits(b: Table, t: string)
    requires Small(Values(b, t))
    ensures |DecodeLetters(b, t)| == 3 * |t| / 4
    ensures 8 * (3 * |t| / 4) <= |AllBits(Values(b, t), 6)|
    ensures AllBits(DecodeLetters(b, t), 8) == AllBits(Values(b, t), 6)[..8 * (3 * |t| / 4)]
  {
    if |t| < 4 {
      DecodeTailBits(b, t);
    } else {
      var v, u := Values(b, t), t[4..];
      FirstGroup(b, t);
      assert forall i :: 0 <= i < |u| ==> Values(b, u)[i] == v[i + 4];
      DecodeRegroupsBits(b, u);
      GroupStep(v[..4], Values(b, u), DecodeLetters(b, u), 3 * |u| / 4);
    }
  }

  /** Looking up inverts the table. */
  ghost predicate Invertible(b: Table) {
    forall x: sextet :: Lookup(b, b[x]) == x
  }

  lemma ValuesOfLetters(b: Table, s: seq<sextet>)
    requires Invertible(b)
    ensures Values(b, Letters(b, s)) == s
  {
    forall i | 0 <= i < |s|
      ensures Lookup(b, Letters(b, s)[i]) == s[i]
    {
      assert Letters(b, s)[i] == b[s[i]];
    }
  }

  lemma TableRoundTrip(b: Table, s: seq<byte>)
    requires AllLetters(b) && Invertible(b)
    ensures DecodeLetters(b, Prefix(Encode(b, s))) == s
  {
    var v := Body(s);
    var p := Letters(b, v);
    EncodeRegroupsBits(b, s);
    ValuesOfLetters(b, v);
    DecodeRegroupsBits(b, p);
    AllBitsLength(s, 8);
    assert 3 * |p| / 4 == |s|;
    AllBitsInjective(DecodeLetters(b, p), s);
  }

  lemma AlphabetInvertible()
    ensures Invertible(Alphabet())
  {
    forall x: sextet
      ensures Lookup(Alphabet(), Alphabet()[x]) == x
    {
      LookupInverts(x);
    }
  }

  /** Decoding undoes encoding. */
  lemma RoundTrip(s: seq<byte>)
    ensures DecodeLetters(Alphabet(), Prefix(Encode(Alphabet(), s))) == s
  {
    AlphabetLetters();
    AlphabetInvertible();
    TableRoundTrip(Alphabet(), s);
  }

  /** Whatever follows the letters is not looked at, and a byte comes out for every full eight bits. */
  lemma DecodeSeesPrefix(p: string, junk: string)
    requires AllLetters(p) && (junk == "" || !IsBase64(junk[0]))
    ensures Prefix(p + junk) == p && |DecodeLetters(Alphabet(), p)| == 3 * |p| / 4
  {
    forall i | 0 <= i < |p|
      ensures Values(Alphabet(), p)[i] < 64
    {
      LookupOfLetter(p[i]);
    }
    DecodeRegroupsBits(Alphabet(), p);
    PrefixSkips(p, junk);
    assert Prefix(junk) == "" && p + "" == p;
  }
}
