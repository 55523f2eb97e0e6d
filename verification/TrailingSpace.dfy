/** Where a string ends once its trailing spaces are gone: byte by byte, and a 4-byte word at a time. */
module TrailingSpace {
  import opened Bytes

  const SPACE: byte := 0x20
  const SPACE_INT: nat := 0x2020_2020
  const SIZEOF_INT: nat := 4

  /** The naive backwards loop: the length that is left of `s`. */
  function Trimmed(s: seq<byte>): (n: nat)
    ensures n <= |s|
  {
    if s != [] && s[|s| - 1] == SPACE then Trimmed(s[..|s| - 1]) else |s|
  }

  /** It is the one cut with nothing but spaces behind it and no space in front of it. */
  lemma {:induction false} TrimmedIsTheCut(s: seq<byte>, n: nat)
    requires n <= |s|
    ensures n == Trimmed(s) <==> OnlySpaces(s, n) && (n > 0 ==> s[n - 1] != SPACE)
  {
    if s != [] && s[|s| - 1] == SPACE {
      var t := s[..|s| - 1];
      if n < |s| {
        TrimmedIsTheCut(t, n);
        assert forall i :: n <= i < |t| ==> s[i] == t[i];
      }
    } else if n < |s| {
      assert s[|s| - 1] != SPACE;
    }
  }

  // ---- memory: `s` lies at address `ptr`, and a read outside it or a misaligned word read is an error ----

  function ByteAt(s: seq<byte>, ptr: nat, addr: nat): byte
    requires ptr <= addr < ptr + |s|
  {
    s[addr - ptr]
  }

  function WordAt(s: seq<byte>, ptr: nat, addr: nat): (w: nat)
    requires addr % SIZEOF_INT == 0 && ptr <= addr && addr + SIZEOF_INT <= ptr + |s|
  {
    FromLittleEndian(s[addr - ptr..addr - ptr + SIZEOF_INT])
  }

  /** One word comparison stands for four byte comparisons. */
  lemma WordOfSpaces(w: seq<byte>)
    requires |w| == SIZEOF_INT
    ensures FromLittleEndian(w) == SPACE_INT <==> w == [SPACE, SPACE, SPACE, SPACE]
  {
    FromLittleEndianRoundTrip(w);
    var spaces := [SPACE, SPACE, SPACE, SPACE];
    FromLittleEndianRoundTrip(spaces);
    assert FromLittleEndian(spaces) == SPACE_INT by {
      assert spaces[1..] == [SPACE, SPACE, SPACE] && spaces[2..] == [SPACE, SPACE] && spaces[3..] == [SPACE];
      assert spaces[1..][1..] == spaces[2..] && spaces[2..][1..] == spaces[3..] && spaces[3..][1..] == [];
      assert FromLittleEndian(spaces[3..]) == 0x20;
      assert FromLittleEndian(spaces[2..]) == 0x2020;
      assert FromLittleEndian(spaces[1..]) == 0x20_2020;
    }
  }

  function AlignDown(addr: nat): (r: nat)
    ensures r % SIZEOF_INT == 0 && r <= addr < r + SIZEOF_INT
  {
    addr / SIZEOF_INT * SIZEOF_INT
  }

  predicate OnlySpaces(s: seq<byte>, from: nat) {
    forall i :: from <= i < |s| ==> s[i] == SPACE
  }

  lemma OneMoreWord(s: seq<byte>, ptr: nat, end: nat)
    requires end % SIZEOF_INT == 0 && ptr + SIZEOF_INT <= end <= ptr + |s| && OnlySpaces(s, end - ptr)
    requires WordAt(s, ptr, end - SIZEOF_INT) == SPACE_INT
    ensures OnlySpaces(s, end - SIZEOF_INT - ptr)
  {
    var w := s[end - SIZEOF_INT - ptr..end - ptr];
    WordOfSpaces(w);
    forall i | end - SIZEOF_INT - ptr <= i < end - ptr
      ensures s[i] == SPACE
    {
      assert s[i] == w[i - (end - SIZEOF_INT - ptr)];
    }
  }

  lemma RoomForWord(start: nat, end: nat)
    requires start % SIZEOF_INT == 0 && end % SIZEOF_INT == 0 && start < end
    ensures start + SIZEOF_INT <= end && (end - SIZEOF_INT) % SIZEOF_INT == 0
  {
  }

  /** The part for longer strings: bytes down to the last word boundary, then whole words. Every word read is
      aligned, and every read lies inside `s`. */
  method SkipWords(s: seq<byte>, ptr: nat, startWords: nat, endWords: nat) returns (end: nat)
    requires startWords % SIZEOF_INT == 0 && endWords % SIZEOF_INT == 0
    requires ptr <= startWords && ptr < endWords <= ptr + |s|
    ensures ptr <= end <= ptr + |s| && OnlySpaces(s, end - ptr)
  {
    end := ptr + |s|;
    while end > endWords && ByteAt(s, ptr, end - 1) == SPACE
      invariant endWords <= end <= ptr + |s| && OnlySpaces(s, end - ptr)
    {
      end := end - 1;
    }
    if ByteAt(s, ptr, end - 1) == SPACE && startWords < endWords {
      while end > startWords && (RoomForWord(startWords, end); WordAt(s, ptr, end - SIZEOF_INT) == SPACE_INT)
        invariant startWords <= end <= ptr + |s| && end % SIZEOF_INT == 0 && OnlySpaces(s, end - ptr)
      {
        RoomForWord(startWords, end);
        OneMoreWord(s, ptr, end);
        end := end - SIZEOF_INT;
      }
    }
  }

  /** The position behind the last byte of `s` that is not a trailing space, wherever `s` lies. */
  method SkipTrailingSpace(s: seq<byte>, ptr: nat) returns (end: nat)
    ensures end == ptr + Trimmed(s)
  {
    end := ptr + |s|;
    if |s| > 20 {
      var endWords, startWords := AlignDown(end), AlignDown(ptr + SIZEOF_INT - 1);
      if endWords > ptr {
        end := SkipWords(s, ptr, startWords, endWords);
      }
    }
    while end > ptr && ByteAt(s, ptr, end - 1) == SPACE
      invariant ptr <= end <= ptr + |s| && OnlySpaces(s, end - ptr)
    {
      end := end - 1;
    }
    TrimmedIsTheCut(s, end - ptr);
  }
}
