/** Three ways of finding the end of a string without its trailing spaces:
    byte by byte, eight unaligned bytes at a time, and (SPARC) one aligned
    machine word at a time. Memory is an array; a pointer is an index into it,
    and `address` is the machine address of index 0, which alignment depends on. */
module TrailingSpace {
  import opened ByteOrder

  const SPACE: Byte := 0x20

  function TrimmedLength(s: seq<Byte>): nat {
    if s != [] && s[|s| - 1] == SPACE then TrimmedLength(s[..|s| - 1]) else |s|
  }

  /** Everything from `end` on is spaces, and what is before does not end in one. */
  predicate IsTrimmedEnd(s: seq<Byte>, end: nat) {
    && end <= |s|
    && (forall k :: end <= k < |s| ==> s[k] == SPACE)
    && (end > 0 ==> s[end - 1] != SPACE)
  }

  lemma {:induction false} TrimmedEndIffTrimmedLength(s: seq<Byte>, end: nat)
    ensures IsTrimmedEnd(s, end) <==> end == TrimmedLength(s)
  {
    if s != [] && s[|s| - 1] == SPACE {
      TrimmedEndIffTrimmedLength(s[..|s| - 1], end);
    }
  }

  /** A byte of the string; the precondition keeps every read inside it. */
  function Read(mem: seq<Byte>, ptr: nat, len: nat, at: int): Byte
    requires ptr + len <= |mem|
    requires ptr <= at < ptr + len
  {
    mem[at]
  }

  /** `n` bytes of the string, at any alignment. */
  function ReadBytes(mem: seq<Byte>, ptr: nat, len: nat, at: int, n: nat): (r: seq<Byte>)
    requires ptr + len <= |mem|
    requires ptr <= at && at + n <= ptr + len
    ensures |r| == n
  {
    mem[at..at + n]
  }

  /** A machine word of the string; its address must be aligned. */
  function ReadWord(mem: seq<Byte>, address: nat, ptr: nat, len: nat, at: int, word: nat): int
    requires (word == 4 || word == 8) && ptr + len <= |mem|
    requires ptr <= at && at + word <= ptr + len
    requires Aligned(address + at, word)
  {
    WordAt(mem[at..at + word])
  }

  method SkipBytes(mem: array<Byte>, ptr: nat, len: nat) returns (end: nat)
    requires ptr + len <= mem.Length
    ensures ptr <= end && end - ptr == TrimmedLength(mem[ptr..ptr + len])
  {
    end := ptr + len;
    while end > ptr && Read(mem[..], ptr, len, end - 1) == SPACE
      invariant ptr <= end <= ptr + len
      invariant forall k :: end <= k < ptr + len ==> mem[k] == SPACE
    {
      end := end - 1;
    }
    TrimmedEndIffTrimmedLength(mem[ptr..ptr + len], end - ptr);
  }

  const EIGHT_SPACES := 0x2020_2020_2020_2020

  lemma EightSpacesStored()
    ensures Bytes8(EIGHT_SPACES) == [SPACE, SPACE, SPACE, SPACE, SPACE, SPACE, SPACE, SPACE]
  {}

  lemma EightSpaces(a: seq<Byte>)
    requires |a| == 8
    ensures Uint8Korr(a) == EIGHT_SPACES <==> forall k :: 0 <= k < 8 ==> a[k] == SPACE
  {
    EightSpacesStored();
    if forall k :: 0 <= k < 8 ==> a[k] == SPACE {
      assert a == Bytes8(EIGHT_SPACES);
      LoadAfterStore(EIGHT_SPACES);
    } else {
      StoreAfterLoad(a);
    }
  }

  method SkipEight(mem: array<Byte>, ptr: nat, len: nat) returns (end: nat)
    requires ptr + len <= mem.Length
    ensures ptr <= end && end - ptr == TrimmedLength(mem[ptr..ptr + len])
  {
    end := ptr + len;
    while end - ptr >= 8
      invariant ptr <= end <= ptr + len
      invariant forall k :: end <= k < ptr + len ==> mem[k] == SPACE
    {
      var a := ReadBytes(mem[..], ptr, len, end - 8, 8);
      EightSpaces(a);
      if Uint8Korr(a) != EIGHT_SPACES { break; }
      assert forall k :: end - 8 <= k < end ==> mem[k] == a[k - (end - 8)];
      end := end - 8;
    }
    while end > ptr && Read(mem[..], ptr, len, end - 1) == SPACE
      invariant ptr <= end <= ptr + len
      invariant forall k :: end <= k < ptr + len ==> mem[k] == SPACE
    {
      end := end - 1;
    }
    TrimmedEndIffTrimmedLength(mem[ptr..ptr + len], end - ptr);
  }

  /** The word full of spaces, for the two sizes of `unsigned` that the source knows. */
  function SpaceInt(word: nat): int
    requires word == 4 || word == 8
  {
    if word == 4 then 0x2020_2020 else 0x2020_2020_2020_2020
  }

  lemma SpaceIntIsAllSpaces(a: seq<Byte>, word: nat)
    requires (word == 4 || word == 8) && |a| == word
    ensures WordAt(a) == SpaceInt(word) <==> forall k :: 0 <= k < word ==> a[k] == SPACE
  {
    var spaces: seq<Byte> := seq(word, _ => SPACE);
    SpacesWord(word);
    if forall k :: 0 <= k < word ==> a[k] == SPACE {
      assert a == spaces;
    } else if WordAt(a) == SpaceInt(word) {
      WordInjective(a, spaces);
      assert false;
    }
  }

  lemma SpacesWord(word: nat)
    requires word == 4 || word == 8
    ensures WordAt(seq(word, _ => SPACE)) == SpaceInt(word)
  {
    Grow(0); Grow(1); Grow(2); Grow(3);
    if word == 8 { Grow(4); Grow(5); Grow(6); Grow(7); }
  }

  lemma Grow(n: nat)
    ensures WordAt(seq(n + 1, _ => SPACE)) == 0x100 * WordAt(seq(n, _ => SPACE)) + SPACE
  {
    var longer: seq<Byte> := seq(n + 1, _ => SPACE);
    var shorter: seq<Byte> := seq(n, _ => SPACE);
    assert longer[..n] == shorter;
  }

  predicate Aligned(a: int, word: nat)
    requires word == 4 || word == 8
  {
    if word == 4 then a % 4 == 0 else a % 8 == 0
  }

  /** The last multiple of the word size up to `a`. */
  function RoundDown(a: nat, word: nat): (r: nat)
    requires word == 4 || word == 8
    ensures Aligned(r, word) && r <= a < r + word
  {
    Multiples(a);
    if word == 4 then a / 4 * 4 else a / 8 * 8
  }

  lemma Multiples(a: nat)
    ensures (a / 4 * 4) % 4 == 0 && (a / 8 * 8) % 8 == 0
  {
    Multiple4(a / 4);
    Multiple8(a / 8);
  }

  lemma Multiple4(q: nat)
    ensures (4 * q) % 4 == 0
  {}

  lemma Multiple8(q: nat)
    ensures (8 * q) % 8 == 0
  {}

  /** The aligned zone, word by word from its end. */
  method SkipAlignedZone(mem: array<Byte>, address: nat, ptr: nat, len: nat, word: nat, startWords: nat, endWords: nat)
    returns (end: nat)
    requires word == 4 || word == 8
    requires ptr + len <= mem.Length && ptr <= startWords <= endWords <= ptr + len
    requires Aligned(address + startWords, word) && Aligned(address + endWords, word)
    ensures startWords <= end <= endWords
    ensures forall k :: end <= k < endWords ==> mem[k] == SPACE
  {
    var m := mem[..];
    end := endWords;
    while end > startWords
      invariant startWords <= end <= endWords
      invariant Aligned(address + end, word)
      invariant forall k :: end <= k < endWords ==> m[k] == SPACE
    {
      PreviousWord(address + startWords, address + end, word);
      var before := end - word;
      if ReadWord(m, address, ptr, len, before, word) != SpaceInt(word) { break; }
      WordOfSpaces(m, before, word);
      end := before;
    }
  }

  lemma PreviousWord(lo: int, hi: int, word: nat)
    requires word == 4 || word == 8
    requires lo < hi && Aligned(lo, word) && Aligned(hi, word)
    ensures lo <= hi - word && Aligned(hi - word, word)
  {
    if word == 4 { PreviousMultiple4(lo, hi); } else { PreviousMultiple8(lo, hi); }
  }

  lemma PreviousMultiple4(lo: int, hi: int)
    requires lo < hi && lo % 4 == 0 && hi % 4 == 0
    ensures lo <= hi - 4 && (hi - 4) % 4 == 0
  {}

  lemma PreviousMultiple8(lo: int, hi: int)
    requires lo < hi && lo % 8 == 0 && hi % 8 == 0
    ensures lo <= hi - 8 && (hi - 8) % 8 == 0
  {}

  lemma WordOfSpaces(m: seq<Byte>, at: nat, word: nat)
    requires word == 4 || word == 8
    requires at + word <= |m| && WordAt(m[at..at + word]) == SpaceInt(word)
    ensures forall k :: at <= k < at + word ==> m[k] == SPACE
  {
    var a := m[at..at + word];
    SpaceIntIsAllSpaces(a, word);
    assert forall k :: at <= k < at + word ==> m[k] == a[k - at];
  }

  method SkipWords(mem: array<Byte>, address: nat, ptr: nat, len: nat, word: nat) returns (end: nat)
    requires word == 4 || word == 8
    requires ptr + len <= mem.Length
    ensures ptr <= end && end - ptr == TrimmedLength(mem[ptr..ptr + len])
  {
    end := ptr + len;
    if len > 20 {
      var endWords := RoundDown(address + end, word) - address;
      var startWords := RoundDown(address + ptr + word - 1, word) - address;
      assert endWords > ptr;
      while end > endWords && Read(mem[..], ptr, len, end - 1) == SPACE
        invariant endWords <= end <= ptr + len
        invariant forall k :: end <= k < ptr + len ==> mem[k] == SPACE
      {
        end := end - 1;
      }
      if Read(mem[..], ptr, len, end - 1) == SPACE && startWords < endWords {
        end := SkipAlignedZone(mem, address, ptr, len, word, startWords, endWords);
      }
    }
    while end > ptr && Read(mem[..], ptr, len, end - 1) == SPACE
      invariant ptr <= end <= ptr + len
      invariant forall k :: end <= k < ptr + len ==> mem[k] == SPACE
    {
      end := end - 1;
    }
    TrimmedEndIffTrimmedLength(mem[ptr..ptr + len], end - ptr);
  }
}
