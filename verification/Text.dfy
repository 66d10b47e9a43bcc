/** The C and C++ string operations that the server leans on. A `char` of the
    source is one Dafny `char`; a `std::string` is a sequence of them. */
module Text {
  import opened Basics

  // ---------- std::string::find ----------

  predicate OccursAt(s: string, sep: string, at: nat) {
    at + |sep| <= |s| && s[at..at + |sep|] == sep
  }

  /** The first occurrence of `sep`, or -1 for `npos`. */
  function Find(s: string, sep: string): (pos: int)
    ensures pos >= 0 ==> OccursAt(s, sep, pos)
    ensures forall k: nat :: (pos < 0 || k < pos) ==> !OccursAt(s, sep, k)
    ensures -1 <= pos
  {
    if OccursAt(s, sep, 0) then 0
    else if s == "" then -1
    else
      var p := Find(s[1..], sep);
      OccursInTail(s, sep);
      if p < 0 then -1 else p + 1
  }

  lemma OccursInTail(s: string, sep: string)
    requires s != ""
    ensures forall k: nat :: k > 0 ==> (OccursAt(s, sep, k) <==> OccursAt(s[1..], sep, k - 1))
  {
    forall k: nat | k > 0 ensures OccursAt(s, sep, k) <==> OccursAt(s[1..], sep, k - 1) {
      if k + |sep| <= |s| { assert s == s[..1] + s[1..]; SameSlice(s[..1], s[1..], k, k + |sep|); }
    }
  }

  lemma SameSlice(left: string, s: string, i: nat, j: nat)
    requires |left| <= i <= j <= |left| + |s|
    ensures (left + s)[i..j] == s[i - |left|..j - |left|]
  {}

  /** The text before and after the first `sep`. */
  function Cut(s: string, sep: string): Option<(string, string)> {
    var pos := Find(s, sep);
    if pos < 0 then None else Some((s[..pos], s[pos + |sep|..]))
  }

  /** If `left` holds no occurrence that could start early, the cut of
      `left + sep + right` gives the two parts back. */
  lemma CutOfJoin(left: string, sep: string, right: string)
    requires forall k: nat :: k < |left| ==> !OccursAt(left + sep + right, sep, k)
    ensures Cut(left + sep + right, sep) == Some((left, right))
  {
    var s := left + sep + right;
    assert s[|left|..|left| + |sep|] == sep;
    assert OccursAt(s, sep, |left|);
    assert s[..|left|] == left && s[|left| + |sep|..] == right;
  }

  lemma CharOccursAt(s: string, c: char, k: nat)
    requires k < |s|
    ensures OccursAt(s, [c], k) <==> s[k] == c
  {
    assert s[k..k + 1] == [s[k]];
  }

  lemma CutAtChar(left: string, c: char, right: string)
    requires c !in left
    ensures Cut(left + [c] + right, [c]) == Some((left, right))
  {
    var s := left + [c] + right;
    forall k: nat | k < |left| ensures !OccursAt(s, [c], k) {
      CharOccursAt(s, c, k);
      assert s[k] == left[k];
    }
    CutOfJoin(left, [c], right);
  }

  lemma CutNothing(s: string, c: char)
    requires c !in s
    ensures Cut(s, [c]) == None
  {
    var pos := Find(s, [c]);
    if 0 <= pos < |s| {
      CharOccursAt(s, c, pos);
      assert false;
    }
  }

  // ---------- std::string::c_str ----------

  /** What a C function sees of a string: it ends at the first NUL. */
  function CString(s: string): string {
    if s == "" || s[0] == '\0' then "" else [s[0]] + CString(s[1..])
  }

  lemma {:induction false} CStringWhole(s: string)
    ensures |CString(s)| <= |s|
    ensures CString(s) == s <==> '\0' !in s
  {
    if s != "" && s[0] != '\0' { CStringWhole(s[1..]); }
  }

  lemma {:induction false} CStringEnds(s: string, rest: string)
    requires '\0' !in s
    ensures CString(s + "\0" + rest) == s
  {
    var t := s + "\0" + rest;
    if s != "" {
      assert s[0] in s;
      assert t[1..] == s[1..] + "\0" + rest;
      CStringEnds(s[1..], rest);
    }
  }

  // ---------- stringstream >> string, toupper ----------

  predicate IsSpace(c: char) {
    c == ' ' || c == '\t' || c == '\n' || c == '\r' || c == '\U{0B}' || c == '\U{0C}'
  }

  predicate NoSpace(s: string) {
    forall c :: c in s ==> !IsSpace(c)
  }

  function SkipSpace(s: string): string {
    if s != "" && IsSpace(s[0]) then SkipSpace(s[1..]) else s
  }

  function Word(s: string): string {
    if s != "" && !IsSpace(s[0]) then [s[0]] + Word(s[1..]) else ""
  }

  function AfterWord(s: string): string {
    if s != "" && !IsSpace(s[0]) then AfterWord(s[1..]) else s
  }

  /** The next word of a stream and what follows it; "" at the end. */
  function Extract(s: string): (string, string) {
    var t := SkipSpace(s);
    (Word(t), AfterWord(t))
  }

  /** The characters that end a word: blank, tab, line feed, vertical tab, form
      feed and carriage return, codes 32 and 9 to 13. */
  lemma SpaceCodes(c: char)
    ensures IsSpace(c) <==> c as int == 32 || 9 <= c as int <= 13
  {}

  lemma {:induction false} WordOfJoin(w: string, rest: string)
    requires NoSpace(w) && (rest != "" ==> IsSpace(rest[0]))
    ensures Word(w + rest) == w && AfterWord(w + rest) == rest
  {
    if w == "" {
      assert w + rest == rest;
    } else {
      assert (w + rest)[1..] == w[1..] + rest;
      assert w[0] in w;
      WordOfJoin(w[1..], rest);
    }
  }

  lemma ExtractJoin(w: string, rest: string)
    requires w != "" && NoSpace(w) && (rest != "" ==> IsSpace(rest[0]))
    ensures Extract(w + rest) == (w, rest)
  {
    assert w[0] in w;
    WordOfJoin(w, rest);
  }

  lemma ExtractAfterBlank(w: string, rest: string)
    requires w != "" && NoSpace(w) && (rest != "" ==> IsSpace(rest[0]))
    ensures Extract(" " + w + rest) == (w, rest)
  {
    assert (" " + w + rest)[1..] == w + rest;
    ExtractJoin(w, rest);
    assert w[0] in w;
  }

  function UpperChar(c: char): char {
    if 'a' <= c <= 'z' then c - 'a' + 'A' else c
  }

  function Upper(s: string): string {
    if s == "" then "" else [UpperChar(s[0])] + Upper(s[1..])
  }

  // ---------- std::to_string, atoi ----------

  const INT_MAX := 0x7FFF_FFFF
  const LONG_MAX := 0x7FFF_FFFF_FFFF_FFFF

  /** Conversion of a wider integer to a 32-bit `int`. */
  function ToInt(v: int): (r: int)
    ensures -INT_MAX - 1 <= r <= INT_MAX
    ensures -INT_MAX - 1 <= v <= INT_MAX ==> r == v
  {
    (v + INT_MAX + 1) % 0x1_0000_0000 - INT_MAX - 1
  }

  function Digit(d: nat): char
    requires d < 10
  {
    '0' + d as char
  }

  predicate IsDigit(c: char) { '0' <= c <= '9' }

  function DigitValue(c: char): nat
    requires IsDigit(c)
  {
    (c - '0') as int
  }

  function Decimal(n: nat): string {
    if n < 10 then [Digit(n)] else Decimal(n / 10) + [Digit(n % 10)]
  }

  function ToString(v: int): string {
    if v < 0 then "-" + Decimal(-v) else Decimal(v)
  }

  /** The value of the leading digits, read from the left. */
  function Digits(s: string, acc: nat): nat {
    if s != "" && IsDigit(s[0]) then Digits(s[1..], 10 * acc + DigitValue(s[0])) else acc
  }

  /** `atoi` as glibc has it: `strtol`, which saturates at 64 bits, cut down to
      an `int` (the C standard leaves values outside `int` undefined). */
  function Atoi(s: string): int {
    var t := SkipSpace(s);
    if t != "" && t[0] == '-' then ToInt(Saturate(0 - Digits(t[1..], 0)))
    else if t != "" && t[0] == '+' then ToInt(Saturate(Digits(t[1..], 0)))
    else ToInt(Saturate(Digits(t, 0)))
  }

  function Saturate(v: int): int {
    if v > LONG_MAX then LONG_MAX else if v < -LONG_MAX - 1 then -LONG_MAX - 1 else v
  }

  lemma {:induction false} DigitsAppend(s: string, c: char, acc: nat)
    requires (forall d :: d in s ==> IsDigit(d)) && IsDigit(c)
    ensures Digits(s + [c], acc) == 10 * Digits(s, acc) + DigitValue(c)
  {
    if s == "" {
      assert s + [c] == [c];
    } else {
      assert s[0] in s;
      assert (s + [c])[1..] == s[1..] + [c];
      DigitsAppend(s[1..], c, 10 * acc + DigitValue(s[0]));
    }
  }

  lemma {:induction false} DigitsOfDecimal(n: nat)
    ensures Decimal(n) != "" && (forall d :: d in Decimal(n) ==> IsDigit(d))
    ensures Digits(Decimal(n), 0) == n
  {
    if n >= 10 {
      DigitsOfDecimal(n / 10);
      DigitsAppend(Decimal(n / 10), Digit(n % 10), 0);
    }
  }

  /** Printing and reading back is the identity exactly for what fits an `int`. */
  lemma AtoiOfDecimal(n: nat)
    ensures Atoi(Decimal(n)) == n <==> n <= INT_MAX
  {
    DigitsOfDecimal(n);
    assert Decimal(n)[0] in Decimal(n);
  }

  lemma AtoiWraps(n: nat)
    requires n <= LONG_MAX
    ensures Atoi(Decimal(n)) == ToInt(n)
  {
    DigitsOfDecimal(n);
    assert Decimal(n)[0] in Decimal(n);
  }

  lemma DecimalIsWord(n: nat)
    ensures Decimal(n) != "" && NoSpace(Decimal(n))
  {
    DigitsOfDecimal(n);
  }

  lemma {:induction false} DigitsStop(s: string, rest: string, acc: nat)
    requires (forall d :: d in s ==> IsDigit(d)) && (rest != "" ==> !IsDigit(rest[0]))
    ensures Digits(s + rest, acc) == Digits(s, acc)
  {
    if s == "" {
      assert s + rest == rest;
    } else {
      assert s[0] in s;
      assert (s + rest)[1..] == s[1..] + rest;
      DigitsStop(s[1..], rest, 10 * acc + DigitValue(s[0]));
    }
  }

  lemma {:induction false} BlanksSkipped(blanks: string, s: string)
    requires (forall c :: c in blanks ==> IsSpace(c)) && s != "" && !IsSpace(s[0])
    ensures SkipSpace(blanks + s) == s
  {
    if blanks == "" {
      assert blanks + s == s;
    } else {
      assert blanks[0] in blanks;
      assert (blanks + s)[1..] == blanks[1..] + s;
      BlanksSkipped(blanks[1..], s);
    }
  }

  /** White space in front, one sign and anything behind the digits do not
      disturb the reading of a number that fits an `int`. */
  lemma AtoiReads(blanks: string, n: nat, rest: string)
    requires (forall c :: c in blanks ==> IsSpace(c)) && (rest != "" ==> !IsDigit(rest[0])) && n <= INT_MAX
    ensures Atoi(blanks + (Decimal(n) + rest)) == n
    ensures Atoi(blanks + ("+" + (Decimal(n) + rest))) == n
    ensures Atoi(blanks + ("-" + (Decimal(n) + rest))) == 0 - n as int
  {
    DigitsOfDecimal(n);
    var number := Decimal(n) + rest;
    assert Decimal(n)[0] in Decimal(n) && number[0] == Decimal(n)[0];
    DigitsStop(Decimal(n), rest, 0);
    BlanksSkipped(blanks, number);
    BlanksSkipped(blanks, "+" + number);
    BlanksSkipped(blanks, "-" + number);
    assert ("+" + number)[1..] == number && ("-" + number)[1..] == number;
  }

  lemma AtoiOfToString(v: int)
    requires -INT_MAX <= v <= INT_MAX
    ensures Atoi(ToString(v)) == v
  {
    var n: nat := if v < 0 then -v else v;
    AtoiReads("", n, "");
    assert Decimal(n) + "" == Decimal(n) && "" + Decimal(n) == Decimal(n) && "" + ("-" + Decimal(n)) == "-" + Decimal(n);
  }

  lemma {:induction false} UpperChars(s: string)
    ensures |Upper(s)| == |s| && forall i :: 0 <= i < |s| ==> Upper(s)[i] == UpperChar(s[i])
  {
    if s != "" {
      UpperChars(s[1..]);
      assert forall i :: 1 <= i < |s| ==> s[i] == s[1..][i - 1] && Upper(s)[i] == Upper(s[1..])[i - 1];
    }
  }

  /** The same word, but for the case of its letters. */
  predicate SameLetters(s: string, capitals: string) {
    |s| == |capitals| && forall i :: 0 <= i < |s| ==> s[i] == capitals[i] || s[i] as int == capitals[i] as int + 32
  }

  /** A method is known in any mixture of cases, and by no other name. */
  lemma AnyCase(s: string, capitals: string)
    requires forall c :: c in capitals ==> 'A' <= c <= 'Z'
    ensures Upper(s) == capitals <==> SameLetters(s, capitals)
  {
    UpperChars(s);
    assert forall i :: 0 <= i < |capitals| ==> capitals[i] in capitals;
  }

  lemma AtoiFits(s: string)
    ensures -INT_MAX - 1 <= Atoi(s) <= INT_MAX
  {}
}
