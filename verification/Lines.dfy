/** The line reader: it takes one byte at a time from a socket, accepts LF,
    CRLF and a lone CR as line ends, and returns each of them as one LF. */
module Lines {

  // ---------- What a line is ----------

  /** All line ends turned into LF. */
  function Norm(s: string): string {
    if s == "" then ""
    else if s[0] == '\r' then "\n" + Norm(AfterCr(s[1..]))
    else [s[0]] + Norm(s[1..])
  }

  /** The LF that follows a CR belongs to it. */
  function AfterCr(s: string): string {
    if s != "" && s[0] == '\n' then s[1..] else s
  }

  /** The first line with its LF, or all there is if no line end comes. */
  function FirstLine(s: string): string {
    if s == "" then ""
    else if s[0] == '\n' || s[0] == '\r' then "\n"
    else [s[0]] + FirstLine(s[1..])
  }

  /** The untouched bytes behind the first line. */
  function AfterLine(s: string): (r: string)
    ensures |r| <= |s| && (s != "" ==> |r| < |s|)
  {
    if s == "" then ""
    else if s[0] == '\n' then s[1..]
    else if s[0] == '\r' then AfterCr(s[1..])
    else AfterLine(s[1..])
  }

  predicate Complete(line: string) {
    line != "" && line[|line| - 1] == '\n'
  }

  /** The line without its LF. */
  function Chomp(line: string): string {
    if Complete(line) then line[..|line| - 1] else line
  }

  /** The line reader cuts the normalised text behind its first LF, and what it
      leaves behind normalises to what the cut leaves behind. */
  lemma LineRefinesNorm(s: string)
    ensures Norm(s) == FirstLine(s) + Norm(AfterLine(s))
    ensures Complete(FirstLine(s)) <==> '\n' in Norm(s)
    ensures '\n' !in Chomp(FirstLine(s))
    ensures !Complete(FirstLine(s)) ==> AfterLine(s) == ""
  {
    NormSplits(s);
    ChompHasNoLf(s);
    IncompleteIsAll(s);
  }

  lemma {:induction false} NormSplits(s: string)
    ensures Norm(s) == FirstLine(s) + Norm(AfterLine(s))
  {
    if s != "" && s[0] != '\n' && s[0] != '\r' {
      NormSplits(s[1..]);
    }
  }

  lemma {:induction false} ChompHasNoLf(s: string)
    ensures '\n' !in Chomp(FirstLine(s))
  {
    if s != "" && s[0] != '\n' && s[0] != '\r' {
      ChompHasNoLf(s[1..]);
      var l := FirstLine(s[1..]);
      assert Chomp([s[0]] + l) == [s[0]] + Chomp(l);
    }
  }

  lemma {:induction false} IncompleteIsAll(s: string)
    ensures !Complete(FirstLine(s)) ==> AfterLine(s) == ""
  {
    if s != "" && s[0] != '\n' && s[0] != '\r' {
      IncompleteIsAll(s[1..]);
    }
  }

  /** All complete lines of the text, one call after the other. */
  function AllLines(s: string): seq<string>
    decreases |s|
  {
    if !Complete(FirstLine(s)) then [] else [FirstLine(s)] + AllLines(AfterLine(s))
  }

  /** The plain split: behind every LF. */
  function SplitAtLf(s: string, sofar: string): seq<string> {
    if s == "" then []
    else if s[0] == '\n' then [sofar + "\n"] + SplitAtLf(s[1..], "")
    else SplitAtLf(s[1..], sofar + [s[0]])
  }

  lemma {:induction false} SplitSkips(l: string, s: string, sofar: string)
    requires '\n' !in l
    ensures SplitAtLf(l + s, sofar) == SplitAtLf(s, sofar + l)
  {
    if l == "" {
      assert l + s == s && sofar + l == sofar;
    } else {
      assert (l + s)[1..] == l[1..] + s;
      SplitSkips(l[1..], s, sofar + [l[0]]);
      assert sofar + [l[0]] + l[1..] == sofar + l;
    }
  }

  /** Whatever mixture of line ends a text uses, reading it line by line gives
      the lines of the plain split of the normalised text. */
  lemma {:induction false} ReaderSplitsNorm(s: string)
    ensures AllLines(s) == SplitAtLf(Norm(s), "")
    decreases |s|
  {
    LineRefinesNorm(s);
    var l, rest := FirstLine(s), AfterLine(s);
    SplitOfFirst(Chomp(l), Norm(rest));
    if Complete(l) {
      ReaderSplitsNorm(rest);
      assert l == Chomp(l) + "\n";
    } else {
      assert Norm(s) == Chomp(l);
    }
  }

  lemma SplitOfFirst(text: string, rest: string)
    requires '\n' !in text
    ensures SplitAtLf(text, "") == []
    ensures SplitAtLf(text + "\n" + rest, "") == [text + "\n"] + SplitAtLf(rest, "")
  {
    assert text + "" == text && "" + text == text;
    SplitSkips(text, "", "");
    SplitSkips(text, "\n" + rest, "");
    assert text + ("\n" + rest) == text + "\n" + rest;
    assert ("\n" + rest)[1..] == rest;
  }

  // ---------- The line ends on the wire ----------

  datatype Eol = Lf | CrLf | Cr

  function EolBytes(e: Eol): string {
    match e
    case Lf => "\n"
    case CrLf => "\r\n"
    case Cr => "\r"
  }

  predicate Plain(text: string) { '\n' !in text && '\r' !in text }

  /** A lone CR in front of an LF would read as one CRLF. */
  predicate Separable(e: Eol, rest: string) {
    e.Cr? ==> rest == "" || rest[0] != '\n'
  }

  /** Plain text with any line end reads back as the text; what follows it is
      left untouched exactly when it is separable, else it loses the LF. */
  lemma {:induction false} ReadBackLine(text: string, e: Eol, rest: string)
    requires Plain(text)
    ensures FirstLine(text + EolBytes(e) + rest) == text + "\n"
    ensures AfterLine(text + EolBytes(e) + rest) == if Separable(e, rest) then rest else rest[1..]
    ensures AfterLine(text + EolBytes(e) + rest) == rest <==> Separable(e, rest)
  {
    var s := text + EolBytes(e) + rest;
    if text == "" {
      assert s == EolBytes(e) + rest;
      assert s[1..] == EolBytes(e)[1..] + rest;
      if e.CrLf? { assert s[1..][1..] == rest; }
    } else {
      assert text[0] in text;
      assert s[1..] == text[1..] + EolBytes(e) + rest;
      ReadBackLine(text[1..], e, rest);
    }
  }

  /** The converse: a complete line came from some plain text and line end. */
  lemma {:induction false} LineOnTheWire(s: string) returns (text: string, e: Eol)
    requires Complete(FirstLine(s))
    ensures Plain(text) && Separable(e, AfterLine(s))
    ensures s == text + EolBytes(e) + AfterLine(s)
    ensures FirstLine(s) == text + "\n"
  {
    if s[0] == '\n' {
      text, e := "", Lf;
    } else if s[0] == '\r' {
      text := "";
      e := if s[1..] != "" && s[1..][0] == '\n' then CrLf else Cr;
    } else {
      assert FirstLine(s)[|FirstLine(s)| - 1] == '\n';
      assert FirstLine(s) == [s[0]] + FirstLine(s[1..]);
      text, e := LineOnTheWire(s[1..]);
      text := [s[0]] + text;
    }
  }

  // ---------- The descriptor and the reader ----------

  /** One end of a connection or of a pipe: the bytes still to be read, whether
      a read then reports an error or the end, and the bytes written so far. */
  class Descriptor {
    var stream: string
    var sent: string
    var closed: bool
    const broken: bool

    constructor (bytes: string, broken: bool)
      ensures stream == bytes && sent == "" && !closed && this.broken == broken
    {
      stream, sent, closed, this.broken := bytes, "", false, broken;
    }

    function End(): int { if broken then -1 else 0 }

    /** `recv(sock, &ch, 1, 0)`; `ch` is left alone when no byte comes. */
    method Recv(ch0: char) returns (s: int, ch: char)
      modifies this`stream
      ensures old(stream) == "" ==> s == End() && ch == ch0 && stream == ""
      ensures old(stream) != "" ==> s == 1 && ch == old(stream)[0] && stream == old(stream)[1..]
    {
      if stream == "" {
        return End(), ch0;
      }
      s, ch := 1, stream[0];
      stream := stream[1..];
    }

    /** `recv` with `MSG_PEEK`. */
    method Peek(ch0: char) returns (ch: char)
      ensures ch == if stream == "" then ch0 else stream[0]
    {
      ch := if stream == "" then ch0 else stream[0];
    }

    /** `send`: the kernel takes the first `result` bytes of what it is offered,
        or reports a failure. */
    method Send(data: string, result: int) returns (r: int)
      requires result <= |data|
      modifies this`sent
      ensures r == result
      ensures sent == if result > 0 then old(sent) + data[..result] else old(sent)
    {
      if result > 0 { sent := sent + data[..result]; }
      r := result;
    }

    method Close()
      modifies this`closed
      ensures closed
    {
      closed := true;
    }
  }

  /** Appends one line to `out0`; the result is the length of `out`, or 0 or -1
      if the stream ends first. */
  method ReadInLine(sock: Descriptor, out0: string) returns (n: int, out: string)
    modifies sock`stream
    ensures out == out0 + FirstLine(old(sock.stream))
    ensures sock.stream == AfterLine(old(sock.stream))
    ensures n == if Complete(FirstLine(old(sock.stream))) then |out| else sock.End()
  {
    out := out0;
    var ch := 'X';
    while ch != '\n'
      invariant ch != '\n' ==>
        && out + FirstLine(sock.stream) == out0 + FirstLine(old(sock.stream))
        && AfterLine(sock.stream) == AfterLine(old(sock.stream))
        && (Complete(FirstLine(sock.stream)) <==> Complete(FirstLine(old(sock.stream))))
      invariant ch == '\n' ==>
        && out == out0 + FirstLine(old(sock.stream))
        && sock.stream == AfterLine(old(sock.stream))
        && Complete(FirstLine(old(sock.stream)))
      decreases |sock.stream|, ch != '\n'
    {
      ghost var before, line := sock.stream, FirstLine(sock.stream);
      var s: int;
      s, ch := sock.Recv(ch);
      if s > 0 {
        if ch == '\r' {
          ch := sock.Peek(ch);
          if ch == '\n' {
            s, ch := sock.Recv(ch);
          } else {
            ch := '\n';
          }
        }
        out := out + [ch];
        if ch != '\n' {
          assert line == [ch] + FirstLine(before[1..]);
          LineRefinesNorm(before[1..]);
        }
      } else if s == 0 {
        return 0, out;
      } else {
        return -1, out;
      }
    }
    n := |out|;
  }
}
