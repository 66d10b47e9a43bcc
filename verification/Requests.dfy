/** What the server makes of the bytes of a request, as functions of those
    bytes, and exactly which byte streams it accepts. */
module Requests {
  import opened Text
  import opened Lines

  const SEP := ": "

  datatype HttpRequest = HttpRequest(
    reqLine: string, reqHead: seq<string>, blank: string, body: string,
    method_: string, uri: string, version: string,
    contentLength: int, headKv: map<string, string>,
    path: string, queryString: string,
    cgi: bool, size: int, suffix: string)

  const NEW_REQUEST := HttpRequest("", [], "", "", "", "", "", 0, map[], "", "", false, 0, "")

  // ---------- The head block ----------

  datatype HeadBlock = HeadBlock(heads: seq<string>, rest: string, complete: bool)

  /** Lines up to and without the blank one, and the bytes behind that. */
  function ReadHeads(s: string): HeadBlock
    decreases |s|
  {
    var l := FirstLine(s);
    if !Complete(l) then HeadBlock([], AfterLine(s), false)
    else if l == "\n" then HeadBlock([], AfterLine(s), true)
    else
      var more := ReadHeads(AfterLine(s));
      more.(heads := [Chomp(l)] + more.heads)
  }

  // ---------- Keys and values ----------

  predicate Gives(head: string, key: string) {
    Cut(head, SEP).Some? && Cut(head, SEP).value.0 == key
  }

  /** `insert` into an `unordered_map` keeps what is already there. */
  function Insert(m: map<string, string>, head: string): map<string, string> {
    match Cut(head, SEP)
    case None => m
    case Some((key, value)) => if key in m then m else m[key := value]
  }

  function HeadMap(heads: seq<string>): map<string, string> {
    if heads == [] then map[]
    else Insert(HeadMap(heads[..|heads| - 1]), heads[|heads| - 1])
  }

  predicate FirstToGive(heads: seq<string>, key: string, i: int) {
    && 0 <= i < |heads| && Gives(heads[i], key)
    && forall j :: 0 <= j < i ==> !Gives(heads[j], key)
  }

  predicate Given(heads: seq<string>, key: string) {
    exists i :: 0 <= i < |heads| && Gives(heads[i], key)
  }

  lemma {:induction false} PresentIffGiven(heads: seq<string>, key: string)
    ensures key in HeadMap(heads) <==> Given(heads, key)
  {
    if heads != [] {
      var n := |heads| - 1;
      PresentIffGiven(heads[..n], key);
      assert forall i :: 0 <= i < n ==> heads[i] == heads[..n][i];
      if Given(heads[..n], key) {
        var i :| 0 <= i < n && Gives(heads[..n][i], key);
        assert Gives(heads[i], key);
      }
    }
  }

  lemma {:induction false} FirstGives(heads: seq<string>, key: string, i: int)
    requires FirstToGive(heads, key, i)
    ensures key in HeadMap(heads) && HeadMap(heads)[key] == Cut(heads[i], SEP).value.1
  {
    var n := |heads| - 1;
    var front := heads[..n];
    PresentIffGiven(front, key);
    if i < n {
      assert FirstToGive(front, key, i);
      FirstGives(front, key, i);
    } else {
      assert forall j :: 0 <= j < n ==> front[j] == heads[j];
      assert !Given(front, key);
    }
  }

  /** A key is present iff some head gives it, with the value of the first that does. */
  lemma FirstValueWins(heads: seq<string>, key: string)
    ensures key in HeadMap(heads) <==> Given(heads, key)
    ensures forall i :: FirstToGive(heads, key, i) ==>
      key in HeadMap(heads) && HeadMap(heads)[key] == Cut(heads[i], SEP).value.1
  {
    PresentIffGiven(heads, key);
    forall i | FirstToGive(heads, key, i)
      ensures key in HeadMap(heads) && HeadMap(heads)[key] == Cut(heads[i], SEP).value.1
    {
      FirstGives(heads, key, i);
    }
  }

  // ---------- The request line, the body ----------

  function ParseLine(req: HttpRequest): HttpRequest {
    var (m, s1) := Extract(req.reqLine);
    var (u, s2) := Extract(s1);
    var (v, _) := Extract(s2);
    req.(method_ := Upper(m), uri := u, version := v)
  }

  /** The body length a request asks for; 0 if it asks for none. */
  function Wanted(line: string, heads: seq<string>): int {
    if Upper(Extract(line).0) == "POST" && "Content-Length" in HeadMap(heads)
    then Atoi(HeadMap(heads)["Content-Length"]) else 0
  }

  datatype Receipt = Receipt(request: HttpRequest, rest: string, stop: bool)

  /** Counting down from n to exactly zero: a negative count never gets there. */
  function ReadBody(s: string, n: int): (string, string, bool) {
    if 0 <= n <= |s| then (s[..n], s[n..], false) else (s, "", true)
  }

  /** Everything `RecvHttpRequest` does with a stream. */
  function Receive(s: string): Receipt {
    var l := FirstLine(s);
    if !Complete(l) then Receipt(NEW_REQUEST.(reqLine := l), AfterLine(s), true)
    else ReceiveRest(Chomp(l), ReadHeads(AfterLine(s)))
  }

  function ReceiveRest(line: string, h: HeadBlock): Receipt {
    var r := NEW_REQUEST.(reqLine := line, reqHead := h.heads);
    if !h.complete then Receipt(r, h.rest, true)
    else
      var n := Wanted(line, h.heads);
      var (body, rest, stop) := ReadBody(h.rest, n);
      Receipt(ParseLine(r).(blank := "\n", headKv := HeadMap(h.heads), contentLength := n, body := body), rest, stop)
  }

  // ---------- Requests on the wire ----------

  /** A request as a client may write it: every line with its own line end. */
  datatype Frame = Frame(line: string, eol: Eol, heads: seq<(string, Eol)>, blank: Eol, rest: string)

  function EncodeHeads(heads: seq<(string, Eol)>, blank: Eol, rest: string): string {
    if heads == [] then EolBytes(blank) + rest
    else heads[0].0 + EolBytes(heads[0].1) + EncodeHeads(heads[1..], blank, rest)
  }

  function Encode(f: Frame): string {
    f.line + EolBytes(f.eol) + EncodeHeads(f.heads, f.blank, f.rest)
  }

  /** Heads are nonempty lines, and no lone CR stands in front of an LF. */
  predicate HeadsFramed(heads: seq<(string, Eol)>, blank: Eol, rest: string) {
    if heads == [] then Separable(blank, rest)
    else
      && Plain(heads[0].0) && heads[0].0 != ""
      && Separable(heads[0].1, EncodeHeads(heads[1..], blank, rest))
      && HeadsFramed(heads[1..], blank, rest)
  }

  predicate IsFrame(f: Frame) {
    && Plain(f.line) && Separable(f.eol, EncodeHeads(f.heads, f.blank, f.rest))
    && HeadsFramed(f.heads, f.blank, f.rest)
  }

  function Texts(heads: seq<(string, Eol)>): seq<string> {
    seq(|heads|, i requires 0 <= i < |heads| => heads[i].0)
  }

  lemma {:induction false} HeadsReadBack(heads: seq<(string, Eol)>, blank: Eol, rest: string)
    requires HeadsFramed(heads, blank, rest)
    ensures ReadHeads(EncodeHeads(heads, blank, rest)) == HeadBlock(Texts(heads), rest, true)
  {
    if heads == [] {
      assert "" + EolBytes(blank) + rest == EolBytes(blank) + rest;
      ReadBackLine("", blank, rest);
      assert Texts(heads) == [];
    } else {
      var tail := EncodeHeads(heads[1..], blank, rest);
      ReadBackLine(heads[0].0, heads[0].1, tail);
      HeadsReadBack(heads[1..], blank, rest);
      assert Chomp(heads[0].0 + "\n") == heads[0].0;
      assert Texts(heads) == [heads[0].0] + Texts(heads[1..]);
    }
  }

  lemma {:induction false} HeadsOnTheWire(s: string) returns (heads: seq<(string, Eol)>, blank: Eol)
    requires ReadHeads(s).complete
    ensures HeadsFramed(heads, blank, ReadHeads(s).rest)
    ensures s == EncodeHeads(heads, blank, ReadHeads(s).rest)
    decreases |s|
  {
    var text, e := LineOnTheWire(s);
    assert Chomp(text + "\n") == text;
    if text == "" {
      heads, blank := [], e;
      assert "" + EolBytes(e) + AfterLine(s) == EolBytes(e) + AfterLine(s);
    } else {
      assert FirstLine(s) != "\n";
      heads, blank := HeadsOnTheWire(AfterLine(s));
      heads := [(text, e)] + heads;
      assert heads[1..] == heads[1..];
    }
  }

  predicate BodyArrived(f: Frame) {
    0 <= Wanted(f.line, Texts(f.heads)) <= |f.rest|
  }

  lemma FrameParts(f: Frame)
    requires IsFrame(f)
    ensures FirstLine(Encode(f)) == f.line + "\n"
    ensures ReadHeads(AfterLine(Encode(f))) == HeadBlock(Texts(f.heads), f.rest, true)
  {
    ReadBackLine(f.line, f.eol, EncodeHeads(f.heads, f.blank, f.rest));
    HeadsReadBack(f.heads, f.blank, f.rest);
  }

  lemma RestReadBack(line: string, h: HeadBlock)
    requires h.complete
    ensures var r, n := ReceiveRest(line, h), Wanted(line, h.heads);
      && r.stop == !(0 <= n <= |h.rest|)
      && r.request.reqLine == line && r.request.reqHead == h.heads && r.request.headKv == HeadMap(h.heads)
      && (!r.stop ==> |r.request.body| == r.request.contentLength == n && r.request.body + r.rest == h.rest)
  {}

  /** A framed request is read back exactly: its line, its heads in order, and
      of what follows the blank line precisely the announced bytes. */
  lemma FrameReadBack(f: Frame)
    requires IsFrame(f)
    ensures var r := Receive(Encode(f));
      && r.stop == !BodyArrived(f)
      && r.request.reqLine == f.line && r.request.reqHead == Texts(f.heads)
      && r.request.headKv == HeadMap(Texts(f.heads))
      && (!r.stop ==>
            && |r.request.body| == r.request.contentLength == Wanted(f.line, Texts(f.heads))
            && r.request.body + r.rest == f.rest)
    ensures forall m, u, v :: IsRequestLine(f.line, m, u, v) ==>
      var r := Receive(Encode(f)).request; r.method_ == Upper(m) && r.uri == u && r.version == v
  {
    FrameParts(f);
    assert Chomp(f.line + "\n") == f.line;
    var h := HeadBlock(Texts(f.heads), f.rest, true);
    RestReadBack(f.line, h);
    forall m, u, v | IsRequestLine(f.line, m, u, v)
      ensures var r := ReceiveRest(f.line, h).request; r.method_ == Upper(m) && r.uri == u && r.version == v
    {
      LineReadBack(NEW_REQUEST.(reqLine := f.line, reqHead := h.heads), m, u, v);
    }
  }

  /** Method, address and version, each a word, with a blank between them. */
  predicate IsRequestLine(line: string, m: string, u: string, v: string) {
    && m != "" && u != "" && v != "" && NoSpace(m) && NoSpace(u) && NoSpace(v)
    && line == m + " " + u + " " + v
  }

  lemma LineReadBack(req: HttpRequest, m: string, u: string, v: string)
    requires IsRequestLine(req.reqLine, m, u, v)
    ensures var r := ParseLine(req); r.method_ == Upper(m) && r.uri == u && r.version == v
  {
    var s1, s2 := " " + u + " " + v, " " + v;
    assert req.reqLine == m + s1;
    ExtractJoin(m, s1);
    assert s1 == " " + u + s2;
    ExtractAfterBlank(u, s2);
    assert s2 == " " + v + "";
    ExtractAfterBlank(v, "");
  }

  /** Which bytes become the body: for a POST as many as the first Content-Length
      says, and for anything else none, even if a length is given. */
  lemma BodyTaken(f: Frame, m: string, u: string, v: string)
    requires IsFrame(f) && IsRequestLine(f.line, m, u, v)
    ensures var r, heads := Receive(Encode(f)), Texts(f.heads);
      && (Upper(m) != "POST" || !Given(heads, "Content-Length") ==> !r.stop && r.request.body == "" && r.rest == f.rest)
      && forall i :: Upper(m) == "POST" && FirstToGive(heads, "Content-Length", i) ==>
           var n := Atoi(Cut(heads[i], SEP).value.1);
           && r.stop == !(0 <= n <= |f.rest|)
           && (!r.stop ==> r.request.body == f.rest[..n] && r.rest == f.rest[n..])
  {
    var h := HeadBlock(Texts(f.heads), f.rest, true);
    FrameParts(f);
    assert Chomp(f.line + "\n") == f.line;
    assert Receive(Encode(f)) == ReceiveRest(f.line, h);
    MethodWordRead(f.line, m, u, v);
    FirstValueWins(h.heads, "Content-Length");
  }

  lemma MethodWordRead(line: string, m: string, u: string, v: string)
    requires IsRequestLine(line, m, u, v)
    ensures Extract(line).0 == m
  {
    assert line == m + (" " + u + " " + v);
    ExtractJoin(m, " " + u + " " + v);
  }

  /** The accepted streams are the framed requests whose body has arrived. */
  lemma AcceptedIffFramed(s: string)
    ensures !Receive(s).stop <==> exists f: Frame :: IsFrame(f) && Encode(f) == s && BodyArrived(f)
  {
    if !Receive(s).stop {
      var line, eol := LineOnTheWire(s);
      var heads, blank := HeadsOnTheWire(AfterLine(s));
      var f := Frame(line, eol, heads, blank, ReadHeads(AfterLine(s)).rest);
      assert IsFrame(f) && Encode(f) == s;
      FrameReadBack(f);
    }
    if f: Frame :| IsFrame(f) && Encode(f) == s && BodyArrived(f) {
      FrameReadBack(f);
    }
  }
}
