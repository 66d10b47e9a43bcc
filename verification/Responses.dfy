/** What the server answers: routing a request to a resource, the status, the
    head lines, and the bytes that go out. */
module Responses {
  import opened Basics
  import opened Text
  import opened Lines
  import opened Requests

  const HTTP_VERSION := "HTTP/1.0"
  const WEB_ROOT := "./wwwroot"
  const DEFAULT_PAGE := "index.html"
  const PAGE_404 := "404.html"
  const LINE_END := "\r\n"
  const OK := 200
  const BAD_REQUEST := 400
  const NOT_FOUND := 404
  const SERVER_ERROR := 500

  // ---------- The surroundings ----------

  /** A file system entry as `stat`, `open` and `sendfile` see it; `executable`
      says that one of the three execute bits is set. */
  datatype Node =
    | File(executable: bool, readable: bool, content: string)
    | Dir(executable: bool, readable: bool, size: nat)

  type Files = map<string, Node>

  function StatSize(n: Node): nat { if n.File? then |n.content| else n.size }

  datatype Fd = NoFile | Opened(node: Node)

  /** `stat`; like every system call, it sees a path up to its first NUL. */
  function Stat(files: Files, path: string): Option<Node> {
    if CString(path) in files then Some(files[CString(path)]) else None
  }

  function OpenFile(files: Files, path: string): Fd {
    match Stat(files, path)
    case Some(node) => if node.readable then Opened(node) else NoFile
    case None => NoFile
  }

  datatype Ended = Exited(status: int) | Killed

  /** How running the CGI program turned out, and what the parent read from it. */
  datatype CgiOutcome =
    | PipeFailed
    | ForkFailed
    | WaitFailed(output: string)
    | Ran(output: string, ended: Ended)

  function CgiCode(o: CgiOutcome): int {
    match o
    case PipeFailed => SERVER_ERROR
    case ForkFailed => NOT_FOUND
    case WaitFailed(_) => OK
    case Ran(_, Exited(status)) => if status == 0 then OK else BAD_REQUEST
    case Ran(_, Killed) => SERVER_ERROR
  }

  function CgiOutput(o: CgiOutcome): string {
    match o
    case Ran(output, _) => output
    case WaitFailed(output) => output
    case _ => ""
  }

  // ---------- Building ----------

  datatype HttpResponse = HttpResponse(
    statusLine: string, respHead: seq<string>, blank: string, body: string, statusCode: int, fd: Fd)

  const NEW_RESPONSE := HttpResponse("", [], LINE_END, "", OK, NoFile)

  function Code2Desc(code: int): string {
    if code == 200 then "OK" else if code == 404 then "Not Found" else ""
  }

  function Suffix2Desc(suffix: string): string {
    if suffix == ".html" then "text/html"
    else if suffix == ".css" then "text/css"
    else if suffix == ".js" then "application/x-javascript"
    else if suffix == ".jpg" then "image/jpeg"
    else if suffix == ".xml" then "application/xml"
    else "text/html"
  }

  function FromLastDot(s: string): string {
    if s == "" then ".html" // no dot at all
    else if '.' in s[1..] || s[0] != '.' then FromLastDot(s[1..])
    else s
  }

  /** Path and query that a GET or POST request names. */
  function Named(req: HttpRequest): HttpRequest {
    if req.method_ == "GET" then
      (match Cut(req.uri, "?")
       case Some((path, query)) => req.(path := path, queryString := query, cgi := true)
       case None => req.(path := req.uri))
    else req.(cgi := true, path := req.uri)
  }

  function Rooted(path: string): string {
    if (WEB_ROOT + path)[|WEB_ROOT + path| - 1] == '/' then WEB_ROOT + path + DEFAULT_PAGE else WEB_ROOT + path
  }

  /** The resource under the web root. */
  function Locate(req: HttpRequest): HttpRequest {
    Named(req).(path := Rooted(Named(req).path))
  }

  /** `stat`: a directory stands for its default page, and when that page does
      not exist the directory's own mode and size stay in use. */
  function Examine(req: HttpRequest, files: Files): HttpRequest
    requires Stat(files, req.path).Some?
  {
    var first := Stat(files, req.path).value;
    var path := if first.Dir? then req.path + "/" + DEFAULT_PAGE else req.path;
    var st := match Stat(files, path) case Some(node) => node case None => first;
    req.(path := path, cgi := req.cgi || st.executable, size := ToInt(StatSize(st)), suffix := FromLastDot(path))
  }

  function Build(req: HttpRequest, files: Files, outcome: CgiOutcome): (HttpRequest, HttpResponse) {
    if req.method_ != "POST" && req.method_ != "GET" then
      Finish(req, NEW_RESPONSE.(statusCode := BAD_REQUEST), files)
    else
      var r := Locate(req);
      if Stat(files, r.path).None? then Finish(r, NEW_RESPONSE.(statusCode := NOT_FOUND), files)
      else
        var r := Examine(r, files);
        if r.cgi then
          Finish(r, NEW_RESPONSE.(statusCode := CgiCode(outcome), body := CgiOutput(outcome)), files)
        else
          var fd := OpenFile(files, r.path);
          Finish(r, NEW_RESPONSE.(statusCode := if fd.Opened? then OK else NOT_FOUND, fd := fd), files)
  }

  function StatusLine(code: int): string {
    HTTP_VERSION + " " + ToString(code) + " " + Code2Desc(code)
  }

  function TypeHead(t: string): string { "Content-Type" + SEP + t }

  function LengthHead(n: int): string { "Content-Length" + SEP + ToString(n) }

  /** Status line and head lines; an error is answered with the error page. */
  function Finish(req: HttpRequest, resp: HttpResponse, files: Files): (HttpRequest, HttpResponse) {
    var resp := resp.(statusLine := StatusLine(resp.statusCode) + LINE_END);
    if resp.statusCode == OK then
      var n := if req.cgi then |resp.body| else req.size;
      (req, resp.(respHead := [TypeHead(Suffix2Desc(req.suffix)) + LINE_END, LengthHead(n) + LINE_END]))
    else if resp.statusCode in {NOT_FOUND, SERVER_ERROR, BAD_REQUEST} then
      var fd := OpenFile(files, WEB_ROOT + "/" + PAGE_404);
      if fd.NoFile? then (req.(cgi := false), resp.(fd := fd))
      else
        var n := StatSize(fd.node);
        (req.(cgi := false, size := ToInt(n)),
         resp.(fd := fd, respHead := [TypeHead("text/html") + LINE_END, LengthHead(n) + LINE_END]))
    else (req, resp)
  }

  // ---------- Sending ----------

  function Concat(parts: seq<string>): string {
    if parts == [] then "" else parts[0] + Concat(parts[1..])
  }

  function HeadBytes(resp: HttpResponse): string {
    resp.statusLine + Concat(resp.respHead) + resp.blank
  }

  /** What goes out in one `send` each: status line, heads, blank line. */
  function Parts(resp: HttpResponse): seq<string> {
    [resp.statusLine] + resp.respHead + [resp.blank]
  }

  /** What a `send` of `part` that returned `result` has put on the wire. */
  function Accepted(part: string, result: int): string {
    if 0 < result <= |part| then part[..result] else ""
  }

  /** The results of these sends are not looked at. */
  function PartsSent(parts: seq<string>, results: seq<int>): string {
    if parts == [] || results == [] then "" else Accepted(parts[0], results[0]) + PartsSent(parts[1..], results[1..])
  }

  predicate PossibleParts(parts: seq<string>, results: seq<int>) {
    |results| == |parts| && forall i :: 0 <= i < |parts| ==> results[i] <= |parts[i]|
  }

  lemma {:induction false} PartsSentLength(parts: seq<string>, results: seq<int>)
    requires PossibleParts(parts, results)
    ensures |PartsSent(parts, results)| <= |Concat(parts)|
    ensures |PartsSent(parts, results)| == |Concat(parts)| ==>
      forall i :: 0 <= i < |parts| ==> parts[i] == "" || results[i] == |parts[i]|
    ensures (forall i :: 0 <= i < |parts| ==> parts[i] == "" || results[i] == |parts[i]|) ==>
      PartsSent(parts, results) == Concat(parts)
  {
    if parts != [] {
      var ps, rs := parts[1..], results[1..];
      assert forall i :: 0 <= i < |ps| ==> ps[i] == parts[i + 1] && rs[i] == results[i + 1];
      assert forall i :: 1 <= i < |parts| ==> parts[i] == ps[i - 1] && results[i] == rs[i - 1];
      PartsSentLength(ps, rs);
      assert Accepted(parts[0], |parts[0]|) == parts[0];
    }
  }

  lemma PartsAreHead(resp: HttpResponse)
    ensures Concat(Parts(resp)) == HeadBytes(resp)
  {
    var tail := resp.respHead + [resp.blank];
    assert Parts(resp) == [resp.statusLine] + tail;
    ConcatLast(resp.respHead, resp.blank);
    assert resp.statusLine + (Concat(resp.respHead) + resp.blank) == HeadBytes(resp);
  }

  lemma {:induction false} ConcatLast(parts: seq<string>, last: string)
    ensures Concat(parts + [last]) == Concat(parts) + last
  {
    if parts == [] {
      assert parts + [last] == [last] && [last][1..] == [];
      assert Concat([last]) == last + Concat([]);
    } else {
      assert (parts + [last])[1..] == parts[1..] + [last];
      ConcatLast(parts[1..], last);
    }
  }

  predicate EachWhole(parts: seq<string>, results: seq<int>)
    requires |results| == |parts|
  {
    forall i :: 0 <= i < |parts| ==> parts[i] == "" || results[i] == |parts[i]|
  }

  /** The head arrives whole exactly when every one of its sends takes all. */
  lemma HeadSentIff(resp: HttpResponse, results: seq<int>)
    requires PossibleParts(Parts(resp), results)
    ensures PartsSent(Parts(resp), results) == HeadBytes(resp) <==> EachWhole(Parts(resp), results)
  {
    PartsSentLength(Parts(resp), results);
    PartsAreHead(resp);
  }

  /** The most that one `sendfile` call transfers. */
  const SENDFILE_MAX := 0x7FFF_F000

  /** The most that `sendfile(sock, fd, nullptr, size)` can transfer, `size`
      being converted to `size_t`; nothing comes from a directory. */
  function FileMost(fd: Fd, size: int): nat {
    if fd.Opened? && fd.node.File? then
      var count := if size < 0 then SENDFILE_MAX else Min(size, SENDFILE_MAX);
      Min(|fd.node.content|, count)
    else 0
  }

  /** What a `sendfile` call that returned `result` has put on the wire. */
  function FileBytes(fd: Fd, size: int, result: int): string {
    if 0 < result <= FileMost(fd, size) then fd.node.content[..result] else ""
  }

  /** The loop that sends a CGI body. `results` are the results of its `send`
      calls; the loop stores whether they were positive, not how much they
      sent, and so moves on by one byte each time. */
  function BodyBytes(body: string, total: nat, results: seq<int>): string
    decreases |results|
  {
    if total < |body| && results != [] && 0 < results[0] <= |body| - total
    then body[total..total + results[0]] + BodyBytes(body, total + 1, results[1..])
    else ""
  }

  /** What the calls that send a response return: the sends of its head, those
      of a CGI body, and `sendfile`. */
  datatype Returns = Returns(heads: seq<int>, body: seq<int>, file: int)

  /** All that goes out. */
  function Sent(req: HttpRequest, resp: HttpResponse, ret: Returns): string {
    PartsSent(Parts(resp), ret.heads)
    + if req.cgi then BodyBytes(resp.body, 0, ret.body) else FileBytes(resp.fd, req.size, ret.file)
  }

  predicate CanReturn(req: HttpRequest, resp: HttpResponse, ret: Returns) {
    && PossibleParts(Parts(resp), ret.heads) && Possible(resp.body, 0, ret.body)
    && ret.file <= FileMost(resp.fd, req.size)
  }

  /** All that serving a connection with these bytes sends. */
  function Answer(wire: string, files: Files, outcome: CgiOutcome, ret: Returns): string {
    if Receive(wire).stop then ""
    else
      var (q, r) := Build(Receive(wire).request, files, outcome);
      Sent(q, r, ret)
  }

  /** Results that the calls can have: no call sends more than it was given,
      and any call may fail. */
  predicate Possible(body: string, total: nat, results: seq<int>) {
    && total + |results| == |body|
    && forall i :: 0 <= i < |results| ==> results[i] <= |body| - total - i
  }

  predicate AllSucceed(body: string, total: nat, results: seq<int>) {
    Possible(body, total, results) && forall i :: 0 <= i < |results| ==> 1 <= results[i]
  }

  // ---------- When a CGI body goes out as it is ----------

  /** How many calls succeed before the loop ends. */
  function Sends(results: seq<int>): (k: nat)
    ensures k <= |results| && forall i :: 0 <= i < k ==> results[i] > 0
    ensures k < |results| ==> results[k] <= 0
  {
    if results != [] && results[0] > 0 then 1 + Sends(results[1..]) else 0
  }

  predicate FirstSucceed(results: seq<int>, k: nat) {
    k <= |results| && forall i :: 0 <= i < k ==> results[i] > 0
  }

  /** How many bytes the first k calls take, if they succeed. */
  function Taken(results: seq<int>, k: nat): int
    requires k <= |results|
    decreases k
  {
    if k == 0 then 0 else Taken(results, k - 1) + results[k - 1]
  }

  /** What call i sends: the bytes from i on, as many as it takes. */
  function Piece(body: string, results: seq<int>, i: nat): (piece: string)
    requires Possible(body, 0, results) && i < |results| && results[i] > 0
    ensures |piece| == results[i] > 0
  {
    body[i..i + results[i]]
  }

  /** What the first k calls send. */
  function Pieces(body: string, results: seq<int>, k: nat): string
    requires Possible(body, 0, results) && FirstSucceed(results, k)
    decreases k
  {
    if k == 0 then "" else Pieces(body, results, k - 1) + Piece(body, results, k - 1)
  }

  /** Call i starts at byte i of the body, but what it sends arrives behind all
      that was sent before: this is what belongs there. */
  predicate Lands(body: string, results: seq<int>, i: nat)
    requires Possible(body, 0, results) && i < |results| && results[i] > 0
  {
    Follows(body, Taken(results, i), Piece(body, results, i))
  }

  /** The piece is what the body has at `at`. */
  predicate Follows(body: string, at: int, piece: string) {
    0 <= at && at + |piece| <= |body| && body[at..at + |piece|] == piece
  }

  lemma NextPiece(body: string, results: seq<int>, k: nat)
    requires Possible(body, 0, results) && 0 < k && FirstSucceed(results, k)
    ensures BodyBytes(body, k - 1, results[k - 1..]) == Piece(body, results, k - 1) + BodyBytes(body, k, results[k..])
  {
    var rest := results[k - 1..];
    assert rest[0] == results[k - 1] && rest[1..] == results[k..];
  }

  lemma {:induction false} BytesArePieces(body: string, results: seq<int>, k: nat)
    requires Possible(body, 0, results) && FirstSucceed(results, k)
    ensures BodyBytes(body, 0, results) == Pieces(body, results, k) + BodyBytes(body, k, results[k..])
    decreases k
  {
    if k == 0 {
      assert results[0..] == results;
    } else {
      BytesArePieces(body, results, k - 1);
      NextPiece(body, results, k);
      Reassociate(Pieces(body, results, k - 1), Piece(body, results, k - 1), BodyBytes(body, k, results[k..]));
    }
  }

  lemma Reassociate(a: string, b: string, c: string)
    ensures a + (b + c) == (a + b) + c
  {}

  lemma BytesAreAllPieces(body: string, results: seq<int>)
    requires Possible(body, 0, results)
    ensures BodyBytes(body, 0, results) == Pieces(body, results, Sends(results))
  {
    var k := Sends(results);
    BytesArePieces(body, results, k);
    assert k < |results| ==> results[k..][0] == results[k];
    assert Pieces(body, results, k) + "" == Pieces(body, results, k);
  }

  lemma {:induction false} PiecesLength(body: string, results: seq<int>, k: nat)
    requires Possible(body, 0, results) && FirstSucceed(results, k)
    ensures |Pieces(body, results, k)| == Taken(results, k) >= k
    decreases k
  {
    if k > 0 {
      PiecesLength(body, results, k - 1);
      var front, piece := Pieces(body, results, k - 1), Piece(body, results, k - 1);
      assert |front + piece| == |front| + |piece|;
    }
  }

  /** Each of the first k calls sends what belongs where it arrives. */
  predicate AllLand(body: string, results: seq<int>, k: nat)
    requires Possible(body, 0, results) && FirstSucceed(results, k)
  {
    forall i :: 0 <= i < k ==> Lands(body, results, i)
  }

  lemma {:induction false} PiecesStartBody(body: string, results: seq<int>, k: nat)
    requires Possible(body, 0, results) && FirstSucceed(results, k)
    ensures Pieces(body, results, k) <= body <==> AllLand(body, results, k)
    decreases k
  {
    if k > 0 {
      PiecesStartBody(body, results, k - 1);
      OneMoreStarts(body, results, k);
      OneMoreLands(body, results, k);
    }
  }

  lemma OneMoreStarts(body: string, results: seq<int>, k: nat)
    requires Possible(body, 0, results) && 0 < k && FirstSucceed(results, k)
    ensures Pieces(body, results, k) <= body <==> Pieces(body, results, k - 1) <= body && Lands(body, results, k - 1)
  {
    PiecesLength(body, results, k - 1);
    AppendStarts(Pieces(body, results, k - 1), Piece(body, results, k - 1), body);
  }

  lemma OneMoreLands(body: string, results: seq<int>, k: nat)
    requires Possible(body, 0, results) && 0 < k && FirstSucceed(results, k)
    ensures AllLand(body, results, k) <==> AllLand(body, results, k - 1) && Lands(body, results, k - 1)
  {}

  lemma AppendStarts(front: string, piece: string, body: string)
    ensures front + piece <= body <==> front <= body && Follows(body, |front|, piece)
  {
    var both := front + piece;
    if both <= body {
      assert both == body[..|both|];
      assert front == both[..|front|] == body[..|front|];
      assert piece == both[|front|..] == body[|front|..|both|];
    }
    if front <= body && Follows(body, |front|, piece) {
      assert body[..|front|] == front && body[|front|..|both|] == piece;
      assert body[..|both|] == body[..|front|] + body[|front|..|both|];
    }
  }

  /** For any results, failures included: a CGI body goes out as it is exactly
      when the calls take as many bytes as it has and what each of them sends
      belongs where it arrives. */
  lemma CgiBodySentIff(body: string, results: seq<int>)
    requires Possible(body, 0, results)
    ensures BodyBytes(body, 0, results) <= body <==> AllLand(body, results, Sends(results))
    ensures BodyBytes(body, 0, results) == body <==>
      Taken(results, Sends(results)) == |body| && AllLand(body, results, Sends(results))
  {
    BytesAreAllPieces(body, results);
    PiecesLength(body, results, Sends(results));
    PiecesStartBody(body, results, Sends(results));
  }

  /** Every call takes one byte, but the last that succeeds takes all the rest. */
  predicate InStep(n: nat, results: seq<int>) {
    var k := Sends(results);
    if k == 0 then n == 0
    else (forall i :: 0 <= i < k - 1 ==> results[i] == 1) && results[k - 1] == n - (k - 1)
  }

  predicate PossibleFor(n: nat, results: seq<int>) {
    |results| == n && forall i :: 0 <= i < n ==> results[i] <= n - i
  }

  lemma {:induction false} OnesTaken(results: seq<int>, k: nat)
    requires k <= |results| && forall i :: 0 <= i < k ==> results[i] == 1
    ensures Taken(results, k) == k
  {
    if k > 0 { OnesTaken(results, k - 1); }
  }

  lemma InStepSends(body: string, results: seq<int>)
    requires Possible(body, 0, results) && InStep(|body|, results)
    ensures BodyBytes(body, 0, results) == body
  {
    var k := Sends(results);
    forall i | 0 <= i < k ensures Lands(body, results, i) { OnesTaken(results, i); }
    if k > 0 { OnesTaken(results, k - 1); }
    CgiBodySentIff(body, results);
  }

  lemma LandsFirstByte(body: string, results: seq<int>, i: nat)
    requires Possible(body, 0, results) && i < |results| && results[i] > 0
    ensures var at := Taken(results, i);
      Lands(body, results, i) ==> 0 <= at < |body| && i < |body| && body[i] == body[at]
  {
    var at := Taken(results, i);
    if Lands(body, results, i) {
      assert body[i..i + results[i]][0] == body[i] && body[at..at + results[i]][0] == body[at];
    }
  }

  /** A body that the results spoil, if they are not in step. */
  function Marked(n: nat, mark: int): (body: string)
    ensures |body| == n
  {
    seq(n, i => if i == mark then 'b' else 'a')
  }

  lemma {:induction false} OutOfStepSpoils(n: nat, results: seq<int>, j: nat)
    requires PossibleFor(n, results) && j + 1 < Sends(results) && results[j] != 1
    ensures exists i: nat :: i < n && BodyBytes(Marked(n, i), 0, results) != Marked(n, i)
  {
    if exists i :: 0 <= i < j && results[i] != 1 {
      var i :| 0 <= i < j && results[i] != 1;
      OutOfStepSpoils(n, results, i);
    } else {
      OnesTaken(results, j);
      var body := Marked(n, j + 1);
      var at := Taken(results, j + 1);
      assert at == j + results[j];
      LandsFirstByte(body, results, j + 1);
      CgiBodySentIff(body, results);
    }
  }

  /** The results that send every body of their length as it is. */
  lemma EveryBodySentIff(n: nat, results: seq<int>)
    requires PossibleFor(n, results)
    ensures (forall body: string :: |body| == n ==> BodyBytes(body, 0, results) == body) <==> InStep(n, results)
  {
    if InStep(n, results) {
      forall body: string | |body| == n ensures BodyBytes(body, 0, results) == body {
        InStepSends(body, results);
      }
    } else {
      var k := Sends(results);
      if exists j :: 0 <= j && j + 1 < k && results[j] != 1 {
        var j :| 0 <= j && j + 1 < k && results[j] != 1;
        OutOfStepSpoils(n, results, j);
      } else {
        var body := Marked(n, 0);
        if k > 0 { OnesTaken(results, k - 1); }
        CgiBodySentIff(body, results);
        assert BodyBytes(body, 0, results) != body;
      }
    }
  }

  /** Every call takes all that it is offered. */
  function TakingAll(n: nat): seq<int> { seq(n, i => n - i) }

  lemma TakingAllDoubles(body: string)
    requires |body| >= 2
    ensures AllSucceed(body, 0, TakingAll(|body|))
    ensures |BodyBytes(body, 0, TakingAll(|body|))| > |body|
  {
    var rs := TakingAll(|body|);
    BytesAreAllPieces(body, rs);
    SendsAll(rs);
    PiecesLength(body, rs, |body|);
    AtLeastFirstTwo(rs, |body|);
  }

  lemma {:induction false} SendsAll(results: seq<int>)
    requires forall i :: 0 <= i < |results| ==> results[i] > 0
    ensures Sends(results) == |results|
  {
    if results != [] { SendsAll(results[1..]); }
  }

  lemma {:induction false} AtLeastFirstTwo(results: seq<int>, k: nat)
    requires 2 <= k <= |results| && forall i :: 0 <= i < k ==> results[i] > 0
    ensures Taken(results, k) >= results[0] + results[1]
  {
    if k > 2 {
      AtLeastFirstTwo(results, k - 1);
    } else {
      assert Taken(results, 1) == Taken(results, 0) + results[0];
    }
  }

  /** Before the calls: whatever they return, a body goes out as it is, or up to
      where a call fails, exactly when it has at most one byte. */
  lemma SafeBodyIff(body: string)
    ensures (forall results :: AllSucceed(body, 0, results) ==> BodyBytes(body, 0, results) == body) <==> |body| <= 1
    ensures (forall results :: Possible(body, 0, results) ==> BodyBytes(body, 0, results) <= body) <==> |body| <= 1
  {
    if |body| <= 1 {
      forall results | Possible(body, 0, results)
        ensures BodyBytes(body, 0, results) <= body && (AllSucceed(body, 0, results) ==> BodyBytes(body, 0, results) == body)
      {
        OnesTaken(results, 0);
        CgiBodySentIff(body, results);
        assert forall i :: 0 <= i < Sends(results) ==> i == 0 && Lands(body, results, i);
        SendsOne(results);
      }
    } else {
      TakingAllDoubles(body);
    }
  }

  lemma SendsOne(results: seq<int>)
    requires |results| <= 1 && forall i :: 0 <= i < |results| ==> results[i] <= 1
    ensures (forall i :: 0 <= i < |results| ==> 1 <= results[i]) ==> Taken(results, Sends(results)) == |results|
  {
    if forall i :: 0 <= i < |results| ==> 1 <= results[i] {
      SendsAll(results);
      OnesTaken(results, |results|);
    }
  }

  /** When the first `send` takes everything, two bytes arrive as three. */
  lemma CgiBodySentTwice()
    ensures AllSucceed("ab", 0, [2, 1])
    ensures BodyBytes("ab", 0, [2, 1]) == "abb"
  {
    assert "ab"[0..2] == "ab" && "ab"[1..2] == "b";
    assert [2, 1][1..] == [1];
  }

  // ---------- When a client that counts gets a CGI body ----------

  lemma FirstSendTakesAll(body: string, results: seq<int>)
    requires Possible(body, 0, results)
    requires body != "" ==> results[0] == |body|
    ensures body <= BodyBytes(body, 0, results)
  {
    if body != "" { assert body[0..|body|] == body; }
  }

  /** Behind its first byte the body repeats one byte. */
  predicate SameTail(body: string) {
    forall i, j :: 1 <= i < |body| && 1 <= j < |body| ==> body[i] == body[j]
  }

  lemma {:induction false} TailRepeats(body: string, total: nat, results: seq<int>)
    requires total >= 1 && SameTail(body) && AllSucceed(body, total, results)
    ensures |BodyBytes(body, total, results)| >= |body| - total
    ensures forall i :: 0 <= i < |BodyBytes(body, total, results)| ==> BodyBytes(body, total, results)[i] == body[|body| - 1]
    decreases |results|
  {
    if results != [] {
      var r := results[1..];
      assert forall i :: 0 <= i < |r| ==> r[i] == results[i + 1];
      TailRepeats(body, total + 1, r);
    }
  }

  lemma SameTailArrives(body: string, results: seq<int>)
    requires SameTail(body) && AllSucceed(body, 0, results)
    ensures body <= BodyBytes(body, 0, results)
  {
    if body != "" {
      var r := results[1..];
      assert forall i :: 0 <= i < |r| ==> r[i] == results[i + 1];
      TailRepeats(body, 1, r);
      var sent := BodyBytes(body, 0, results);
      assert sent == body[0..results[0]] + BodyBytes(body, 1, r);
      forall i | 0 <= i < |body| ensures sent[i] == body[i] {}
    }
  }

  /** One byte at a time, but two at byte p - 1. */
  function TwoAt(n: nat, p: nat): seq<int> { seq(n, i => if i == p - 1 then 2 else 1) }

  lemma TwoAtSpoils(body: string, p: nat)
    requires 1 <= p < |body| - 1 && body[p] != body[p + 1]
    ensures AllSucceed(body, 0, TwoAt(|body|, p))
    ensures !(body <= BodyBytes(body, 0, TwoAt(|body|, p)))
  {
    var rs := TwoAt(|body|, p);
    var front, rest := Pieces(body, rs, p), BodyBytes(body, p + 1, rs[p + 1..]);
    assert |front| == p + 1 by {
      PiecesLength(body, rs, p);
      OnesTaken(rs, p - 1);
    }
    assert BodyBytes(body, 0, rs) == front + [body[p]] + rest by {
      BytesArePieces(body, rs, p + 1);
      assert Piece(body, rs, p) == [body[p]];
    }
    WrongByte(front, body[p], rest, body);
  }

  lemma WrongByte(front: string, c: char, rest: string, body: string)
    requires |front| < |body| && body[|front|] != c
    ensures !(body <= front + [c] + rest)
  {
    assert (front + [c] + rest)[|front|] == c;
  }

  lemma {:induction false} StepSomewhere(body: string, i: nat, j: nat) returns (p: nat)
    requires 1 <= i <= j < |body| && body[i] != body[j]
    ensures 1 <= p < |body| - 1 && body[p] != body[p + 1]
    decreases j - i
  {
    if body[i] != body[i + 1] { p := i; } else { p := StepSomewhere(body, i + 1, j); }
  }

  /** Before the calls: a client that reads only as many bytes as announced gets
      the body however the calls split it exactly when all its bytes but the
      first are the same. */
  lemma CountingClientIff(body: string)
    ensures (forall results :: AllSucceed(body, 0, results) ==> body <= BodyBytes(body, 0, results)) <==> SameTail(body)
  {
    if SameTail(body) {
      forall results | AllSucceed(body, 0, results) ensures body <= BodyBytes(body, 0, results) {
        SameTailArrives(body, results);
      }
    } else {
      var i, j :| 1 <= i < |body| && 1 <= j < |body| && body[i] != body[j];
      var p := StepSomewhere(body, Min(i, j), Max(i, j));
      TwoAtSpoils(body, p);
    }
  }

  // ---------- Lengths ----------

  /** The size of the body that the response has ready. */
  function Offered(req: HttpRequest, resp: HttpResponse): nat {
    if req.cgi then |resp.body| else if resp.fd.Opened? then StatSize(resp.fd.node) else 0
  }

  lemma ToStringInjective(a: int, b: int)
    requires ToString(a) == ToString(b)
    ensures a == b
  {
    var m, n: nat := if a < 0 then -a else a, if b < 0 then -b else b;
    DigitsOfDecimal(m);
    DigitsOfDecimal(n);
    assert Decimal(m)[0] in Decimal(m) && Decimal(n)[0] in Decimal(n);
    assert ToString(a)[0] == '-' <==> a < 0;
    assert ToString(b)[0] == '-' <==> b < 0;
    if a < 0 {
      assert ToString(a)[1..] == Decimal(m) && ToString(b)[1..] == Decimal(n);
    }
  }

  lemma LengthHeadInjective(a: int, b: int)
    ensures LengthHead(a) + LINE_END == LengthHead(b) + LINE_END <==> a == b
  {
    var k := |"Content-Length" + SEP|;
    assert LengthHead(a)[k..] == ToString(a) && LengthHead(b)[k..] == ToString(b);
    if LengthHead(a) + LINE_END == LengthHead(b) + LINE_END {
      var s, t := LengthHead(a) + LINE_END, LengthHead(b) + LINE_END;
      assert s[..|s| - 2] == LengthHead(a) && t[..|t| - 2] == LengthHead(b);
      ToStringInjective(a, b);
    }
  }

  /** What the routing hands over to `Finish`. */
  predicate Ready(req: HttpRequest, resp: HttpResponse) {
    && resp.statusCode in {OK, BAD_REQUEST, NOT_FOUND, SERVER_ERROR}
    && resp.respHead == [] && resp.blank == LINE_END
    && (resp.statusCode == OK && !req.cgi ==> resp.fd.Opened? && req.size == ToInt(StatSize(resp.fd.node)))
  }

  lemma BuildEndsReady(req: HttpRequest, files: Files, outcome: CgiOutcome) returns (r: HttpRequest, resp: HttpResponse)
    ensures Ready(r, resp) && Build(req, files, outcome) == Finish(r, resp, files)
  {
    if req.method_ != "POST" && req.method_ != "GET" {
      return req, NEW_RESPONSE.(statusCode := BAD_REQUEST);
    }
    r, resp := Locate(req), NEW_RESPONSE.(statusCode := NOT_FOUND);
    if Stat(files, r.path).Some? {
      r := Examine(r, files);
      if r.cgi {
        resp := NEW_RESPONSE.(statusCode := CgiCode(outcome), body := CgiOutput(outcome));
      } else {
        var fd := OpenFile(files, r.path);
        resp := NEW_RESPONSE.(statusCode := if fd.Opened? then OK else NOT_FOUND, fd := fd);
      }
    }
  }

  lemma FinishLengths(req: HttpRequest, resp: HttpResponse, files: Files) returns (n: int)
    requires Ready(req, resp)
    ensures var (q, r) := Finish(req, resp, files);
      && r.statusCode == resp.statusCode
      && (q.cgi ==> r.statusCode == OK)
      && (r.respHead == [] <==> r.statusCode != OK && r.fd.NoFile?)
      && (r.respHead != [] ==>
            && |r.respHead| == 2 && r.respHead[1] == LengthHead(n) + LINE_END
            && n == (if q.cgi || r.statusCode != OK then Offered(q, r) else ToInt(Offered(q, r))))
      && (!q.cgi && r.fd.Opened? ==> q.size == ToInt(StatSize(r.fd.node)))
  {
    var (q, r) := Finish(req, resp, files);
    n := if q.cgi || r.statusCode != OK then Offered(q, r) else ToInt(Offered(q, r));
  }

  /** On every path: the status is one of four; output of a CGI program is sent
      with status 200 only; head lines are missing only when an error page is;
      and the announced length is the size of what is offered, except for a
      static file too long for an `int`. */
  lemma LengthAgreement(req: HttpRequest, files: Files, outcome: CgiOutcome)
    ensures var (q, r) := Build(req, files, outcome);
      && r.statusCode in {OK, BAD_REQUEST, NOT_FOUND, SERVER_ERROR}
      && (q.cgi ==> r.statusCode == OK)
      && (r.respHead == [] <==> r.statusCode != OK && r.fd.NoFile?)
      && (r.respHead != [] ==>
            && |r.respHead| == 2
            && (r.respHead[1] == LengthHead(Offered(q, r)) + LINE_END
                <==> q.cgi || r.statusCode != OK || Offered(q, r) <= INT_MAX))
  {
    var req', resp' := BuildEndsReady(req, files, outcome);
    var n := FinishLengths(req', resp', files);
    var (q, r) := Finish(req', resp', files);
    LengthHeadInjective(n, Offered(q, r));
  }

  predicate SendsFile(req: HttpRequest, resp: HttpResponse) { !req.cgi && resp.fd.Opened? }

  /** As many bytes arrive as announced, and if the source is a file, its content. */
  predicate Arrives(resp: HttpResponse, sent: string) {
    && |resp.respHead| == 2 && resp.respHead[1] == LengthHead(|sent|) + LINE_END
    && (resp.fd.Opened? && resp.fd.node.File? ==> sent == resp.fd.node.content)
  }

  /** What arrives when `sendfile` takes all it can; a directory gives nothing, so
      it must be announced as empty. */
  predicate Sendable(resp: HttpResponse)
    requires resp.fd.Opened?
  {
    match resp.fd.node
    case File(_, _, content) => |content| <= SENDFILE_MAX
    case Dir(_, _, size) => (if resp.statusCode == OK then ToInt(size) else size) == 0
  }

  /** A static body arrives whole, and as long as announced, exactly when a file's
      content is all taken, or a directory is announced as empty. */
  lemma StaticBodySentIff(req: HttpRequest, files: Files, outcome: CgiOutcome, result: int)
    ensures var (q, r) := Build(req, files, outcome);
      SendsFile(q, r) && result <= FileMost(r.fd, q.size) ==>
        (Arrives(r, FileBytes(r.fd, q.size, result)) <==>
           if r.fd.node.File? then r.fd.node.content == "" || result == |r.fd.node.content| else Sendable(r))
  {
    var req', resp' := BuildEndsReady(req, files, outcome);
    StaticSentOfFinish(req', resp', files, result);
  }

  lemma StaticSentOfFinish(req: HttpRequest, resp: HttpResponse, files: Files, result: int)
    requires Ready(req, resp)
    ensures var (q, r) := Finish(req, resp, files);
      SendsFile(q, r) && result <= FileMost(r.fd, q.size) ==>
        (Arrives(r, FileBytes(r.fd, q.size, result)) <==>
           if r.fd.node.File? then r.fd.node.content == "" || result == |r.fd.node.content| else Sendable(r))
  {
    var n := FinishLengths(req, resp, files);
    var (q, r) := Finish(req, resp, files);
    if SendsFile(q, r) && result <= FileMost(r.fd, q.size) {
      var sent := FileBytes(r.fd, q.size, result);
      LengthHeadInjective(n, |sent|);
      if r.fd.node.File? { WholeIff(r.fd, q.size, result); }
    }
  }

  lemma WholeIff(fd: Fd, size: int, result: int)
    requires fd.Opened? && fd.node.File? && size == ToInt(|fd.node.content|) && result <= FileMost(fd, size)
    ensures FileBytes(fd, size, result) == fd.node.content <==> fd.node.content == "" || result == |fd.node.content|
    ensures FileBytes(fd, size, result) == fd.node.content ==> |fd.node.content| <= SENDFILE_MAX
  {}

  /** Before the call: a static body can arrive exactly when it is sendable. */
  lemma StaticBodyCanArriveIff(req: HttpRequest, files: Files, outcome: CgiOutcome)
    ensures var (q, r) := Build(req, files, outcome);
      SendsFile(q, r) ==>
        ((exists result :: result <= FileMost(r.fd, q.size) && Arrives(r, FileBytes(r.fd, q.size, result)))
         <==> Sendable(r))
  {
    var (q, r) := Build(req, files, outcome);
    if SendsFile(q, r) {
      forall result | result <= FileMost(r.fd, q.size)
        ensures Arrives(r, FileBytes(r.fd, q.size, result)) <==>
          if r.fd.node.File? then r.fd.node.content == "" || result == |r.fd.node.content| else Sendable(r)
      {
        StaticBodySentIff(req, files, outcome, result);
      }
      SizeIsLength(req, files, outcome);
      var most := FileMost(r.fd, q.size);
      if Sendable(r) { assert Arrives(r, FileBytes(r.fd, q.size, most)); }
    }
  }

  lemma SizeIsLength(req: HttpRequest, files: Files, outcome: CgiOutcome)
    ensures var (q, r) := Build(req, files, outcome);
      SendsFile(q, r) ==> q.size == ToInt(StatSize(r.fd.node))
  {
    var req', resp' := BuildEndsReady(req, files, outcome);
    var n := FinishLengths(req', resp', files);
  }

  lemma OnlyFile(path: string, node: Node)
    requires '\0' !in path && node.readable
    ensures Stat(map[path := node], path) == Some(node) && OpenFile(map[path := node], path) == Opened(node)
  {
    CStringWhole(path);
  }

  /** The answer to a PUT when this is all there is in place of the error page. */
  function ErrorAnswer(page: Node): (HttpRequest, HttpResponse) {
    Build(NEW_REQUEST.(method_ := "PUT"), map[WEB_ROOT + "/" + PAGE_404 := page], PipeFailed)
  }

  /** An instance: a directory in the place of the error page is announced with
      its size, and nothing is sent. */
  lemma DirectoryAnnounced()
    ensures var (q, r) := ErrorAnswer(Dir(true, true, 4096));
      && SendsFile(q, r) && FileMost(r.fd, q.size) == 0
      && |r.respHead| == 2 && r.respHead[1] == LengthHead(4096) + LINE_END
  {
    var page, files := WEB_ROOT + "/" + PAGE_404, map[WEB_ROOT + "/" + PAGE_404 := Dir(true, true, 4096)];
    assert OpenFile(files, page) == Opened(Dir(true, true, 4096)) by { OnlyFile(page, Dir(true, true, 4096)); }
    var req := NEW_REQUEST.(method_ := "PUT");
    assert Build(req, files, PipeFailed) == Finish(req, NEW_RESPONSE.(statusCode := BAD_REQUEST), files);
  }

  /** A request for "/f" when that file has this content. */
  function FileAnswer(content: string): (HttpRequest, HttpResponse) {
    Build(NEW_REQUEST.(method_ := "GET", uri := "/f"), map[WEB_ROOT + "/f" := File(false, true, content)], PipeFailed)
  }

  lemma FileFound(content: string)
    ensures var (q, r) := FileAnswer(content);
      && !q.cgi && r.statusCode == OK && r.fd == Opened(File(false, true, content))
      && q.size == ToInt(|content|) && |r.respHead| == 2 && r.respHead[1] == LengthHead(ToInt(|content|)) + LINE_END
  {
    var path, node, req := WEB_ROOT + "/f", File(false, true, content), NEW_REQUEST.(method_ := "GET", uri := "/f");
    var files := map[path := node];
    assert Stat(files, path) == Some(node) && OpenFile(files, path) == Opened(node) by { OnlyFile(path, node); }
    assert Locate(req) == req.(path := path) by { CutNothing("/f", '?'); }
    var q := Examine(Locate(req), files);
    assert !q.cgi && q.path == path && q.size == ToInt(|content|);
    assert Build(req, files, PipeFailed) == Finish(q, NEW_RESPONSE.(fd := Opened(node)), files);
  }

  /** An instance: 2^31 bytes are announced as -2^31. */
  lemma FileBeyondInt()
    ensures var content := seq(0x8000_0000, _ => 'a');
      |FileAnswer(content).1.respHead| == 2 && FileAnswer(content).1.respHead[1] == LengthHead(-0x8000_0000) + LINE_END
  {
    FileFound(seq(0x8000_0000, _ => 'a'));
  }

  /** An instance: one byte more than `sendfile` takes is announced right and
      arrives without its last byte. */
  lemma FileBeyondSendfile()
    ensures var content := seq(SENDFILE_MAX + 1, _ => 'a');
      var (q, r) := FileAnswer(content);
      && |r.respHead| == 2 && r.respHead[1] == LengthHead(|content|) + LINE_END
      && FileMost(r.fd, q.size) == SENDFILE_MAX && FileBytes(r.fd, q.size, SENDFILE_MAX) == content[..SENDFILE_MAX]
  {
    CutFile(seq(SENDFILE_MAX + 1, _ => 'a'));
  }

  lemma CutFile(content: string)
    requires |content| == SENDFILE_MAX + 1
    ensures var (q, r) := FileAnswer(content);
      && |r.respHead| == 2 && r.respHead[1] == LengthHead(|content|) + LINE_END
      && FileMost(r.fd, q.size) == SENDFILE_MAX && FileBytes(r.fd, q.size, SENDFILE_MAX) == content[..SENDFILE_MAX]
  {
    FileFound(content);
  }

  /** The resource that a GET or POST finally names: a directory's default page
      if it is a directory. */
  function Resource(req: HttpRequest, files: Files): string {
    var path := Locate(req).path;
    if Stat(files, path).Some? && Stat(files, path).value.Dir? then path + "/" + DEFAULT_PAGE else path
  }

  predicate Supported(req: HttpRequest) { req.method_ == "GET" || req.method_ == "POST" }

  /** When a program is run instead of a file being sent. */
  predicate RunsProgram(req: HttpRequest, files: Files) {
    var path := Locate(req).path;
    && Supported(req) && Stat(files, path).Some?
    && (req.method_ == "POST" || '?' in req.uri || req.cgi
        || (match Stat(files, Resource(req, files)) case Some(node) => node case None => Stat(files, path).value).executable)
  }

  /** What `Finish` is given for a GET or POST that names something. */
  lemma ExamineMeaning(req: HttpRequest, files: Files)
    requires Supported(req) && Stat(files, Locate(req).path).Some?
    ensures var r := Examine(Locate(req), files);
      r.cgi == RunsProgram(req, files) && r.path == Resource(req, files)
  {
    QuestionMarkCuts(req.uri);
  }

  /** Each status says what happened, and nothing else leads to it. */
  lemma StatusMeaning(req: HttpRequest, files: Files, outcome: CgiOutcome)
    ensures var (q, r) := Build(req, files, outcome);
      var runs, found := RunsProgram(req, files), Stat(files, Locate(req).path).Some?;
      && (r.statusCode == BAD_REQUEST <==>
            !Supported(req) || (runs && outcome.Ran? && outcome.ended.Exited? && outcome.ended.status != 0))
      && (r.statusCode == SERVER_ERROR <==>
            runs && (outcome.PipeFailed? || (outcome.Ran? && outcome.ended.Killed?)))
      && (r.statusCode == NOT_FOUND <==>
            Supported(req) && (!found || (runs && outcome.ForkFailed?)
                               || (!runs && OpenFile(files, Resource(req, files)).NoFile?)))
      && (r.statusCode == OK ==>
            && q.cgi == runs
            && (runs ==> (outcome.WaitFailed? || (outcome.Ran? && outcome.ended == Exited(0))) && r.body == outcome.output)
            && (!runs ==> r.fd == OpenFile(files, Resource(req, files))))
  {
    if Supported(req) && Stat(files, Locate(req).path).Some? {
      ExamineMeaning(req, files);
    }
  }

  lemma QuestionMarkCuts(uri: string)
    ensures Cut(uri, "?").Some? <==> '?' in uri
  {
    if '?' in uri {
      var k :| 0 <= k < |uri| && uri[k] == '?';
      CharOccursAt(uri, '?', k);
    } else {
      CutNothing(uri, '?');
    }
  }

  // ---------- Reading a response back ----------

  datatype Reply = Reply(status: string, heads: map<string, string>, body: string, failed: bool)

  /** A client made of the server's own parts. */
  function ReadReply(wire: string): Reply {
    var h := ReadHeads(AfterLine(wire));
    var heads := HeadMap(h.heads);
    var n := if "Content-Length" in heads then Atoi(heads["Content-Length"]) else 0;
    var (body, _, stop) := ReadBody(h.rest, n);
    Reply(Chomp(FirstLine(wire)), heads, body, stop || !h.complete)
  }

  lemma CutHead(key: string, value: string)
    requires ':' !in key
    ensures Cut(key + SEP + value, SEP) == Some((key, value))
  {
    var s := key + SEP + value;
    forall k: nat | k < |key| ensures !OccursAt(s, SEP, k) {
      assert s[k] == key[k] && key[k] in key;
      assert k + 2 <= |s| && s[k..k + 2][0] == s[k];
    }
    CutOfJoin(key, SEP, value);
  }

  lemma TwoHeads(t: string, l: string)
    ensures HeadMap([TypeHead(t), "Content-Length" + SEP + l]) == map["Content-Type" := t, "Content-Length" := l]
  {
    CutHead("Content-Type", t);
    CutHead("Content-Length", l);
    var hs := [TypeHead(t), "Content-Length" + SEP + l];
    assert hs[..1] == [TypeHead(t)];
    assert HeadMap([TypeHead(t)]) == Insert(HeadMap([]), TypeHead(t));
  }

  lemma PlainDecimal(n: nat)
    ensures Plain(Decimal(n))
  {
    DigitsOfDecimal(n);
  }

  lemma PlainHeads(t: string, n: int, code: nat)
    requires Plain(t)
    ensures Plain(TypeHead(t)) && Plain(LengthHead(n)) && Plain(StatusLine(code))
  {
    PlainDecimal(if n < 0 then -n else n);
    PlainDecimal(code);
  }

  /** Three lines and what follows them, as the server sends them. */
  function Wire(status: string, h1: string, h2: string, rest: string): string {
    status + LINE_END + Concat([h1 + LINE_END, h2 + LINE_END]) + LINE_END + rest
  }

  lemma WireIsFramed(status: string, h1: string, h2: string, rest: string)
    ensures Wire(status, h1, h2, rest) == Encode(Frame(status, CrLf, [(h1, CrLf), (h2, CrLf)], CrLf, rest))
  {
    var parts, heads := [h1 + LINE_END, h2 + LINE_END], [(h1, CrLf), (h2, CrLf)];
    assert parts[1..] == [parts[1]] && parts[1..][1..] == [];
    assert Concat(parts[1..]) == parts[1] + Concat([]);
    assert Concat(parts) == parts[0] + parts[1];
    assert heads[1..] == [heads[1]] && heads[1..][1..] == [];
    assert EncodeHeads(heads[1..][1..], CrLf, rest) == LINE_END + rest;
    assert EncodeHeads(heads[1..], CrLf, rest) == h2 + LINE_END + (LINE_END + rest);
    assert EncodeHeads(heads, CrLf, rest) == h1 + LINE_END + (h2 + LINE_END + (LINE_END + rest));
  }

  lemma WireReadBack(status: string, h1: string, h2: string, rest: string)
    requires Plain(status) && Plain(h1) && Plain(h2) && h1 != "" && h2 != ""
    ensures Chomp(FirstLine(Wire(status, h1, h2, rest))) == status
    ensures ReadHeads(AfterLine(Wire(status, h1, h2, rest))) == HeadBlock([h1, h2], rest, true)
  {
    WireIsFramed(status, h1, h2, rest);
    var f := Frame(status, CrLf, [(h1, CrLf), (h2, CrLf)], CrLf, rest);
    assert f.heads[1..] == [(h2, CrLf)] && f.heads[1..][1..] == [];
    assert HeadsFramed(f.heads[1..], CrLf, rest);
    assert HeadsFramed(f.heads, CrLf, rest);
    FrameParts(f);
    assert Texts(f.heads) == [h1, h2];
    assert Chomp(status + "\n") == status;
  }

  /** The bytes of a response, read back with the server's own line reader, head
      splitter and counted body reader, give the status line, the content type,
      the length and the body, exactly when the length fits an `int` and the bytes
      behind the head start with the body. */
  lemma ReplyRoundTrip(status: string, t: string, body: string, sent: string)
    requires Plain(status) && Plain(t)
    ensures var reply := ReadReply(Wire(status, TypeHead(t), LengthHead(|body|), sent));
      && reply.status == status
      && reply.heads == map["Content-Type" := t, "Content-Length" := Decimal(|body|)]
      && (!reply.failed && reply.body == body <==> |body| <= INT_MAX && body <= sent)
  {
    var l := Decimal(|body|);
    PlainHeads(t, |body|, OK);
    WireReadBack(status, TypeHead(t), LengthHead(|body|), sent);
    TwoHeads(t, l);
    AtoiOfDecimal(|body|);
    CountedBody(body, sent, Atoi(l));
  }

  lemma CountedBody(body: string, sent: string, n: int)
    ensures var (b, _, stop) := ReadBody(sent, n);
      !stop && b == body <==> n == |body| && body <= sent
  {}

  lemma PlainType(suffix: string)
    ensures Plain(Suffix2Desc(suffix)) && Plain("text/html")
  {}

  /** Reading `wire` back gives the heads of a body of this type and length. */
  predicate AnnouncesBody(wire: string, suffix: string, body: string) {
    ReadReply(wire).heads == map["Content-Type" := Suffix2Desc(suffix), "Content-Length" := Decimal(|body|)]
  }

  predicate BodyReadBack(wire: string, body: string) {
    !ReadReply(wire).failed && ReadReply(wire).body == body
  }

  /** What `Finish` makes of a 200, followed by any bytes. */
  lemma FinishRoundTrip(req: HttpRequest, resp: HttpResponse, files: Files, body: string, sent: string)
    requires resp.statusCode == OK && resp.blank == LINE_END
    requires |body| == if req.cgi then |resp.body| else req.size
    ensures var (q, r) := Finish(req, resp, files);
      && AnnouncesBody(HeadBytes(r) + sent, q.suffix, body)
      && (BodyReadBack(HeadBytes(r) + sent, body) <==> |body| <= INT_MAX && body <= sent)
  {
    OkWire(req, resp, files, |body|, sent);
    ReplyAfterType(req.suffix, body, sent);
  }

  lemma CgiRoundTripOfFinish(req: HttpRequest, resp: HttpResponse, files: Files, results: seq<int>)
    requires Ready(req, resp)
    ensures var (q, r) := Finish(req, resp, files);
      q.cgi ==>
        var sent := BodyBytes(r.body, 0, results);
        && AnnouncesBody(HeadBytes(r) + sent, q.suffix, r.body)
        && (BodyReadBack(HeadBytes(r) + sent, r.body) <==> |r.body| <= INT_MAX && r.body <= sent)
  {
    var (q, r) := Finish(req, resp, files);
    if q.cgi {
      FinishRoundTrip(req, resp, files, r.body, BodyBytes(r.body, 0, results));
    }
  }

  /** The round trip for what `Build` and the send loop really emit, whatever
      the calls return. */
  lemma CgiRoundTrip(req: HttpRequest, files: Files, outcome: CgiOutcome, results: seq<int>)
    ensures var (q, r) := Build(req, files, outcome);
      q.cgi ==>
        var sent := BodyBytes(r.body, 0, results);
        && AnnouncesBody(HeadBytes(r) + sent, q.suffix, r.body)
        && (BodyReadBack(HeadBytes(r) + sent, r.body) <==> |r.body| <= INT_MAX && r.body <= sent)
  {
    var req', resp' := BuildEndsReady(req, files, outcome);
    CgiRoundTripOfFinish(req', resp', files, results);
  }

  /** One `send` that takes everything is enough, whatever follows. */
  lemma CgiRoundTripAtOnce(req: HttpRequest, files: Files, outcome: CgiOutcome, results: seq<int>)
    ensures var (q, r) := Build(req, files, outcome);
      q.cgi && Possible(r.body, 0, results) && (r.body != "" ==> results[0] == |r.body|) ==>
        (BodyReadBack(HeadBytes(r) + BodyBytes(r.body, 0, results), r.body) <==> |r.body| <= INT_MAX)
  {
    CgiRoundTrip(req, files, outcome, results);
    var (q, r) := Build(req, files, outcome);
    if q.cgi && Possible(r.body, 0, results) && (r.body != "" ==> results[0] == |r.body|) {
      FirstSendTakesAll(r.body, results);
    }
  }

  /** Before the calls: the response reads back however its body is split
      exactly when the body fits an `int` and repeats one byte behind its first. */
  lemma CgiRoundTripIff(req: HttpRequest, files: Files, outcome: CgiOutcome)
    ensures var (q, r) := Build(req, files, outcome);
      q.cgi ==>
        ((forall results :: AllSucceed(r.body, 0, results) ==>
            BodyReadBack(HeadBytes(r) + BodyBytes(r.body, 0, results), r.body))
         <==> |r.body| <= INT_MAX && SameTail(r.body))
  {
    var (q, r) := Build(req, files, outcome);
    if q.cgi {
      forall results ensures BodyReadBack(HeadBytes(r) + BodyBytes(r.body, 0, results), r.body)
          <==> |r.body| <= INT_MAX && r.body <= BodyBytes(r.body, 0, results) {
        CgiRoundTrip(req, files, outcome, results);
      }
      CountingClientIff(r.body);
      OneByteEach(r.body);
    }
  }

  lemma OneByteEach(body: string)
    ensures AllSucceed(body, 0, seq(|body|, i => 1))
  {}

  lemma OkWire(req: HttpRequest, resp: HttpResponse, files: Files, n: int, sent: string)
    requires resp.statusCode == OK && resp.blank == LINE_END
    requires n == if req.cgi then |resp.body| else req.size
    ensures var (q, r) := Finish(req, resp, files);
      HeadBytes(r) + sent == Wire(StatusLine(OK), TypeHead(Suffix2Desc(q.suffix)), LengthHead(n), sent)
  {}

  lemma ReplyAfterType(suffix: string, body: string, sent: string)
    ensures var wire := Wire(StatusLine(OK), TypeHead(Suffix2Desc(suffix)), LengthHead(|body|), sent);
      && AnnouncesBody(wire, suffix, body)
      && (BodyReadBack(wire, body) <==> |body| <= INT_MAX && body <= sent)
  {
    PlainType(suffix);
    PlainHeads(Suffix2Desc(suffix), |body|, OK);
    ReplyRoundTrip(StatusLine(OK), Suffix2Desc(suffix), body, sent);
  }

  // ---------- The status line on the wire ----------

  /** The lines that a client sees. */
  function StatusText(code: int): string {
    if code == 200 then "HTTP/1.0 200 OK"
    else if code == 404 then "HTTP/1.0 404 Not Found"
    else if code == 400 then "HTTP/1.0 400 "
    else if code == 500 then "HTTP/1.0 500 "
    else ""
  }

  predicate KnownCode(code: int) { code == 200 || code == 400 || code == 404 || code == 500 }

  lemma Line200()
    ensures StatusLine(200) == "HTTP/1.0 200 OK"
  {
    assert Decimal(200) == "200";
    assert "HTTP/1.0" + " " + "200" + " " + "OK" == "HTTP/1.0 200 OK";
  }

  lemma Line404()
    ensures StatusLine(404) == "HTTP/1.0 404 Not Found"
  {
    assert Decimal(404) == "404";
    assert "HTTP/1.0" + " " + "404" + " " + "Not Found" == "HTTP/1.0 404 Not Found";
  }

  lemma Line400()
    ensures StatusLine(400) == "HTTP/1.0 400 "
  {
    assert Decimal(400) == "400";
    assert "HTTP/1.0" + " " + "400" + " " + "" == "HTTP/1.0 400 ";
  }

  lemma Line500()
    ensures StatusLine(500) == "HTTP/1.0 500 "
  {
    assert Decimal(500) == "500";
    assert "HTTP/1.0" + " " + "500" + " " + "" == "HTTP/1.0 500 ";
  }

  lemma StatusLineIsText(code: int)
    requires KnownCode(code)
    ensures StatusLine(code) == StatusText(code) && Plain(StatusText(code))
  {
    if code == 200 { Line200(); }
    else if code == 404 { Line404(); }
    else if code == 400 { Line400(); }
    else { Line500(); }
    PlainHeads("", 0, code);
  }

  lemma GroupLine(a: string, b: string, c: string, d: string, e: string)
    ensures a + b + c + d + e == a + (b + c + (d + e))
  {}

  lemma WordsOfLine(number: string, phrase: string)
    requires number != "" && NoSpace(number)
    ensures Extract("HTTP/1.0" + (" " + number + (" " + phrase))) == ("HTTP/1.0", " " + number + (" " + phrase))
    ensures Extract(" " + number + (" " + phrase)) == (number, " " + phrase)
  {
    assert NoSpace("HTTP/1.0");
    ExtractJoin("HTTP/1.0", " " + number + (" " + phrase));
    ExtractAfterBlank(number, " " + phrase);
  }

  /** Its first word is the version, its second the code. */
  lemma StatusWords(code: int)
    requires KnownCode(code)
    ensures var (version, rest) := Extract(StatusText(code));
      version == "HTTP/1.0" && Atoi(Extract(rest).0) == code
  {
    var number, phrase := Decimal(code), Code2Desc(code);
    assert StatusText(code) == "HTTP/1.0" + (" " + number + (" " + phrase)) by {
      StatusLineIsText(code);
      GroupLine("HTTP/1.0", " ", number, " ", phrase);
    }
    assert Atoi(number) == code by { AtoiOfDecimal(code); }
    assert number != "" && NoSpace(number) by { DecimalIsWord(code); }
    WordsOfLine(number, phrase);
  }

  /** The two lines differ for different codes, so a client can tell. */
  lemma StatusTextsDiffer(a: int, b: int)
    requires KnownCode(a) && KnownCode(b) && StatusText(a) == StatusText(b)
    ensures a == b
  {
    StatusWords(a);
    StatusWords(b);
  }

  lemma FirstPartWhole(parts: seq<string>, results: seq<int>)
    requires PossibleParts(parts, results) && parts != [] && results[0] == |parts[0]|
    ensures parts[0] <= PartsSent(parts, results)
  {
    assert Accepted(parts[0], results[0]) == parts[0];
  }

  lemma LineBehind(line: string, sent: string)
    requires Plain(line) && line + LINE_END <= sent
    ensures Chomp(FirstLine(sent)) == line
  {
    var rest := sent[|line| + 2..];
    assert sent == line + EolBytes(CrLf) + rest;
    ReadBackLine(line, CrLf, rest);
    assert Chomp(line + "\n") == line;
  }

  lemma BuildLine(req: HttpRequest, files: Files, outcome: CgiOutcome)
    ensures var (q, r) := Build(req, files, outcome);
      KnownCode(r.statusCode) && r.statusLine == StatusText(r.statusCode) + LINE_END && r.blank == LINE_END
  {
    var req', resp' := BuildEndsReady(req, files, outcome);
    StatusLineIsText(resp'.statusCode);
  }

  /** Once the first `send` has taken the status line, a client reads the line of
      the status, whatever else is sent. */
  lemma StatusOnTheWire(req: HttpRequest, files: Files, outcome: CgiOutcome, ret: Returns)
    ensures var (q, r) := Build(req, files, outcome);
      PossibleParts(Parts(r), ret.heads) && ret.heads[0] == |r.statusLine| ==>
        Chomp(FirstLine(Sent(q, r, ret))) == StatusText(r.statusCode)
  {
    var (q, r) := Build(req, files, outcome);
    if PossibleParts(Parts(r), ret.heads) && ret.heads[0] == |r.statusLine| {
      BuildLine(req, files, outcome);
      StatusLineIsText(r.statusCode);
      FirstPartWhole(Parts(r), ret.heads);
      LineBehind(StatusText(r.statusCode), Sent(q, r, ret));
    }
  }

  /** What each line that a client can read says about the request. */
  lemma StatusRead(req: HttpRequest, files: Files, outcome: CgiOutcome, ret: Returns)
    ensures var (q, r) := Build(req, files, outcome);
      PossibleParts(Parts(r), ret.heads) && ret.heads[0] == |r.statusLine| ==>
        var line := Chomp(FirstLine(Sent(q, r, ret)));
        var runs, found := RunsProgram(req, files), Stat(files, Locate(req).path).Some?;
        && (line == "HTTP/1.0 400 " <==>
              !Supported(req) || (runs && outcome.Ran? && outcome.ended.Exited? && outcome.ended.status != 0))
        && (line == "HTTP/1.0 500 " <==>
              runs && (outcome.PipeFailed? || (outcome.Ran? && outcome.ended.Killed?)))
        && (line == "HTTP/1.0 404 Not Found" <==>
              Supported(req) && (!found || (runs && outcome.ForkFailed?)
                                 || (!runs && OpenFile(files, Resource(req, files)).NoFile?)))
        && (line == "HTTP/1.0 200 OK" <==>
              Supported(req) && found
              && if runs then outcome.WaitFailed? || (outcome.Ran? && outcome.ended == Exited(0))
                 else OpenFile(files, Resource(req, files)).Opened?)
  {
    var (q, r) := Build(req, files, outcome);
    if PossibleParts(Parts(r), ret.heads) && ret.heads[0] == |r.statusLine| {
      StatusOnTheWire(req, files, outcome, ret);
      StatusMeaning(req, files, outcome);
      BuildLine(req, files, outcome);
      TextsDiffer();
    }
  }

  lemma TextsDiffer()
    ensures forall a, b :: KnownCode(a) && KnownCode(b) && StatusText(a) == StatusText(b) ==> a == b
  {
    forall a, b | KnownCode(a) && KnownCode(b) && StatusText(a) == StatusText(b) ensures a == b {
      StatusTextsDiffer(a, b);
    }
  }

  // ---------- Static bodies and error pages on the wire ----------

  /** A whole answer, byte for byte. */
  function WholeAnswer(line: string, t: string, body: string): string {
    line + "\r\n"
    + ("Content-Type: " + t + "\r\n" + ("Content-Length: " + Decimal(|body|) + "\r\n"))
    + "\r\n" + body
  }

  lemma HeadsSpelledOut(t: string, n: nat)
    ensures TypeHead(t) == "Content-Type: " + t && LengthHead(n) == "Content-Length: " + Decimal(n)
  {
    assert "Content-Type" + ": " == "Content-Type: " && "Content-Length" + ": " == "Content-Length: ";
  }

  lemma ConcatTwo(a: string, b: string)
    ensures Concat([a, b]) == a + b
  {
    assert [a, b][1..] == [b] && [b][1..] == [];
    assert Concat([b]) == b + Concat([]);
  }

  lemma WholeAnswerIsWire(line: string, t: string, body: string)
    ensures WholeAnswer(line, t, body) == Wire(line, TypeHead(t), LengthHead(|body|), body)
  {
    HeadsSpelledOut(t, |body|);
    ConcatTwo(TypeHead(t) + LINE_END, LengthHead(|body|) + LINE_END);
  }

  /** A client gets everything back from a whole answer that fits. */
  lemma WholeAnswerRead(line: string, t: string, body: string)
    requires Plain(line) && Plain(t) && |body| <= INT_MAX
    ensures ReadReply(WholeAnswer(line, t, body))
      == Reply(line, map["Content-Type" := t, "Content-Length" := Decimal(|body|)], body, false)
  {
    WholeAnswerIsWire(line, t, body);
    ReplyRoundTrip(line, t, body, body);
  }

  /** The type announced: that of the file, or of the error page. */
  function TypeSent(q: HttpRequest, r: HttpResponse): string {
    if r.statusCode == OK then Suffix2Desc(q.suffix) else "text/html"
  }

  lemma FinishWire(req: HttpRequest, resp: HttpResponse, files: Files, sent: string) returns (n: int)
    requires Ready(req, resp)
    ensures var (q, r) := Finish(req, resp, files);
      SendsFile(q, r) ==>
        && HeadBytes(r) + sent == Wire(StatusText(r.statusCode), TypeHead(TypeSent(q, r)), LengthHead(n), sent)
        && n == if r.statusCode == OK then ToInt(StatSize(r.fd.node)) else StatSize(r.fd.node)
  {
    n := FinishLengths(req, resp, files);
    var (q, r) := Finish(req, resp, files);
    StatusLineIsText(resp.statusCode);
  }

  /** What goes out when the head's sends take all: the head, and of a file as
      much as `sendfile` took. */
  lemma FileSent(q: HttpRequest, r: HttpResponse, ret: Returns)
    requires SendsFile(q, r) && CanReturn(q, r, ret) && EachWhole(Parts(r), ret.heads)
    ensures r.fd.node.File? ==>
      Sent(q, r, ret) == HeadBytes(r) + r.fd.node.content[..if ret.file < 0 then 0 else ret.file]
    ensures r.fd.node.Dir? ==> Sent(q, r, ret) == HeadBytes(r)
  {
    HeadSentIff(r, ret.heads);
  }

  lemma AnswerWire(req: HttpRequest, resp: HttpResponse, files: Files, ret: Returns)
    requires Ready(req, resp)
    ensures var (q, r) := Finish(req, resp, files);
      SendsFile(q, r) && r.fd.node.File? && CanReturn(q, r, ret) && EachWhole(Parts(r), ret.heads) ==>
        var content := r.fd.node.content;
        Sent(q, r, ret) == WholeAnswer(StatusText(r.statusCode), TypeSent(q, r), content)
        <==> content == "" || ret.file == |content|
  {
    var (q, r) := Finish(req, resp, files);
    if SendsFile(q, r) && r.fd.node.File? && CanReturn(q, r, ret) && EachWhole(Parts(r), ret.heads) {
      var content := r.fd.node.content;
      var sent := content[..if ret.file < 0 then 0 else ret.file];
      FileSent(q, r, ret);
      var n := FinishWire(req, resp, files, sent);
      StatusLineIsText(r.statusCode);
      PlainType(q.suffix);
      SizeMatches(req, resp, files);
      BodiesOnTheWire(StatusText(r.statusCode), TypeSent(q, r), n, sent, content);
    }
  }

  lemma SizeMatches(req: HttpRequest, resp: HttpResponse, files: Files)
    requires Ready(req, resp)
    ensures var (q, r) := Finish(req, resp, files); SendsFile(q, r) ==> q.size == ToInt(StatSize(r.fd.node))
  {
    var n := FinishLengths(req, resp, files);
  }

  lemma BodiesOnTheWire(line: string, t: string, n: int, sent: string, content: string)
    requires sent <= content && (sent == content ==> n == |content|) && Plain(line) && Plain(t)
    ensures Wire(line, TypeHead(t), LengthHead(n), sent) == WholeAnswer(line, t, content) <==> sent == content
  {
    WholeAnswerIsWire(line, t, content);
    if sent != content { DifferentBodies(line, t, n, sent, content); }
  }

  /** A client can tell a cut body from the whole one. */
  lemma DifferentBodies(line: string, t: string, n: int, sent: string, content: string)
    requires |sent| < |content| && Plain(line) && Plain(t)
    ensures Wire(line, TypeHead(t), LengthHead(n), sent) != Wire(line, TypeHead(t), LengthHead(|content|), content)
  {
    PlainHeads(t, n, OK);
    PlainHeads(t, |content|, OK);
    WireReadBack(line, TypeHead(t), LengthHead(n), sent);
    WireReadBack(line, TypeHead(t), LengthHead(|content|), content);
  }

  /** Byte for byte, for every status: when the head's sends take all, a static
      body goes out whole behind its head, a file with its type and an error page
      as HTML, exactly when `sendfile` takes all of it. */
  lemma FileOnTheWire(req: HttpRequest, files: Files, outcome: CgiOutcome, ret: Returns)
    ensures var (q, r) := Build(req, files, outcome);
      SendsFile(q, r) && r.fd.node.File? && CanReturn(q, r, ret) && EachWhole(Parts(r), ret.heads) ==>
        var content := r.fd.node.content;
        Sent(q, r, ret) == WholeAnswer(StatusText(r.statusCode), TypeSent(q, r), content)
        <==> content == "" || ret.file == |content|
  {
    var req', resp' := BuildEndsReady(req, files, outcome);
    StatusLineIsText(resp'.statusCode);
    AnswerWire(req', resp', files, ret);
  }

  /** A client reads no body but what stands behind the head. */
  lemma BodyIsSent(line: string, t: string, n: int, sent: string)
    requires Plain(line) && Plain(t)
    ensures ReadReply(Wire(line, TypeHead(t), LengthHead(n), sent)).body <= sent
  {
    PlainHeads(t, n, OK);
    WireReadBack(line, TypeHead(t), LengthHead(n), sent);
  }

  lemma CutBodyNotRead(req: HttpRequest, resp: HttpResponse, files: Files, ret: Returns)
    requires Ready(req, resp)
    ensures var (q, r) := Finish(req, resp, files);
      SendsFile(q, r) && r.fd.node.File? && CanReturn(q, r, ret) && EachWhole(Parts(r), ret.heads)
        && r.fd.node.content != "" && ret.file != |r.fd.node.content| ==>
        ReadReply(Sent(q, r, ret)).body != r.fd.node.content
  {
    var (q, r) := Finish(req, resp, files);
    if SendsFile(q, r) && r.fd.node.File? && CanReturn(q, r, ret) && EachWhole(Parts(r), ret.heads)
      && r.fd.node.content != "" && ret.file != |r.fd.node.content|
    {
      var sent := r.fd.node.content[..if ret.file < 0 then 0 else ret.file];
      FileSent(q, r, ret);
      var n := FinishWire(req, resp, files, sent);
      StatusLineIsText(r.statusCode);
      PlainType(q.suffix);
      BodyIsSent(StatusText(r.statusCode), TypeSent(q, r), n, sent);
    }
  }

  /** The round trip for what is really sent, whatever `sendfile` returns: a
      client reads status, type, length and content exactly when the call takes
      the whole content. */
  lemma FileRoundTrip(req: HttpRequest, files: Files, outcome: CgiOutcome, ret: Returns)
    ensures var (q, r) := Build(req, files, outcome);
      SendsFile(q, r) && r.fd.node.File? && CanReturn(q, r, ret) && EachWhole(Parts(r), ret.heads) ==>
        var content := r.fd.node.content;
        ReadReply(Sent(q, r, ret))
          == Reply(StatusText(r.statusCode), map["Content-Type" := TypeSent(q, r), "Content-Length" := Decimal(|content|)], content, false)
        <==> content == "" || ret.file == |content|
  {
    var (q, r) := Build(req, files, outcome);
    if SendsFile(q, r) && r.fd.node.File? && CanReturn(q, r, ret) && EachWhole(Parts(r), ret.heads) {
      var content := r.fd.node.content;
      if content == "" || ret.file == |content| {
        FileOnTheWire(req, files, outcome, ret);
        BuildLine(req, files, outcome);
        StatusLineIsText(r.statusCode);
        PlainType(q.suffix);
        WholeAnswerRead(StatusText(r.statusCode), TypeSent(q, r), content);
      } else {
        var req', resp' := BuildEndsReady(req, files, outcome);
        CutBodyNotRead(req', resp', files, ret);
      }
    }
  }

  /** Before the call, if it takes all that it can: exactly for files that one
      `sendfile` call can take. */
  lemma FileRoundTripIff(req: HttpRequest, files: Files, outcome: CgiOutcome, ret: Returns)
    ensures var (q, r) := Build(req, files, outcome);
      SendsFile(q, r) && r.fd.node.File? && CanReturn(q, r, ret) && EachWhole(Parts(r), ret.heads)
        && ret.file == FileMost(r.fd, q.size) ==>
        var content := r.fd.node.content;
        ReadReply(Sent(q, r, ret))
          == Reply(StatusText(r.statusCode), map["Content-Type" := TypeSent(q, r), "Content-Length" := Decimal(|content|)], content, false)
        <==> |content| <= SENDFILE_MAX
  {
    FileRoundTrip(req, files, outcome, ret);
    SizeIsLength(req, files, outcome);
  }

  /** Without an error page, only the status line and a blank line go out. */
  lemma ErrorWithoutPage(req: HttpRequest, files: Files, outcome: CgiOutcome, ret: Returns)
    ensures var (q, r) := Build(req, files, outcome);
      !q.cgi && r.fd.NoFile? && CanReturn(q, r, ret) && EachWhole(Parts(r), ret.heads) ==>
        Sent(q, r, ret) == StatusText(r.statusCode) + "\r\n" + "\r\n"
  {
    var (q, r) := Build(req, files, outcome);
    if !q.cgi && r.fd.NoFile? && CanReturn(q, r, ret) && EachWhole(Parts(r), ret.heads) {
      assert r.statusLine == StatusText(r.statusCode) + LINE_END && r.blank == LINE_END by {
        BuildLine(req, files, outcome);
      }
      assert r.respHead == [] by { NoPageNoHeads(req, files, outcome); }
      HeadAlone(q, r, ret);
    }
  }

  lemma NoPageNoHeads(req: HttpRequest, files: Files, outcome: CgiOutcome)
    ensures var (q, r) := Build(req, files, outcome); !q.cgi && r.fd.NoFile? ==> r.respHead == []
  {
    var req', resp' := BuildEndsReady(req, files, outcome);
    var n := FinishLengths(req', resp', files);
  }

  lemma HeadAlone(q: HttpRequest, r: HttpResponse, ret: Returns)
    requires !q.cgi && r.fd.NoFile? && r.respHead == [] && CanReturn(q, r, ret) && EachWhole(Parts(r), ret.heads)
    ensures Sent(q, r, ret) == r.statusLine + r.blank
  {
    HeadSentIff(r, ret.heads);
    assert r.statusLine + "" + r.blank + "" == r.statusLine + r.blank;
  }

  // ---------- Names and types ----------

  lemma {:induction false} FromLastDotOf(stem: string, ext: string)
    requires '.' !in ext
    ensures FromLastDot(stem + "." + ext) == "." + ext
  {
    var s := stem + "." + ext;
    if stem == "" {
      assert s[1..] == ext;
    } else {
      assert s[1..] == stem[1..] + "." + ext;
      assert s[1..][|stem| - 1] == '.';
      FromLastDotOf(stem[1..], ext);
    }
  }

  lemma {:induction false} NoDot(s: string)
    requires '.' !in s
    ensures FromLastDot(s) == ".html"
  {
    if s != "" {
      assert s[0] in s;
      NoDot(s[1..]);
    }
  }

  lemma Dotted(ext: string, name: string)
    ensures "." + ext == "." + name <==> ext == name
  {
    assert ("." + ext)[1..] == ext && ("." + name)[1..] == name;
  }

  lemma TypeOfSuffix(ext: string)
    ensures var t := Suffix2Desc("." + ext);
      && (ext == "css" <==> t == "text/css")
      && (ext == "js" <==> t == "application/x-javascript")
      && (ext == "jpg" <==> t == "image/jpeg")
      && (ext == "xml" <==> t == "application/xml")
      && (ext !in {"css", "js", "jpg", "xml"} <==> t == "text/html")
  {
    assert "." + "css" == ".css" && "." + "js" == ".js" && "." + "jpg" == ".jpg" && "." + "xml" == ".xml";
    Dotted(ext, "css");
    Dotted(ext, "js");
    Dotted(ext, "jpg");
    Dotted(ext, "xml");
    assert |"text/css"| == 8 && |"application/x-javascript"| == 24 && |"image/jpeg"| == 10;
    assert |"application/xml"| == 15 && |"text/html"| == 9;
  }

  /** The type goes by what stands behind the last dot of a name. */
  lemma TypeOfName(stem: string, ext: string)
    requires '.' !in ext
    ensures var t := Suffix2Desc(FromLastDot(stem + "." + ext));
      && (ext == "css" <==> t == "text/css")
      && (ext == "js" <==> t == "application/x-javascript")
      && (ext == "jpg" <==> t == "image/jpeg")
      && (ext == "xml" <==> t == "application/xml")
      && (ext !in {"css", "js", "jpg", "xml"} <==> t == "text/html")
    ensures '.' !in stem ==> Suffix2Desc(FromLastDot(stem)) == "text/html"
  {
    FromLastDotOf(stem, ext);
    TypeOfSuffix(ext);
    if '.' !in stem { NoDot(stem); }
  }
}
