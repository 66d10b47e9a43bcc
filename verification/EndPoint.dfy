/** The object that serves one connection: it fills its request from the
    socket, builds its response and sends it. Its methods are proved to compute
    what Requests and Responses define. */
module EndPoints {
  import opened Text
  import opened Lines
  import opened Requests
  import opened Responses

  lemma PartGone(sent: string, parts: seq<string>, heads: seq<int>, i: nat)
    requires i < |parts| == |heads|
    ensures sent + PartsSent(parts[i..], heads[i..])
      == sent + Accepted(parts[i], heads[i]) + PartsSent(parts[i + 1..], heads[i + 1..])
  {
    assert parts[i..][1..] == parts[i + 1..] && heads[i..][1..] == heads[i + 1..];
  }

  lemma PieceGone(sent: string, body: string, total: nat, results: seq<int>)
    requires Possible(body, 0, results) && total < |results|
    ensures var r := results[total];
      sent + BodyBytes(body, total, results[total..])
      == if r > 0 then sent + body[total..][..r] + BodyBytes(body, total + 1, results[total + 1..]) else sent
  {
    var rest := results[total..];
    assert rest[0] == results[total] && rest[1..] == results[total + 1..];
    if rest[0] > 0 { assert body[total..][..rest[0]] == body[total..total + rest[0]]; }
  }

  class EndPoint {
    const sock: Descriptor
    var request: HttpRequest
    var response: HttpResponse
    var stop: bool

    constructor (sock: Descriptor)
      ensures this.sock == sock && !stop
      ensures request == NEW_REQUEST && response == NEW_RESPONSE
    {
      this.sock, stop := sock, false;
      request, response := NEW_REQUEST, NEW_RESPONSE;
    }

    // ---------- Receiving ----------

    method GetRequestLine() returns (stopped: bool)
      requires request == NEW_REQUEST && !stop
      modifies this`request, this`stop, sock`stream
      ensures stopped == stop == !Complete(FirstLine(old(sock.stream)))
      ensures sock.stream == AfterLine(old(sock.stream))
      ensures request == NEW_REQUEST.(reqLine := if stop then FirstLine(old(sock.stream)) else Chomp(FirstLine(old(sock.stream))))
    {
      var n, line := ReadInLine(sock, request.reqLine);
      if n > 0 {
        line := line[..|line| - 1];
      } else {
        stop := true;
      }
      request := request.(reqLine := line);
      stopped := stop;
    }

    method GetRequestHead() returns (stopped: bool)
      requires request.reqHead == [] && request.blank == "" && !stop
      modifies this`request, this`stop, sock`stream
      ensures var h := ReadHeads(old(sock.stream));
        && stopped == stop == !h.complete
        && sock.stream == h.rest
        && request == old(request).(reqHead := h.heads, blank := if stop then "" else "\n")
    {
      ghost var h := ReadHeads(sock.stream);
      var line := "";
      while line != "\n"
        invariant !stop && line != "\n"
        invariant request == old(request).(reqHead := request.reqHead)
        invariant request.reqHead + ReadHeads(sock.stream).heads == h.heads
        invariant ReadHeads(sock.stream).rest == h.rest
        invariant ReadHeads(sock.stream).complete == h.complete
        decreases |sock.stream|
      {
        ghost var more, first := ReadHeads(sock.stream), FirstLine(sock.stream);
        ChompHasNoLf(sock.stream);
        var n: int;
        n, line := ReadInLine(sock, "");
        assert line == first;
        if n <= 0 {
          stop := true;
          break;
        }
        if line == "\n" {
          request := request.(blank := line);
          break;
        }
        line := line[..|line| - 1];
        assert request.reqHead + more.heads == (request.reqHead + [line]) + ReadHeads(sock.stream).heads;
        request := request.(reqHead := request.reqHead + [line]);
      }
      stopped := stop;
    }

    method ParseHttpRequestLine()
      modifies this`request
      ensures request == ParseLine(old(request))
    {
      var (m, s1) := Extract(request.reqLine);
      var (u, s2) := Extract(s1);
      var (v, _) := Extract(s2);
      request := request.(method_ := Upper(m), uri := u, version := v);
    }

    method ParseHttpRequestHead()
      requires request.headKv == map[]
      modifies this`request
      ensures request == old(request).(headKv := HeadMap(request.reqHead))
    {
      var heads := request.reqHead;
      var i := 0;
      while i < |heads|
        invariant i <= |heads|
        invariant request == old(request).(headKv := HeadMap(heads[..i]))
      {
        assert heads[..i + 1][..i] == heads[..i];
        match Cut(heads[i], SEP) {
          case None =>
          case Some((key, value)) =>
            if key !in request.headKv {
              request := request.(headKv := request.headKv[key := value]);
            }
        }
        i := i + 1;
      }
      assert heads[..|heads|] == heads;
    }

    method IsNeedRecvHttpRequestBody() returns (need: bool)
      modifies this`request
      ensures need == (old(request).method_ == "POST" && "Content-Length" in old(request).headKv)
      ensures request == if need then old(request).(contentLength := Atoi(old(request).headKv["Content-Length"])) else old(request)
    {
      need := false;
      if request.method_ == "POST" {
        if "Content-Length" in request.headKv {
          request := request.(contentLength := Atoi(request.headKv["Content-Length"]));
          need := true;
        }
      }
    }

    method RecvHttpRequestBody()
      requires request.body == "" && request.contentLength == 0 && !stop
      modifies this`request, this`stop, sock`stream
      ensures var need := old(request).method_ == "POST" && "Content-Length" in old(request).headKv;
        var n := if need then Atoi(old(request).headKv["Content-Length"]) else 0;
        (request, sock.stream, stop) ==
          (old(request).(contentLength := n, body := ReadBody(old(sock.stream), n).0),
           ReadBody(old(sock.stream), n).1, ReadBody(old(sock.stream), n).2)
    {
      var need := IsNeedRecvHttpRequestBody();
      if need {
        var contentLength := request.contentLength;
        ghost var n, bytes, parsed := contentLength, sock.stream, request;
        var ch := '\0';
        while contentLength != 0
          invariant !stop && request == parsed.(body := request.body)
          invariant contentLength == n - |request.body|
          invariant bytes == request.body + sock.stream
          invariant n >= 0 ==> contentLength >= 0
          decreases |sock.stream|
        {
          var s: int;
          s, ch := sock.Recv(ch);
          if s > 0 {
            request := request.(body := request.body + [ch]);
            contentLength := contentLength - 1;
          } else {
            stop := true;
            break;
          }
        }
        assert bytes[..|request.body|] == request.body && bytes[|request.body|..] == sock.stream;
        assert stop ==> bytes == request.body;
      } else {
        assert sock.stream[..0] == "" && sock.stream[0..] == sock.stream;
      }
    }

    /** The whole reception is the function `Receive` of the bytes. */
    method RecvHttpRequest()
      requires request == NEW_REQUEST && !stop
      modifies this`request, this`stop, sock`stream
      ensures Receipt(request, sock.stream, stop) == Receive(old(sock.stream))
    {
      var stopped := GetRequestLine();
      if !stopped {
        stopped := GetRequestHead();
        if !stopped {
          ParseHttpRequestLine();
          ParseHttpRequestHead();
          RecvHttpRequestBody();
        }
      }
    }

    // ---------- Building ----------

    method ProcessNonCgi(files: Files) returns (code: int)
      modifies this`response
      ensures response == old(response).(fd := OpenFile(files, request.path))
      ensures code == if response.fd.Opened? then OK else NOT_FOUND
    {
      response := response.(fd := OpenFile(files, request.path));
      code := if response.fd.Opened? then OK else NOT_FOUND;
    }

    /** The conversation with the child is the subject of CgiPipes; here only
        its outcome matters. */
    method ProcessCgi(outcome: CgiOutcome) returns (code: int)
      requires response.body == ""
      modifies this`response
      ensures response == old(response).(body := CgiOutput(outcome)) && code == CgiCode(outcome)
    {
      code := OK;
      match outcome
      case PipeFailed => code := SERVER_ERROR;
      case ForkFailed => code := NOT_FOUND;
      case WaitFailed(output) => response := response.(body := output);
      case Ran(output, ended) =>
        response := response.(body := output);
        match ended {
          case Exited(status) => code := if status == 0 then OK else BAD_REQUEST;
          case Killed => code := SERVER_ERROR;
        }
    }

    /** The path under the web root that the request names, and its query. */
    method LocateResource()
      modifies this`request
      ensures request == Locate(old(request))
    {
      if request.method_ == "GET" {
        if Find(request.uri, "?") >= 0 {
          var parts := Cut(request.uri, "?").value;
          request := request.(path := parts.0, queryString := parts.1);
          request := request.(cgi := true);
        } else {
          request := request.(path := request.uri);
        }
      } else {
        request := request.(cgi := true, path := request.uri);
      }
      request := request.(path := WEB_ROOT + request.path);
      if request.path[|request.path| - 1] == '/' {
        request := request.(path := request.path + DEFAULT_PAGE);
      }
    }

    method ExamineResource(files: Files)
      requires Stat(files, request.path).Some?
      modifies this`request
      ensures request == Examine(old(request), files)
    {
      var st := Stat(files, request.path).value;
      if st.Dir? {
        request := request.(path := request.path + "/" + DEFAULT_PAGE);
        if Stat(files, request.path).Some? { st := Stat(files, request.path).value; }
      }
      if st.executable {
        request := request.(cgi := true);
      }
      request := request.(size := ToInt(StatSize(st)));
      request := request.(suffix := FromLastDot(request.path));
    }

    method BuildHttpResponse(files: Files, outcome: CgiOutcome)
      requires response == NEW_RESPONSE
      modifies this`request, this`response
      ensures (request, response) == Build(old(request), files, outcome)
    {
      if request.method_ != "POST" && request.method_ != "GET" {
        response := response.(statusCode := BAD_REQUEST);
      } else {
        LocateResource();
        if Stat(files, request.path).Some? {
          ExamineResource(files);
          var code: int;
          if request.cgi {
            code := ProcessCgi(outcome);
          } else {
            code := ProcessNonCgi(files);
          }
          response := response.(statusCode := code);
        } else {
          response := response.(statusCode := NOT_FOUND);
        }
      }
      BuildHttpResponseHelper(files);
    }

    method BuildHttpResponseHelper(files: Files)
      requires response.statusLine == "" && response.respHead == []
      modifies this`request, this`response
      ensures (request, response) == Finish(old(request), old(response), files)
    {
      response := response.(statusLine := StatusLine(response.statusCode) + LINE_END);
      var page := WEB_ROOT + "/";
      if response.statusCode == OK {
        BuildOkResponse();
      } else if response.statusCode in {NOT_FOUND, SERVER_ERROR, BAD_REQUEST} {
        HandlerError(files, page + PAGE_404);
      }
    }

    method BuildOkResponse()
      requires response.respHead == []
      modifies this`response
      ensures response == old(response).(respHead :=
        [TypeHead(Suffix2Desc(request.suffix)) + LINE_END,
         LengthHead(if request.cgi then |response.body| else request.size) + LINE_END])
    {
      response := response.(respHead := response.respHead + [TypeHead(Suffix2Desc(request.suffix)) + LINE_END]);
      var n := if request.cgi then |response.body| else request.size;
      response := response.(respHead := response.respHead + [LengthHead(n) + LINE_END]);
    }

    method HandlerError(files: Files, page: string)
      requires response.respHead == []
      modifies this`request, this`response
      ensures var fd := OpenFile(files, page);
        && request == old(request).(cgi := false, size := if fd.Opened? then ToInt(StatSize(fd.node)) else old(request).size)
        && response == old(response).(fd := fd, respHead :=
             if fd.Opened? then [TypeHead("text/html") + LINE_END, LengthHead(StatSize(fd.node)) + LINE_END] else [])
    {
      request := request.(cgi := false);
      response := response.(fd := OpenFile(files, page));
      if response.fd.Opened? {
        var size := StatSize(response.fd.node);
        request := request.(size := ToInt(size));
        response := response.(respHead := response.respHead + [TypeHead("text/html") + LINE_END]);
        response := response.(respHead := response.respHead + [LengthHead(size) + LINE_END]);
      }
    }

    // ---------- Sending ----------

    /** One `send` of the head; its result is not looked at. */
    method SendPart(part: string, result: int, ghost parts: seq<string>, ghost heads: seq<int>, ghost i: nat)
      requires i < |parts| == |heads| && part == parts[i] && result == heads[i] <= |part|
      modifies sock`sent
      ensures sock.sent + PartsSent(parts[i + 1..], heads[i + 1..]) == old(sock.sent) + PartsSent(parts[i..], heads[i..])
    {
      PartGone(sock.sent, parts, heads, i);
      var n := sock.Send(part, result);
    }

    /** `ret` says what the calls return. */
    method SendHttpResponse(ret: Returns)
      requires CanReturn(request, response, ret)
      modifies sock`sent
      ensures sock.sent == old(sock.sent) + Sent(request, response, ret)
    {
      SendHead(ret.heads);
      if request.cgi {
        SendBody(response.body, ret.body);
      } else {
        SendFile(ret.file);
      }
    }

    method SendFile(result: int)
      requires result <= FileMost(response.fd, request.size)
      modifies sock`sent
      ensures sock.sent == old(sock.sent) + FileBytes(response.fd, request.size, result)
    {
      if result > 0 {
        var n := sock.Send(response.fd.node.content, result);
      }
    }

    method SendHead(heads: seq<int>)
      requires PossibleParts(Parts(response), heads)
      modifies sock`sent
      ensures sock.sent == old(sock.sent) + PartsSent(Parts(response), heads)
    {
      ghost var parts, before := Parts(response), sock.sent;
      assert parts[0..] == parts && heads[0..] == heads;
      SendPart(response.statusLine, heads[0], parts, heads, 0);
      var i := 0;
      while i < |response.respHead|
        invariant i <= |response.respHead|
        invariant sock.sent + PartsSent(parts[i + 1..], heads[i + 1..]) == before + PartsSent(parts, heads)
      {
        SendPart(response.respHead[i], heads[i + 1], parts, heads, i + 1);
        i := i + 1;
      }
      SendPart(response.blank, heads[i + 1], parts, heads, i + 1);
      assert parts[i + 2..] == [] && sock.sent + "" == sock.sent;
    }

    /** The loop of `SendHttpResponse` over a CGI body. */
    method SendBody(body: string, results: seq<int>)
      requires Possible(body, 0, results)
      modifies sock`sent
      ensures sock.sent == old(sock.sent) + BodyBytes(body, 0, results)
    {
      var total, size := 0, 0;
      assert results[0..] == results;
      while total < |body|
        invariant total <= |body|
        invariant sock.sent + BodyBytes(body, total, results[total..]) == old(sock.sent) + BodyBytes(body, 0, results)
      {
        PieceGone(sock.sent, body, total, results);
        var sent := sock.Send(body[total..], results[total]);
        // the source stores the comparison, not the count
        size := if sent > 0 then 1 else 0;
        if size == 0 { break; }
        total := total + size;
      }
    }
  }

  /** Serving one accepted connection from its bytes to its end: nothing is sent
      unless the request is a complete one, and the connection is closed. */
  method HandlerRequest(sock: Descriptor, files: Files, outcome: CgiOutcome, ret: Returns)
    requires var (q, resp) := Build(Receive(sock.stream).request, files, outcome);
      !Receive(sock.stream).stop ==> CanReturn(q, resp, ret)
    modifies sock
    ensures sock.closed
    ensures sock.sent == old(sock.sent) + Answer(old(sock.stream), files, outcome, ret)
  {
    var ep := new EndPoint(sock);
    ep.RecvHttpRequest();
    if !ep.stop {
      ep.BuildHttpResponse(files, outcome);
      ep.SendHttpResponse(ret);
    }
    sock.Close();
  }
}
