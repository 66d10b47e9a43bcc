/** Whole connections, from the bytes that arrive to the bytes that go out, for
    requests of the web root's files. */
module Answers {
  import opened Basics
  import opened Text
  import opened Lines
  import opened Requests
  import opened Responses
  import opened CgiProgram

  /** The bytes of a request without heads for a path. */
  function GetBytes(path: string): string { "GET " + path + " HTTP/1.0" + "\r\n" + "\r\n" }

  function GetOf(path: string): Frame {
    Frame("GET" + " " + path + " " + "HTTP/1.0", CrLf, [], CrLf, "")
  }

  lemma GetFramed(path: string)
    requires PathOk(path)
    ensures GetBytes(path) == Encode(GetOf(path)) && IsFrame(GetOf(path))
  {
    PlainWords(path);
    assert "GET" + " " + path + " " + "HTTP/1.0" == "GET " + path + " HTTP/1.0";
  }

  lemma GetLineOf(path: string)
    requires PathOk(path)
    ensures IsRequestLine(GetOf(path).line, "GET", path, "HTTP/1.0")
  {
    assert NoSpace("HTTP/1.0") && NoSpace("GET");
  }

  lemma GetRead(path: string)
    requires PathOk(path)
    ensures var r := Receive(GetBytes(path));
      !r.stop && r.request.method_ == "GET" && r.request.uri == path && !r.request.cgi
  {
    assert GetBytes(path) == Encode(GetOf(path)) && IsFrame(GetOf(path)) by { GetFramed(path); }
    assert IsRequestLine(GetOf(path).line, "GET", path, "HTTP/1.0") by { GetLineOf(path); }
    FramedGet(GetOf(path), "GET", path, "HTTP/1.0");
    FreshRequest(GetBytes(path));
  }

  lemma FramedGet(f: Frame, m: string, u: string, v: string)
    requires IsFrame(f) && IsRequestLine(f.line, m, u, v) && m == "GET"
    ensures var r := Receive(Encode(f)); !r.stop && r.request.method_ == "GET" && r.request.uri == u
  {
    UpperGet();
    FrameReadBack(f);
    BodyTaken(f, m, u, v);
  }

  lemma UpperGet()
    ensures Upper("GET") == "GET"
  {
    AnyCase("GET", "GET");
  }

  lemma FreshRequest(wire: string)
    ensures !Receive(wire).request.cgi
  {}

  /** A path stands for the file below the web root, a path that ends with a
      slash for the default page there. */
  lemma Located(req: HttpRequest)
    requires req.method_ == "GET" && '?' !in req.uri && req.uri != ""
    ensures Locate(req).path
      == if req.uri[|req.uri| - 1] == '/' then "./wwwroot" + req.uri + "index.html" else "./wwwroot" + req.uri
    ensures Locate(req).cgi == req.cgi && Named(req).path == req.uri
  {
    CutNothing(req.uri, '?');
    RootedIs(req.uri);
  }

  lemma RootedIs(path: string)
    requires path != ""
    ensures Rooted(path)
      == if path[|path| - 1] == '/' then "./wwwroot" + path + "index.html" else "./wwwroot" + path
  {
    assert ("./wwwroot" + path)[|"./wwwroot" + path| - 1] == path[|path| - 1];
  }

  /** With a query it is the path in front of the first question mark that
      counts, and a POST keeps its whole address; both run a program. */
  lemma LocatedProgram(req: HttpRequest, path: string, query: string)
    requires '?' !in path
    ensures req.method_ == "GET" && req.uri == path + "?" + query ==>
      Locate(req).path == Rooted(path) && Locate(req).queryString == query && Locate(req).cgi
    ensures req.method_ == "POST" ==> Locate(req).path == Rooted(req.uri) && Locate(req).cgi
  {
    CutAtChar(path, '?', query);
  }

  /** The file that a path without query names in these files: the one there, or
      in a directory its default page. */
  predicate Names(files: Files, path: string, name: string, node: Node) {
    && path != "" && '\0' !in name
    && name in files && files[name] == node
    && var base := if path[|path| - 1] == '/' then "./wwwroot" + path + "index.html" else "./wwwroot" + path;
       && '\0' !in base && base in files
       && name == if files[base].Dir? then base + "/index.html" else base
  }

  lemma NamesResource(req: HttpRequest, files: Files, name: string, node: Node)
    requires req.method_ == "GET" && '?' !in req.uri && Names(files, req.uri, name, node)
    ensures Stat(files, Locate(req).path).Some? && Resource(req, files) == name && Stat(files, name) == Some(node)
  {
    assert Stat(files, name) == Some(node) by { CStringWhole(name); }
    LocatedIn(req, files, name, node);
    assert Stat(files, Locate(req).path) == Some(files[Locate(req).path]) by { CStringWhole(Locate(req).path); }
    DefaultPage(Locate(req).path);
  }

  lemma DefaultPage(base: string)
    ensures base + "/" + DEFAULT_PAGE == base + "/index.html"
  {
    assert "/" + "index.html" == "/index.html";
    assert base + "/" + "index.html" == base + ("/" + "index.html");
  }

  lemma LocatedIn(req: HttpRequest, files: Files, name: string, node: Node)
    requires req.method_ == "GET" && '?' !in req.uri && Names(files, req.uri, name, node)
    ensures var base := Locate(req).path;
      base in files && '\0' !in base && name == if files[base].Dir? then base + "/index.html" else base
  {
    Located(req);
  }

  lemma NamesRuns(req: HttpRequest, files: Files, name: string, node: Node)
    requires req.method_ == "GET" && '?' !in req.uri && Names(files, req.uri, name, node)
    ensures RunsProgram(req, files) <==> req.cgi || node.executable
  {
    NamesResource(req, files, name, node);
  }

  /** Of a directory without a default page the directory's own mode counts. */
  lemma NoDefaultPage(req: HttpRequest, files: Files)
    requires req.method_ == "GET" && '?' !in req.uri && req.uri != "" && '\0' !in Locate(req).path
    requires Locate(req).path in files && files[Locate(req).path].Dir?
    requires Locate(req).path + "/index.html" !in files
    ensures RunsProgram(req, files) <==> req.cgi || files[Locate(req).path].executable
  {
    var base := Locate(req).path;
    DefaultPage(base);
    CStringWhole(base);
    assert '\0' !in base + "/index.html";
    CStringWhole(base + "/index.html");
  }

  /** What stands behind a NUL in a path does not count. */
  lemma NulEndsPath(files: Files, path: string, rest: string)
    requires '\0' !in path
    ensures Stat(files, path + "\0" + rest) == if path in files then Some(files[path]) else None
    ensures OpenFile(files, path + "\0" + rest) == OpenFile(files, path)
  {
    CStringEnds(path, rest);
    CStringWhole(path);
  }

  predicate AllTaken(q: HttpRequest, r: HttpResponse, ret: Returns) {
    && CanReturn(q, r, ret) && EachWhole(Parts(r), ret.heads)
    && (r.fd.Opened? ==> ret.file == FileMost(r.fd, q.size))
  }

  /** From wire to wire: a GET of a readable file that is no program and that one
      `sendfile` call can take is answered with exactly the file behind its head,
      if the calls take all that they can. */
  lemma FileServed(path: string, files: Files, name: string, node: Node, outcome: CgiOutcome, ret: Returns)
    requires PathOk(path) && Names(files, path, name, node)
    requires node.File? && node.readable && !node.executable && |node.content| <= SENDFILE_MAX
    ensures var (q, r) := Build(Receive(GetBytes(path)).request, files, outcome);
      AllTaken(q, r, ret) ==>
        Answer(GetBytes(path), files, outcome, ret)
        == WholeAnswer("HTTP/1.0 200 OK", Suffix2Desc(FromLastDot(name)), node.content)
  {
    GetRead(path);
    var req := Receive(GetBytes(path)).request;
    var (q, r) := Build(req, files, outcome);
    assert r.statusCode == OK && !q.cgi && r.fd == Opened(node) && q.suffix == FromLastDot(name) by {
      NodeOpened(req, files, name, node, outcome);
    }
    if AllTaken(q, r, ret) {
      SizeIsLength(req, files, outcome);
      FileOnTheWire(req, files, outcome, ret);
    }
  }

  lemma NodeOpened(req: HttpRequest, files: Files, name: string, node: Node, outcome: CgiOutcome)
    requires req.method_ == "GET" && '?' !in req.uri && !req.cgi && Names(files, req.uri, name, node)
    requires node.readable && !node.executable
    ensures var (q, r) := Build(req, files, outcome);
      r.statusCode == OK && !q.cgi && r.fd == Opened(node) && q.suffix == FromLastDot(name)
  {
    NamesResource(req, files, name, node);
    NamesRuns(req, files, name, node);
    StatusMeaning(req, files, outcome);
    SuffixOfResource(req, files, outcome);
    FourCodes(req, files, outcome);
  }

  lemma FourCodes(req: HttpRequest, files: Files, outcome: CgiOutcome)
    ensures KnownCode(Build(req, files, outcome).1.statusCode)
  {
    BuildLine(req, files, outcome);
  }

  lemma SuffixOfResource(req: HttpRequest, files: Files, outcome: CgiOutcome)
    requires Supported(req) && Stat(files, Locate(req).path).Some?
    ensures var (q, r) := Build(req, files, outcome);
      r.statusCode == OK ==> q.suffix == FromLastDot(Resource(req, files))
  {
    ExamineMeaning(req, files);
  }

  /** From wire to wire: a GET of nothing, or of an unreadable file, is answered
      404 with the error page, and without one with nothing but the status. */
  lemma NothingServed(path: string, files: Files, outcome: CgiOutcome, ret: Returns)
    requires PathOk(path) && '\0' !in path
    requires var base := if path[|path| - 1] == '/' then "./wwwroot" + path + "index.html" else "./wwwroot" + path;
      base !in files || (files[base].File? && !files[base].readable && !files[base].executable)
    ensures var (q, r) := Build(Receive(GetBytes(path)).request, files, outcome);
      var page := OpenFile(files, "./wwwroot/404.html");
      AllTaken(q, r, ret) ==>
        && (page.NoFile? ==>
              Answer(GetBytes(path), files, outcome, ret) == "HTTP/1.0 404 Not Found" + "\r\n" + "\r\n")
        && (page.Opened? && page.node.File? && |page.node.content| <= SENDFILE_MAX ==>
              Answer(GetBytes(path), files, outcome, ret)
              == WholeAnswer("HTTP/1.0 404 Not Found", "text/html", page.node.content))
  {
    GetRead(path);
    var req := Receive(GetBytes(path)).request;
    NotThere(req, files);
    StatusMeaning(req, files, outcome);
    ErrorPageSent(req, files, outcome, ret);
  }

  lemma NotThere(req: HttpRequest, files: Files)
    requires req.method_ == "GET" && '?' !in req.uri && req.uri != "" && '\0' !in req.uri && !req.cgi
    requires var base := if req.uri[|req.uri| - 1] == '/' then "./wwwroot" + req.uri + "index.html" else "./wwwroot" + req.uri;
      base !in files || (files[base].File? && !files[base].readable && !files[base].executable)
    ensures !RunsProgram(req, files)
    ensures Stat(files, Locate(req).path).None? || OpenFile(files, Resource(req, files)).NoFile?
  {
    var base := Locate(req).path;
    assert '\0' !in base && (base !in files || (files[base].File? && !files[base].readable && !files[base].executable)) by {
      Located(req);
    }
    assert Stat(files, base) == if base in files then Some(files[base]) else None by { CStringWhole(base); }
    if base in files { Unreadable(req, files, files[base]); }
  }

  lemma Unreadable(req: HttpRequest, files: Files, node: Node)
    requires req.method_ == "GET" && '?' !in req.uri && !req.cgi
    requires Stat(files, Locate(req).path) == Some(node) && node.File? && !node.readable && !node.executable
    ensures !RunsProgram(req, files) && OpenFile(files, Resource(req, files)).NoFile?
  {}

  /** Any error is answered with the error page behind its own status. */
  lemma ErrorPageSent(req: HttpRequest, files: Files, outcome: CgiOutcome, ret: Returns)
    ensures var (q, r) := Build(req, files, outcome);
      var page := OpenFile(files, "./wwwroot/404.html");
      r.statusCode != OK && AllTaken(q, r, ret) ==>
        && (page.NoFile? ==> Sent(q, r, ret) == StatusText(r.statusCode) + "\r\n" + "\r\n")
        && (page.Opened? && page.node.File? && |page.node.content| <= SENDFILE_MAX ==>
              Sent(q, r, ret) == WholeAnswer(StatusText(r.statusCode), "text/html", page.node.content))
  {
    var (q, r) := Build(req, files, outcome);
    if r.statusCode != OK && AllTaken(q, r, ret) {
      ErrorPage(req, files, outcome);
      ErrorWithoutPage(req, files, outcome, ret);
      SizeIsLength(req, files, outcome);
      FileOnTheWire(req, files, outcome, ret);
    }
  }

  lemma ErrorPage(req: HttpRequest, files: Files, outcome: CgiOutcome)
    ensures var (q, r) := Build(req, files, outcome);
      r.statusCode != OK ==> !q.cgi && r.fd == OpenFile(files, "./wwwroot/404.html")
  {
    assert WEB_ROOT + "/" + PAGE_404 == "./wwwroot/404.html";
    var req', resp' := BuildEndsReady(req, files, outcome);
  }

  /** A client reads exactly that. */
  lemma FileRead(path: string, files: Files, name: string, node: Node, outcome: CgiOutcome, ret: Returns)
    requires PathOk(path) && Names(files, path, name, node)
    requires node.File? && node.readable && !node.executable && |node.content| <= SENDFILE_MAX
    ensures var (q, r) := Build(Receive(GetBytes(path)).request, files, outcome);
      AllTaken(q, r, ret) ==>
        var reply := ReadReply(Answer(GetBytes(path), files, outcome, ret));
        reply.status == "HTTP/1.0 200 OK" && !reply.failed && reply.body == node.content
  {
    var (q, r) := Build(Receive(GetBytes(path)).request, files, outcome);
    if AllTaken(q, r, ret) {
      FileServed(path, files, name, node, outcome, ret);
      StatusLineIsText(200);
      PlainType(FromLastDot(name));
      WholeAnswerRead("HTTP/1.0 200 OK", Suffix2Desc(FromLastDot(name)), node.content);
    }
  }
}
