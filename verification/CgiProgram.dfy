/** The CGI program's side: how it gets the query string and splits it, and that
    GET and POST deliver the same query. */
module CgiProgram {
  import opened Basics
  import opened Text
  import opened Lines
  import opened Requests
  import opened Responses
  import CgiPipes

  // ---------- Getting the query string ----------

  datatype Environment = Environment(method_: string, queryString: string, contentLength: string)

  /** The variables that the server puts into the child's environment. */
  function ChildEnvironment(req: HttpRequest): Environment {
    Environment(req.method_,
                if req.method_ == "GET" then CString(req.queryString) else "",
                if req.method_ == "POST" then ToString(req.contentLength) else "")
  }

  function Repeat(c: char, n: nat): string { seq(n, _ => c) }

  /** n one-byte reads: behind the end of the input the last byte is taken again. */
  function ReadCounted(s: string, n: nat): string {
    if n <= |s| then s[..n]
    else s + Repeat(if s == "" then '\0' else s[|s| - 1], n - |s|)
  }

  /** How often the countdown from an `int` runs: below zero it goes on through
      the least `int` and around. */
  function Countdown(v: int): nat
    requires -INT_MAX - 1 <= v <= INT_MAX
  {
    if v >= 0 then v else v + 0x1_0000_0000
  }

  lemma CountDown(v: int)
    requires -INT_MAX - 1 <= v <= INT_MAX && v != 0
    ensures Countdown(ToInt(v - 1)) == Countdown(v) - 1
  {}

  /** The query string as the child sees it; None for any other method. */
  function Query(env: Environment, input: string): Option<string> {
    if env.method_ == "GET" then Some(env.queryString)
    else if env.method_ == "POST" then AtoiFits(env.contentLength); Some(ReadCounted(input, Countdown(Atoi(env.contentLength))))
    else None
  }

  method GetQueryString(env: Environment, stdin: Descriptor) returns (result: bool, query: string)
    modifies stdin`stream
    ensures result == Query(env, old(stdin.stream)).Some?
    ensures query == if result then Query(env, old(stdin.stream)).value else ""
  {
    result, query := false, "";
    if env.method_ == "GET" {
      query := env.queryString;
      result := true;
    } else if env.method_ == "POST" {
      var contentLength := Atoi(env.contentLength);
      AtoiFits(env.contentLength);
      ghost var n, input := Countdown(contentLength), stdin.stream;
      var c := '\0';
      while contentLength != 0
        invariant -INT_MAX - 1 <= contentLength <= INT_MAX && Countdown(contentLength) == n - |query|
        invariant query == ReadCounted(input, |query|)
        invariant stdin.stream == if |query| <= |input| then input[|query|..] else ""
        invariant c == (if query == "" then '\0' else query[|query| - 1])
        decreases n - |query|
      {
        var s: int;
        s, c := stdin.Recv(c);
        query := query + [c];
        CountDown(contentLength);
        contentLength := ToInt(contentLength - 1);
      }
      result := true;
    }
  }

  // ---------- Splitting it ----------

  /** `CutString`: without a separator the outputs stay as they were. */
  method CutString(s: string, sep: string, out1: string, out2: string) returns (r1: string, r2: string)
    ensures (r1, r2) == CutOr(s, sep, (out1, out2))
  {
    r1, r2 := out1, out2;
    var pos := Find(s, sep);
    if pos >= 0 {
      r1 := s[..pos];
      r2 := s[pos + |sep|..];
    }
  }

  function CutOr(s: string, sep: string, otherwise: (string, string)): (string, string) {
    match Cut(s, sep) case Some(p) => p case None => otherwise
  }

  datatype Parameters = Parameters(name1: string, value1: string, name2: string, value2: string)

  function Split(query: string): Parameters {
    var (str1, str2) := CutOr(query, "&", ("", ""));
    var (n1, v1) := CutOr(str1, "=", ("", ""));
    var (n2, v2) := CutOr(str2, "=", ("", ""));
    Parameters(n1, v1, n2, v2)
  }

  method SplitQuery(query: string) returns (p: Parameters)
    ensures p == Split(query)
  {
    var str1, str2 := CutString(query, "&", "", "");
    var name1, value1 := CutString(str1, "=", "", "");
    var name2, value2 := CutString(str2, "=", "", "");
    p := Parameters(name1, value1, name2, value2);
  }

  function Join(p: Parameters): string {
    p.name1 + "=" + p.value1 + "&" + p.name2 + "=" + p.value2
  }

  lemma CutPartsClean(s: string, c: char)
    ensures var (l, r) := CutOr(s, [c], ("", ""));
      && c !in l && |l| <= |s| && |r| <= |s|
      && forall d :: (d in l || d in r) ==> d in s
  {
    var pos := Find(s, [c]);
    if pos >= 0 {
      forall k | 0 <= k < pos ensures s[k] != c { CharOccursAt(s, c, k); }
    }
  }

  /** A query splits back into its two pairs exactly when no name holds an '='
      and the first pair holds no '&'. */
  lemma SplitOfJoin(p: Parameters)
    ensures Split(Join(p)) == p <==>
      '=' !in p.name1 && '&' !in p.name1 && '&' !in p.value1 && '=' !in p.name2
  {
    var pair1, pair2 := p.name1 + "=" + p.value1, p.name2 + "=" + p.value2;
    assert Join(p) == pair1 + "&" + pair2;
    if '=' !in p.name1 && '&' !in p.name1 && '&' !in p.value1 && '=' !in p.name2 {
      CutAtChar(pair1, '&', pair2);
      CutAtChar(p.name1, '=', p.value1);
      CutAtChar(p.name2, '=', p.value2);
    } else {
      var (str1, str2) := CutOr(Join(p), "&", ("", ""));
      CutPartsClean(Join(p), '&');
      CutPartsClean(str1, '=');
      CutPartsClean(str2, '=');
    }
  }

  /** What the two names and values are: the first `&` parts the query, in each
      part the first `=` the name from the value; where there is none, name and
      value stay empty. */
  lemma SplitMeaning(a: string, b: string)
    requires '&' !in a
    ensures Split(a) == Parameters("", "", "", "")
    ensures var p := Split(a + "&" + b); PairOf(a, p.name1, p.value1) && PairOf(b, p.name2, p.value2)
  {
    CutNothing(a, '&');
    CutNothing("", '=');
    CutAtChar(a, '&', b);
    CutIsPair(a);
    CutIsPair(b);
  }

  predicate PairOf(part: string, name: string, value: string) {
    if '=' in part then part == name + "=" + value && '=' !in name else name == "" && value == ""
  }

  lemma CutIsPair(part: string)
    ensures var (n, v) := CutOr(part, "=", ("", "")); PairOf(part, n, v)
  {
    if '=' !in part {
      CutNothing(part, '=');
    } else {
      var k :| 0 <= k < |part| && part[k] == '=';
      CharOccursAt(part, '=', k);
      var pos := Find(part, "=");
      CharOccursAt(part, '=', pos);
      assert OccursAt(part, "=", k) && pos >= 0 && part[pos] == '=';
      forall i: nat | i < pos ensures part[i] != '=' { CharOccursAt(part, '=', i); }
      assert '=' !in part[..pos];
      assert part == part[..pos] + "=" + part[pos + 1..];
    }
  }

  /** If the input ends before the count is reached, the last byte is repeated,
      or NUL if there was none; a count below zero is reached by going round. */
  lemma CountedInput(s: string, v: int)
    requires -INT_MAX - 1 <= v <= INT_MAX
    ensures var r := ReadCounted(s, Countdown(v));
      && |r| == (if v >= 0 then v else v + 0x1_0000_0000)
      && (forall i :: 0 <= i < |r| ==>
            r[i] == if i < |s| then s[i] else if s == "" then '\0' else s[|s| - 1])
  {}

  // ---------- GET and POST ----------

  /** The query that a program which is given the body as its input gets. */
  function Delivered(req: HttpRequest): Option<string> {
    Query(ChildEnvironment(Locate(req)), req.body)
  }

  function GetLine(path: string, q: string): string { "GET " + path + "?" + q + " HTTP/1.0" }

  function PostLine(path: string): string { "POST " + path + " HTTP/1.0" }

  predicate PathOk(path: string) { path != "" && NoSpace(path) && '?' !in path }

  lemma {:induction false} WordWhole(s: string)
    ensures |Word(s)| <= |s|
    ensures Word(s) == s <==> NoSpace(s)
  {
    if s != "" && !IsSpace(s[0]) {
      WordWhole(s[1..]);
      assert s == [s[0]] + s[1..];
    } else if s != "" {
      assert s[0] in s;
    }
  }

  lemma {:induction false} WordOfPrefix(w: string, rest: string)
    requires NoSpace(w)
    ensures Word(w + rest) == w + Word(rest)
  {
    if w == "" {
      assert w + rest == rest;
    } else {
      assert w[0] in w;
      assert (w + rest)[1..] == w[1..] + rest;
      WordOfPrefix(w[1..], rest);
    }
  }

  lemma {:induction false} WordStopsAtSpace(s: string, rest: string)
    requires rest != "" && IsSpace(rest[0])
    ensures Word(s + rest) == Word(s)
  {
    if s == "" {
      assert s + rest == rest;
    } else {
      assert (s + rest)[1..] == s[1..] + rest;
      WordStopsAtSpace(s[1..], rest);
    }
  }

  lemma MethodWord(m: string, rest: string)
    requires m == "GET" || m == "POST"
    ensures Extract(m + " " + rest) == (m, " " + rest) && Upper(m) == m
  {
    assert m + " " + rest == m + (" " + rest);
    ExtractJoin(m, " " + rest);
    if m == "GET" {
      assert Upper("T") == "T" && Upper("ET") == "ET";
      assert "ET" == "GET"[1..] && "T" == "ET"[1..];
    } else {
      assert "OST" == "POST"[1..] && "ST" == "OST"[1..] && "T" == "ST"[1..];
      assert Upper("T") == "T" && Upper("ST") == "ST" && Upper("OST") == "OST";
    }
  }

  lemma SecondWord(rest: string)
    requires rest != "" && !IsSpace(rest[0])
    ensures Extract(" " + rest).0 == Word(rest)
  {
    assert (" " + rest)[1..] == rest;
    assert SkipSpace(" " + rest) == SkipSpace(rest) == rest;
  }

  /** Whatever follows the question mark. */
  lemma GetParsed(path: string, t: string)
    requires PathOk(path)
    ensures var r := ParseLine(NEW_REQUEST.(reqLine := "GET " + path + "?" + t));
      r.method_ == "GET" && r.uri == path + "?" + Word(t)
  {
    var uri := path + "?" + t;
    assert "GET " + path + "?" + t == "GET" + " " + uri;
    MethodWord("GET", uri);
    assert path[0] in path;
    SecondWord(uri);
    WordOfPrefix(path + "?", t);
  }

  lemma PostParsed(path: string)
    requires PathOk(path)
    ensures var r := ParseLine(NEW_REQUEST.(reqLine := PostLine(path)));
      r.method_ == "POST" && r.uri == path
  {
    var uri := path + " HTTP/1.0";
    assert PostLine(path) == "POST" + " " + uri;
    MethodWord("POST", uri);
    assert path[0] in path;
    SecondWord(uri);
    WordOfPrefix(path, " HTTP/1.0");
    assert Word(" HTTP/1.0") == "" && path + "" == path;
  }

  /** The request `ReceiveRest` makes of a line and heads, as far as it matters here. */
  lemma ReceivedFields(line: string, h: HeadBlock)
    requires h.complete
    ensures var r, p := ReceiveRest(line, h).request, ParseLine(NEW_REQUEST.(reqLine := line));
      && r.method_ == p.method_ && r.uri == p.uri
      && r.contentLength == Wanted(line, h.heads)
      && r.body == ReadBody(h.rest, Wanted(line, h.heads)).0
      && ReceiveRest(line, h).stop == ReadBody(h.rest, Wanted(line, h.heads)).2
  {}

  lemma QueryOfWord(q: string)
    ensures CString(Word(q)) == q <==> NoSpace(q) && '\0' !in q
  {
    CStringWhole(Word(q));
    CStringWhole(q);
    WordWhole(q);
  }

  /** A GET carries the first word of a query up to its first NUL, so exactly the
      queries without white space and NUL as they are. */
  lemma GetDelivers(path: string, q: string, r: HttpRequest)
    requires PathOk(path)
    requires r.method_ == "GET" && r.uri == path + "?" + Word(q)
    ensures Named(r).path == path && Locate(r).cgi
    ensures Delivered(r) == Some(CString(Word(q)))
    ensures Delivered(r) == Some(q) <==> NoSpace(q) && '\0' !in q
  {
    CutAtChar(path, '?', Word(q));
    assert Named(r) == r.(path := path, queryString := Word(q), cgi := true);
    QueryOfWord(q);
  }

  /** A POST carries every query whose length fits an `int`. */
  lemma PostDelivers(r: HttpRequest)
    requires r.method_ == "POST" && r.contentLength == |r.body| <= INT_MAX
    ensures Locate(r).cgi && Delivered(r) == Some(r.body)
  {
    AtoiOfDecimal(|r.body|);
    assert r.body[..|r.body|] == r.body;
  }

  function GetFrame(path: string, q: string): Frame {
    Frame(GetLine(path, q), CrLf, [], CrLf, "")
  }

  function PostFrame(path: string, q: string): Frame {
    Frame(PostLine(path), CrLf, [(LengthHead(|q|), CrLf)], CrLf, q)
  }

  lemma PlainWords(s: string)
    requires NoSpace(s)
    ensures Plain(s)
  {}

  lemma GetFrameParts(path: string, q: string)
    requires PathOk(path) && Plain(q)
    ensures FirstLine(Encode(GetFrame(path, q))) == GetLine(path, q) + "\n"
    ensures ReadHeads(AfterLine(Encode(GetFrame(path, q)))) == HeadBlock([], "", true)
  {
    var f := GetFrame(path, q);
    assert Plain(f.line);
    FrameParts(f);
    assert Texts(f.heads) == [];
  }

  lemma GetAccepted(path: string, q: string)
    requires PathOk(path) && Plain(q)
    ensures !Receive(Encode(GetFrame(path, q))).stop
  {
    GetFrameParts(path, q);
    var line := GetLine(path, q);
    MethodIsFirst(line, "GET");
    assert Chomp(line + "\n") == line;
    ReceivedFields(line, HeadBlock([], "", true));
  }

  lemma {:induction false} LineGoesOn(w: string, s: string)
    requires Plain(w)
    ensures FirstLine(w + s) == w + FirstLine(s)
  {
    if w == "" {
      assert w + s == s;
    } else {
      assert w[0] in w;
      assert (w + s)[1..] == w[1..] + s;
      LineGoesOn(w[1..], s);
    }
  }

  lemma ChompBehind(w: string, l: string)
    requires Plain(w) && Complete(w + l)
    ensures Complete(l) && Chomp(w + l) == w + Chomp(l)
  {
    assert l == "" ==> w + l == w;
  }

  /** A line end is white space, so the first word is that of the line. */
  lemma {:induction false} WordOfLine(s: string)
    ensures Word(Chomp(FirstLine(s))) == Word(s)
    decreases |s|
  {
    if s != "" && s[0] != '\n' && s[0] != '\r' {
      var l := FirstLine(s[1..]);
      ChompOne(s[0], l);
      WordOfOne(s[0], Chomp(l));
      if !IsSpace(s[0]) { WordOfLine(s[1..]); }
    }
  }

  lemma ChompOne(c: char, l: string)
    requires c != '\n'
    ensures Chomp([c] + l) == [c] + Chomp(l)
  {}

  lemma WordOfOne(c: char, rest: string)
    ensures Word([c] + rest) == if IsSpace(c) then "" else [c] + Word(rest)
  {
    assert ([c] + rest)[1..] == rest;
  }

  /** Even with line ends in q: the line that the server reads starts like the
      one meant, up to the first word of q. */
  lemma GetLineRead(path: string, q: string) returns (t: string)
    requires PathOk(path) && Complete(FirstLine(Encode(GetFrame(path, q))))
    ensures Chomp(FirstLine(Encode(GetFrame(path, q)))) == "GET " + path + "?" + t
    ensures Word(t) == Word(q)
  {
    var w, rest := "GET " + path + "?", " HTTP/1.0" + EolBytes(CrLf) + EncodeHeads([], CrLf, "");
    assert Encode(GetFrame(path, q)) == w + (q + rest);
    PlainWords(path);
    LineGoesOn(w, q + rest);
    ChompBehind(w, FirstLine(q + rest));
    t := Chomp(FirstLine(q + rest));
    WordOfLine(q + rest);
    WordStopsAtSpace(q, rest);
  }

  /** If the server accepts the bytes at all, it sees a GET of path?w, where w
      is the first word of q. */
  lemma GetReceived(path: string, q: string)
    requires PathOk(path) && !Receive(Encode(GetFrame(path, q))).stop
    ensures var r := Receive(Encode(GetFrame(path, q))).request;
      r.method_ == "GET" && r.uri == path + "?" + Word(q)
  {
    AcceptedLine(Encode(GetFrame(path, q)));
    var t := GetLineRead(path, q);
    GetParsed(path, t);
  }

  lemma AcceptedLine(wire: string)
    requires !Receive(wire).stop
    ensures Complete(FirstLine(wire))
    ensures var r, p := Receive(wire).request, ParseLine(NEW_REQUEST.(reqLine := Chomp(FirstLine(wire))));
      r.method_ == p.method_ && r.uri == p.uri
  {
    ReceivedFields(Chomp(FirstLine(wire)), ReadHeads(AfterLine(wire)));
  }

  lemma MethodIsFirst(line: string, m: string)
    requires m == "GET" || m == "POST"
    requires m + " " <= line
    ensures Extract(line).0 == m
  {
    MethodWord(m, line[|m| + 1..]);
    assert line == m + " " + line[|m| + 1..];
  }

  lemma PostFrameParts(path: string, q: string)
    requires PathOk(path)
    ensures FirstLine(Encode(PostFrame(path, q))) == PostLine(path) + "\n"
    ensures ReadHeads(AfterLine(Encode(PostFrame(path, q)))) == HeadBlock([LengthHead(|q|)], q, true)
  {
    var f := PostFrame(path, q);
    PostIsFrame(path, q);
    FrameParts(f);
    assert Texts(f.heads) == [LengthHead(|q|)];
  }

  lemma PostIsFrame(path: string, q: string)
    requires PathOk(path)
    ensures IsFrame(PostFrame(path, q))
  {
    var f := PostFrame(path, q);
    PlainDecimal(|q|);
    assert f.heads[1..] == [];
    assert HeadsFramed(f.heads[1..], CrLf, q);
  }

  lemma PostSplit(path: string, q: string)
    requires PathOk(path)
    ensures Receive(Encode(PostFrame(path, q))) == ReceiveRest(PostLine(path), HeadBlock([LengthHead(|q|)], q, true))
  {
    PostFrameParts(path, q);
    var line := PostLine(path);
    assert Chomp(line + "\n") == line;
  }

  /** The body is as many bytes as the printed length of q reads back as. */
  lemma PostReceived(path: string, q: string)
    requires PathOk(path)
    ensures var r := ReceiveRest(PostLine(path), HeadBlock([LengthHead(|q|)], q, true));
      var n := Atoi(Decimal(|q|));
      && r.request.method_ == "POST" && r.request.uri == path && r.request.contentLength == n
      && r.stop == !(0 <= n <= |q|)
      && (!r.stop ==> r.request.body == q[..n])
  {
    var line, h := PostLine(path), HeadBlock([LengthHead(|q|)], q, true);
    PostWanted(path, |q|);
    PostParsed(path);
    ReceivedFields(line, h);
    CountedBytes(q, Wanted(line, h.heads));
  }

  lemma PostWanted(path: string, n: nat)
    ensures Wanted(PostLine(path), [LengthHead(n)]) == Atoi(Decimal(n))
  {
    MethodIsFirst(PostLine(path), "POST");
    WantedOfPost(PostLine(path), Decimal(n));
  }

  lemma CountedBytes(s: string, n: int)
    ensures ReadBody(s, n).2 == !(0 <= n <= |s|)
    ensures 0 <= n <= |s| ==> ReadBody(s, n).0 == s[..n]
  {}

  lemma WantedOfPost(line: string, l: string)
    requires Extract(line).0 == "POST"
    ensures Wanted(line, ["Content-Length" + SEP + l]) == Atoi(l)
  {
    LengthAlone(l);
    MethodWord("POST", "");
  }

  lemma LengthAlone(l: string)
    ensures HeadMap(["Content-Length" + SEP + l]) == map["Content-Length" := l]
  {
    CutHead("Content-Length", l);
    assert HeadMap([]) == map[];
  }

  /** Over the pipes: however the server and a program that runs through talk
      about this request, the program reads the query q. */
  ghost predicate Arrives(req: HttpRequest, q: string) {
    forall c: CgiPipes.Config, es :: c.capacity >= 1 && c.body == req.body && CgiPipes.Finished(c, es) ==>
      Query(ChildEnvironment(Locate(req)), CgiPipes.After(c, CgiPipes.INIT, es).got) == Some(q)
  }

  lemma ArrivesIffDelivered(req: HttpRequest, q: string)
    ensures Arrives(req, q) <==> Delivered(req) == Some(q)
  {
    forall c: CgiPipes.Config, es | c.body == req.body && CgiPipes.Finished(c, es)
      ensures CgiPipes.After(c, CgiPipes.INIT, es).got == req.body
    {
      CgiPipes.DataFidelity(c, es);
    }
    var c := CgiPipes.Config(1, req.body, _ => CgiPipes.Run("", Exited(0)));
    var es := CgiPipes.CanFinish(c);
  }

  /** The child is told to read exactly as many bytes as the server sends it. */
  lemma ContentLengthIsBody(wire: string)
    requires var r := Receive(wire); !r.stop && r.request.method_ == "POST"
    ensures var r := Receive(wire).request; Atoi(ChildEnvironment(Locate(r)).contentLength) == |r.body|
  {
    var r := Receive(wire).request;
    var line, h := Chomp(FirstLine(wire)), ReadHeads(AfterLine(wire));
    RestReadBack(line, h);
    WantedFits(line, h.heads);
    AtoiOfDecimal(|r.body|);
  }

  lemma WantedFits(line: string, heads: seq<string>)
    ensures Wanted(line, heads) <= INT_MAX
  {}

  /** The bytes are accepted and make the program at `path` run with query q. */
  ghost predicate Reaches(wire: string, path: string, q: string) {
    var r := Receive(wire);
    !r.stop && Locate(r.request).cgi && Locate(r.request).path == Rooted(path) && Arrives(r.request, q)
  }

  lemma GetReachesIff(path: string, q: string)
    requires PathOk(path)
    ensures Reaches(Encode(GetFrame(path, q)), path, q) <==> NoSpace(q) && '\0' !in q
  {
    var r := Receive(Encode(GetFrame(path, q)));
    if NoSpace(q) {
      PlainWords(q);
      GetAccepted(path, q);
    }
    if !r.stop {
      GetReceived(path, q);
      GetDelivers(path, q, r.request);
      ArrivesIffDelivered(r.request, q);
    }
  }

  lemma PostReachesIff(path: string, q: string)
    requires PathOk(path)
    ensures Reaches(Encode(PostFrame(path, q)), path, q) <==> |q| <= INT_MAX
  {
    var r, n := Receive(Encode(PostFrame(path, q))), Atoi(Decimal(|q|));
    PostSplit(path, q);
    PostReceived(path, q);
    AtoiOfDecimal(|q|);
    AtoiFits(Decimal(|q|));
    if !r.stop {
      PostDelivers(r.request);
      ArrivesIffDelivered(r.request, q);
      assert q[..|q|] == q;
    }
  }

  /** An instance: a query with a blank is cut there. */
  lemma BlankCutsGet()
    ensures var r := Receive(Encode(GetFrame("/p", "a b")));
      !r.stop && Delivered(r.request) == Some("a")
  {
    GetAccepted("/p", "a b");
    GetReceived("/p", "a b");
    GetDelivers("/p", "a b", Receive(Encode(GetFrame("/p", "a b"))).request);
    assert CString(Word("a b")) == "a" by { FirstWordOfTwo(); }
  }

  lemma FirstWordOfTwo()
    ensures Word("a b") == "a" && CString("a") == "a"
  {
    assert "a b" == "a" + " b";
    WordOfJoin("a", " b");
    CStringWhole("a");
  }

  lemma LongPost(path: string, q: string)
    requires PathOk(path) && INT_MAX < |q| <= 2 * INT_MAX
    ensures Receive(Encode(PostFrame(path, q))).stop
  {
    PostSplit(path, q);
    PostReceived(path, q);
    AtoiWraps(|q|);
  }

  /** An instance: a body of 2^31 bytes is announced right, but its length reads
      back as -2^31, and the request is not accepted. */
  lemma LongPostStops()
    ensures Receive(Encode(PostFrame("/p", seq(0x8000_0000, _ => 'a')))).stop
  {
    LongPost("/p", seq(0x8000_0000, _ => 'a'));
  }

  /** From the bytes on the wire to the CGI program: GET path?q and POST path
      with body q both reach the same program with the query q exactly when q
      has no white space and no NUL and its length fits an `int`. */
  lemma TransportIndependence(path: string, q: string)
    requires PathOk(path)
    ensures Reaches(Encode(GetFrame(path, q)), path, q) && Reaches(Encode(PostFrame(path, q)), path, q)
      <==> NoSpace(q) && '\0' !in q && |q| <= INT_MAX
  {
    GetReachesIff(path, q);
    PostReachesIff(path, q);
  }
}
