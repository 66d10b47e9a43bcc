/** A request that runs a program, from the bytes on the wire through both pipes
    to the bytes of the answer. */
module Service {
  import opened Basics
  import opened Text
  import opened Lines
  import opened Requests
  import opened Responses
  import opened CgiProgram
  import CgiPipes

  /** The conversation about a request with a program of the query it sees. */
  function Talk(req: HttpRequest, capacity: nat, program: Option<string> -> CgiPipes.Run): CgiPipes.Config {
    CgiPipes.Config(capacity, req.body, input => program(Query(ChildEnvironment(Locate(req)), input)))
  }

  /** A conversation that the parent has brought to its end. */
  predicate Over(c: CgiPipes.Config, es: seq<CgiPipes.Event>) {
    CgiPipes.Runs(c, CgiPipes.INIT, es) && CgiPipes.After(c, CgiPipes.INIT, es).parent.Done?
  }

  /** How the child came out, and what the parent makes of the conversation. */
  function CourseOf(c: CgiPipes.Config, es: seq<CgiPipes.Event>): CgiPipes.Course
    requires Over(c, es)
  {
    CgiPipes.DataFidelity(c, es);
    CgiPipes.After(c, CgiPipes.INIT, es).child.course
  }

  function OutcomeOf(c: CgiPipes.Config, es: seq<CgiPipes.Event>): CgiOutcome
    requires Over(c, es)
  {
    CgiPipes.DataFidelity(c, es);
    var s := CgiPipes.After(c, CgiPipes.INIT, es);
    Ran(s.response, s.child.ended)
  }

  /** However the two sides were scheduled: a program that runs through gives its
      whole output and ends as it does on the query delivered; one that leaves
      early or is killed gives the start of that output; one that cannot be
      started gives nothing and counts as failed. */
  predicate OutcomeFits(course: CgiPipes.Course, outcome: CgiOutcome, run: CgiPipes.Run) {
    outcome.Ran? &&
    match course
    case RanThrough => outcome == Ran(run.output, run.ended)
    case Stopped => outcome.output <= run.output
    case NeverRan => outcome == Ran("", Exited(1))
  }

  lemma OutcomeIsRun(req: HttpRequest, capacity: nat, program: Option<string> -> CgiPipes.Run, es: seq<CgiPipes.Event>)
    requires Over(Talk(req, capacity, program), es)
    ensures var c := Talk(req, capacity, program);
      OutcomeFits(CourseOf(c, es), OutcomeOf(c, es), program(Delivered(req)))
  {
    var c := Talk(req, capacity, program);
    CgiPipes.DataFidelity(c, es);
    assert c.program(c.body) == program(Delivered(req));
  }

  /** The answer for an outcome: a 200 with the output exactly when the program
      ended with status 0. A client that honours the announced length then reads
      the output exactly when it fits an `int` and starts what the calls put on
      the wire. Else the status says how the program failed, and none of its
      output is sent. */
  predicate Answered(q: HttpRequest, resp: HttpResponse, outcome: CgiOutcome, ret: Returns)
    requires outcome.Ran?
  {
    && (PossibleParts(Parts(resp), ret.heads) && EachWhole(Parts(resp), ret.heads) ==>
          Chomp(FirstLine(Sent(q, resp, ret)))
          == if outcome.ended == Exited(0) then "HTTP/1.0 200 OK"
             else if outcome.ended.Exited? then "HTTP/1.0 400 " else "HTTP/1.0 500 ")
    && match outcome.ended
    case Exited(status) =>
      if status == 0 then
        && resp.statusCode == OK && q.cgi && resp.body == outcome.output
        && (PossibleParts(Parts(resp), ret.heads) && EachWhole(Parts(resp), ret.heads) ==>
              var wire := Sent(q, resp, ret);
              && AnnouncesBody(wire, q.suffix, outcome.output)
              && (BodyReadBack(wire, outcome.output) <==>
                    |outcome.output| <= INT_MAX && outcome.output <= BodyBytes(outcome.output, 0, ret.body)))
      else resp.statusCode == BAD_REQUEST && !q.cgi
    case Killed => resp.statusCode == SERVER_ERROR && !q.cgi
  }

  lemma AnsweredByBuild(req: HttpRequest, files: Files, outcome: CgiOutcome, ret: Returns)
    requires RunsProgram(req, files) && outcome.Ran?
    ensures var (q, resp) := Build(req, files, outcome); Answered(q, resp, outcome, ret)
  {
    StatusMeaning(req, files, outcome);
    LengthAgreement(req, files, outcome);
    CgiRoundTrip(req, files, outcome, ret.body);
    ProgramStatus(req, files, outcome);
    var (q, resp) := Build(req, files, outcome);
    if PossibleParts(Parts(resp), ret.heads) { HeadSentIff(resp, ret.heads); }
    BuildLine(req, files, outcome);
    StatusOnTheWire(req, files, outcome, ret);
  }

  lemma ProgramStatus(req: HttpRequest, files: Files, outcome: CgiOutcome)
    requires RunsProgram(req, files)
    ensures Build(req, files, outcome).1.statusCode == CgiCode(outcome)
  {
    ExamineMeaning(req, files);
  }

  /** The answer to a request that runs a program, for any conversation that came
      to its end and any results of the calls that send the answer. */
  lemma ProgramAnswers(req: HttpRequest, files: Files, capacity: nat, program: Option<string> -> CgiPipes.Run,
                       es: seq<CgiPipes.Event>, ret: Returns)
    requires RunsProgram(req, files) && Over(Talk(req, capacity, program), es)
    ensures var c := Talk(req, capacity, program);
      var (q, resp) := Build(req, files, OutcomeOf(c, es));
      && OutcomeFits(CourseOf(c, es), OutcomeOf(c, es), program(Delivered(req)))
      && Answered(q, resp, OutcomeOf(c, es), ret)
  {
    OutcomeIsRun(req, capacity, program, es);
    AnsweredByBuild(req, files, OutcomeOf(Talk(req, capacity, program), es), ret);
  }

  lemma ReachesRuns(wire: string, path: string, q: string, files: Files)
    requires Reaches(wire, path, q) && Stat(files, Rooted(path)).Some?
    ensures RunsProgram(Receive(wire).request, files) && Delivered(Receive(wire).request) == Some(q)
  {
    var req := Receive(wire).request;
    ArrivesIffDelivered(req, q);
    QuestionMarkCuts(req.uri);
  }

  /** From wire to wire: a query that reaches a program is answered by what the
      program does with exactly that query. */
  lemma QueryAnswered(wire: string, path: string, q: string, files: Files, capacity: nat,
                      program: Option<string> -> CgiPipes.Run, es: seq<CgiPipes.Event>, ret: Returns)
    requires Reaches(wire, path, q) && Stat(files, Rooted(path)).Some?
    requires Over(Talk(Receive(wire).request, capacity, program), es)
    ensures var c := Talk(Receive(wire).request, capacity, program);
      var (r, resp) := Build(Receive(wire).request, files, OutcomeOf(c, es));
      && OutcomeFits(CourseOf(c, es), OutcomeOf(c, es), program(Some(q)))
      && Answered(r, resp, OutcomeOf(c, es), ret)
  {
    ReachesRuns(wire, path, q, files);
    ProgramAnswers(Receive(wire).request, files, capacity, program, es, ret);
  }

  /** So a client reads a successful program's output for its query when the head
      goes out whole and the first `send` takes the whole output, which fits an
      `int`. */
  lemma QueryAnsweredAtOnce(wire: string, path: string, q: string, files: Files, capacity: nat,
                            program: Option<string> -> CgiPipes.Run, es: seq<CgiPipes.Event>, ret: Returns)
    requires Reaches(wire, path, q) && Stat(files, Rooted(path)).Some?
    requires CgiPipes.Finished(Talk(Receive(wire).request, capacity, program), es)
    requires program(Some(q)).ended == Exited(0) && |program(Some(q)).output| <= INT_MAX
    requires Possible(program(Some(q)).output, 0, ret.body)
    requires program(Some(q)).output != "" ==> ret.body[0] == |program(Some(q)).output|
    ensures var c := Talk(Receive(wire).request, capacity, program);
      var (r, resp) := Build(Receive(wire).request, files, OutcomeOf(c, es));
      PossibleParts(Parts(resp), ret.heads) && EachWhole(Parts(resp), ret.heads) ==>
        BodyReadBack(Sent(r, resp, ret), program(Some(q)).output)
  {
    QueryAnswered(wire, path, q, files, capacity, program, es, ret);
    FirstSendTakesAll(program(Some(q)).output, ret.body);
  }
}
