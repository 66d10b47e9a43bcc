/** One request's parent and CGI child over two bounded pipes. The parent writes
    the whole body, then reads to the end of file, then waits; the child reads
    as many bytes as CONTENT_LENGTH says and only then writes, unless it ends
    before its time. Either side moves whenever it can, and a write may take any
    part of what it is given. */
module CgiPipes {
  import opened Responses

  datatype Run = Run(output: string, ended: Ended)

  /** `body` is what the parent has to send (nothing for a GET), `program` what
      the child does with the query it has read. */
  datatype Config = Config(capacity: nat, body: string, program: string -> Run)

  datatype Parent = Writing | Reading | Waiting | Done(code: int)

  /** How far a child came: not into its program, part of the way, or through. */
  datatype Course = NeverRan | Stopped | RanThrough

  datatype Child =
    | Starting
    | Consuming
    | Producing
    | Gone(ended: Ended, course: Course)

  datatype State = State(
    parent: Parent, total: nat,  // bytes of the body written so far
    down: string, up: string,    // the two pipes
    response: string,            // what the parent has read
    child: Child, got: string,   // what the child has read
    written: nat)                // bytes of the output written so far

  datatype Event =
    | ParentWrites(k: nat) | ParentWriteFails | ParentHasWritten
    | ParentReads | ParentSeesEof | ParentWaits
    | ChildExecs | ChildExecFails
    | ChildReads | ChildHasRead | ChildWrites(k: nat) | ChildExits
    | ChildStops(how: Ended) // leaves early or is killed

  const INIT := State(Writing, 0, "", "", "", Starting, "", 0)

  function Output(c: Config, s: State): string { c.program(s.got).output }

  predicate Enabled(c: Config, s: State, e: Event) {
    match e
    case ParentWrites(k) =>
      s.parent.Writing? && !s.child.Gone? && 1 <= k && s.total + k <= |c.body| && |s.down| + k <= c.capacity
    case ParentWriteFails => s.parent.Writing? && s.child.Gone? && s.total < |c.body|
    case ParentHasWritten => s.parent.Writing? && s.total >= |c.body|
    case ParentReads => s.parent.Reading? && s.up != ""
    case ParentSeesEof => s.parent.Reading? && s.up == "" && s.child.Gone?
    case ParentWaits => s.parent.Waiting? && s.child.Gone?
    case ChildExecs => s.child.Starting?
    case ChildExecFails => s.child.Starting?
    case ChildReads => s.child.Consuming? && |s.got| < |c.body| && s.down != ""
    case ChildHasRead => s.child.Consuming? && |s.got| >= |c.body|
    case ChildWrites(k) =>
      s.child.Producing? && 1 <= k && s.written + k <= |Output(c, s)| && |s.up| + k <= c.capacity
    case ChildExits => s.child.Producing? && s.written >= |Output(c, s)|
    case ChildStops(_) => s.child.Consuming? || s.child.Producing?
  }

  function Step(c: Config, s: State, e: Event): State
    requires Enabled(c, s, e)
  {
    match e
    case ParentWrites(k) => s.(down := s.down + c.body[s.total..s.total + k], total := s.total + k)
    case ParentWriteFails => s.(parent := Reading)
    case ParentHasWritten => s.(parent := Reading)
    case ParentReads => s.(response := s.response + [s.up[0]], up := s.up[1..])
    case ParentSeesEof => s.(parent := Waiting)
    case ParentWaits => s.(parent := Done(CgiCode(Ran(s.response, s.child.ended))))
    case ChildExecs => s.(child := Consuming)
    case ChildExecFails => s.(child := Gone(Exited(1), NeverRan))
    case ChildReads => s.(got := s.got + [s.down[0]], down := s.down[1..])
    case ChildHasRead => s.(child := Producing)
    case ChildWrites(k) => s.(up := s.up + Output(c, s)[s.written..s.written + k], written := s.written + k)
    case ChildExits => s.(child := Gone(c.program(s.got).ended, RanThrough))
    case ChildStops(how) => s.(child := Gone(how, Stopped))
  }

  predicate Runs(c: Config, s: State, es: seq<Event>)
    decreases |es|
  {
    es != [] ==> Enabled(c, s, es[0]) && Runs(c, Step(c, s, es[0]), es[1..])
  }

  function After(c: Config, s: State, es: seq<Event>): State
    requires Runs(c, s, es)
    decreases |es|
  {
    if es == [] then s else After(c, Step(c, s, es[0]), es[1..])
  }

  // ---------- What every step keeps ----------

  /** The body is what the child has, then what is in the pipe, then the rest. */
  predicate BodyFidelity(c: Config, s: State) {
    && s.total <= |c.body| && |s.down| <= c.capacity
    && c.body == s.got + s.down + c.body[s.total..]
  }

  predicate HasRead(s: State) { s.child.Producing? || (s.child.Gone? && s.child.course.RanThrough?) }

  predicate MayRead(s: State) { s.child.Starting? || s.child.Consuming? }

  /** The output is what the parent has, then what is in the pipe, then the rest. */
  predicate OutputFidelity(c: Config, s: State) {
    && s.written <= |Output(c, s)| && |s.up| <= c.capacity
    && Output(c, s) == s.response + s.up + Output(c, s)[s.written..]
    && (MayRead(s) || s.child == Gone(Exited(1), NeverRan) ==> s.written == 0)
    && (s.child.Gone? && s.child.course.RanThrough? ==>
          s.written == |Output(c, s)| && s.child.ended == c.program(s.got).ended)
  }

  predicate Phases(c: Config, s: State) {
    && (HasRead(s) || s.written > 0 ==> s.got == c.body)
    && (s.child.Gone? && s.child.course.NeverRan? ==> s.child == Gone(Exited(1), NeverRan))
    && (!s.parent.Writing? ==> s.total == |c.body| || (s.child.Gone? && !s.child.course.RanThrough?))
    && (s.parent.Waiting? || s.parent.Done? ==> s.child.Gone? && s.up == "")
    && (s.parent.Done? ==> s.parent.code == CgiCode(Ran(s.response, s.child.ended)))
  }

  predicate Inv(c: Config, s: State) {
    BodyFidelity(c, s) && OutputFidelity(c, s) && Phases(c, s)
  }

  /** k bytes go from the rest into the pipe. */
  lemma WriteMoves(whole: string, read: string, pipe: string, at: nat, k: nat)
    requires at + k <= |whole| && whole == read + pipe + whole[at..]
    ensures whole == read + (pipe + whole[at..at + k]) + whole[at + k..]
  {
    Split(whole, at, k);
    Regroup(read, pipe, whole[at..at + k], whole[at + k..]);
  }

  lemma Split(whole: string, at: nat, k: nat)
    requires at + k <= |whole|
    ensures whole[at..] == whole[at..at + k] + whole[at + k..]
  {}

  lemma Regroup(a: string, b: string, c: string, d: string)
    ensures a + b + (c + d) == a + (b + c) + d
  {}

  /** One byte goes from the pipe to the reader. */
  lemma ReadSplit(read: string, pipe: string)
    requires pipe != ""
    ensures read + pipe == (read + [pipe[0]]) + pipe[1..]
  {}

  lemma StepBody(c: Config, s: State, e: Event)
    requires BodyFidelity(c, s) && Enabled(c, s, e)
    ensures BodyFidelity(c, Step(c, s, e))
  {
    match e
    case ParentWrites(k) =>
      assert c.body == s.got + (s.down + c.body[s.total..s.total + k]) + c.body[s.total + k..] by {
        WriteMoves(c.body, s.got, s.down, s.total, k);
      }
    case ChildReads =>
      assert c.body == (s.got + [s.down[0]]) + s.down[1..] + c.body[s.total..] by {
        ReadSplit(s.got, s.down);
      }
    case _ =>
  }

  lemma StepOutput(c: Config, s: State, e: Event)
    requires OutputFidelity(c, s) && Enabled(c, s, e)
    ensures OutputFidelity(c, Step(c, s, e))
  {
    if e.ChildWrites? {
      OutputWritten(c, s, e.k);
    } else if e.ParentReads? {
      OutputRead(c, s);
    } else if e.ChildReads? {
      QueryGrows(c, s);
    } else {
      OutputAlone(c, s, Step(c, s, e));
    }
  }

  /** The other moves touch neither the query nor the way back. */
  lemma OutputAlone(c: Config, s: State, s': State)
    requires OutputFidelity(c, s)
    requires s'.got == s.got && s'.up == s.up && s'.response == s.response && s'.written == s.written
    requires s'.child.Gone? && s'.child.course.RanThrough? && s'.child != s.child ==>
      s.written == |Output(c, s)| && s'.child.ended == c.program(s.got).ended
    requires MayRead(s') || s'.child == Gone(Exited(1), NeverRan) ==> s.written == 0
    ensures OutputFidelity(c, s')
  {}

  lemma OutputWritten(c: Config, s: State, k: nat)
    requires OutputFidelity(c, s) && Enabled(c, s, ChildWrites(k))
    ensures OutputFidelity(c, Step(c, s, ChildWrites(k)))
  {
    var o, s' := Output(c, s), Step(c, s, ChildWrites(k));
    var chunk := o[s.written..s.written + k];
    assert s' == s.(up := s.up + chunk, written := s.written + k);
    assert |s'.up| <= c.capacity;
    assert o == s.response + (s.up + chunk) + o[s.written + k..] by {
      WriteMoves(o, s.response, s.up, s.written, k);
    }
  }

  lemma OutputRead(c: Config, s: State)
    requires OutputFidelity(c, s) && Enabled(c, s, ParentReads)
    ensures OutputFidelity(c, Step(c, s, ParentReads))
  {
    var o, s' := Output(c, s), Step(c, s, ParentReads);
    assert s' == s.(response := s.response + [s.up[0]], up := s.up[1..]);
    assert o == (s.response + [s.up[0]]) + s.up[1..] + o[s.written..] by {
      ReadSplit(s.response, s.up);
    }
  }

  /** While the child still reads, nothing of any output is on its way. */
  lemma QueryGrows(c: Config, s: State)
    requires OutputFidelity(c, s) && Enabled(c, s, ChildReads)
    ensures OutputFidelity(c, Step(c, s, ChildReads))
  {
    assert s.response == "" && s.up == "" && s.written == 0 by { Untouched(Output(c, s), s.response, s.up); }
    var s' := Step(c, s, ChildReads);
    var o := Output(c, s');
    assert s'.response == "" && s'.up == "" && s'.written == 0;
    assert o == "" + "" + o[0..] by { NothingAdded(o); }
  }

  lemma NothingAdded(o: string)
    ensures "" + "" + o[0..] == o
  {}

  /** Nothing written means nothing in the pipe and nothing read. */
  lemma Untouched(o: string, response: string, up: string)
    requires o == response + up + o[0..]
    ensures response == "" && up == ""
  {
    assert |o| == |response| + |up| + |o|;
  }

  lemma StepPhases(c: Config, s: State, e: Event)
    requires Inv(c, s) && Enabled(c, s, e)
    ensures Phases(c, Step(c, s, e))
  {
    if e.ChildHasRead? {
      assert |c.body| == |s.got| + |s.down| + |c.body[s.total..]|;
      assert s.down == "" && c.body[s.total..] == "";
      assert c.body == s.got;
    }
  }

  lemma StepInv(c: Config, s: State, e: Event)
    requires Inv(c, s) && Enabled(c, s, e)
    ensures Inv(c, Step(c, s, e))
  {
    StepBody(c, s, e);
    StepOutput(c, s, e);
    StepPhases(c, s, e);
  }

  lemma InitInv(c: Config)
    ensures Inv(c, INIT)
  {
    var o := Output(c, INIT);
    assert c.body[0..] == c.body && o[0..] == o;
  }

  // ---------- No deadlock, and an end ----------

  lemma NextMove(c: Config, s: State) returns (e: Event)
    requires Inv(c, s) && c.capacity >= 1 && !s.parent.Done?
    ensures Enabled(c, s, e) && !e.ChildExecFails? && !e.ChildStops?
  {
    match s.child
    case Starting => e := ChildExecs;
    case Consuming =>
      assert |c.body| == |s.got| + |s.down| + |c.body[s.total..]|;
      e := if |s.got| >= |c.body| then ChildHasRead
           else if s.down != "" then ChildReads
           else ParentWrites(1);
    case Producing =>
      assert |c.body| == |s.got| + |s.down| + |c.body[s.total..]|;
      e := if s.written >= |Output(c, s)| then ChildExits
           else if |s.up| < c.capacity then ChildWrites(1)
           else if s.parent.Reading? then ParentReads
           else ParentHasWritten;
    case Gone(_, _) =>
      e := match s.parent
           case Writing => if s.total < |c.body| then ParentWriteFails else ParentHasWritten
           case Reading => if s.up != "" then ParentReads else ParentSeesEof
           case _ => ParentWaits;
  }

  function ParentRank(p: Parent): nat {
    match p case Writing => 3 case Reading => 2 case Waiting => 1 case Done(_) => 0
  }

  function ChildRank(ch: Child): nat {
    match ch case Starting => 3 case Consuming => 2 case Producing => 1 case Gone(_, _) => 0
  }

  function OutputLeft(c: Config, s: State): int {
    if s.child.Gone? then 0 else |c.program(c.body).output| - s.written
  }

  /** Every byte is written once and read once. */
  function Measure(c: Config, s: State): int {
    2 * (|c.body| - s.total) + |s.down| + 2 * OutputLeft(c, s) + |s.up| + ParentRank(s.parent) + ChildRank(s.child)
  }

  lemma StepMeasure(c: Config, s: State, e: Event)
    requires Inv(c, s) && Enabled(c, s, e)
    ensures Measure(c, Step(c, s, e)) < Measure(c, s)
  {}

  lemma {:induction false} RunsKeepInv(c: Config, s: State, es: seq<Event>)
    requires Inv(c, s) && Runs(c, s, es)
    ensures Inv(c, After(c, s, es))
    ensures |es| + Measure(c, After(c, s, es)) <= Measure(c, s)
    decreases |es|
  {
    if es != [] {
      StepInv(c, s, es[0]);
      StepMeasure(c, s, es[0]);
      RunsKeepInv(c, Step(c, s, es[0]), es[1..]);
    }
  }

  // ---------- Main results ----------

  /** For any capacity, any body and any splitting of the writes: the two never
      both wait, they make at most a fixed number of moves, and at every moment
      no byte of either direction is lost, duplicated or reordered. */
  lemma NoDeadlock(c: Config, es: seq<Event>)
    requires c.capacity >= 1 && Runs(c, INIT, es)
    ensures var s := After(c, INIT, es);
      && ((forall e :: !Enabled(c, s, e)) <==> s.parent.Done?)
      && BodyFidelity(c, s) && OutputFidelity(c, s)
    ensures |es| <= 2 * |c.body| + 2 * |c.program(c.body).output| + 6
  {
    InitInv(c);
    RunsKeepInv(c, INIT, es);
    var s := After(c, INIT, es);
    if !s.parent.Done? {
      var e := NextMove(c, s);
      assert Enabled(c, s, e);
    }
  }

  /** At the end the parent has exactly what the child wrote, and its code tells
      how the child ended. A child that ran through has read exactly the body and
      written the whole output of its program; one that stopped early has read
      the start of the one and written the start of the other; one that could
      not start leaves an empty response and a 400. */
  lemma DataFidelity(c: Config, es: seq<Event>)
    requires Runs(c, INIT, es) && After(c, INIT, es).parent.Done?
    ensures var s := After(c, INIT, es);
      && s.child.Gone?
      && s.parent.code == CgiCode(Ran(s.response, s.child.ended))
      && match s.child.course
         case RanThrough => s.got == c.body && Run(s.response, s.child.ended) == c.program(c.body)
         case Stopped => s.got <= c.body && s.response <= c.program(c.body).output && |s.response| == s.written
         case NeverRan => s.response == "" && s.child.ended == Exited(1) && s.parent.code == BAD_REQUEST
  {
    InitInv(c);
    RunsKeepInv(c, INIT, es);
    var s := After(c, INIT, es);
    var o := Output(c, s);
    WrittenIsRead(o, s.response, s.up, s.written);
    if s.child.course.RanThrough? {
      assert o[..s.written] == o;
    }
  }

  lemma WrittenIsRead(o: string, response: string, up: string, written: nat)
    requires written <= |o| && up == "" && o == response + up + o[written..]
    ensures response == o[..written]
  {
    assert |o| == |response| + (|o| - written);
    assert response == (response + up + o[written..])[..|response|];
  }

  /** A conversation that came to its end, with a child that ran through. */
  predicate Finished(c: Config, es: seq<Event>) {
    && Runs(c, INIT, es)
    && After(c, INIT, es).parent.Done?
    && After(c, INIT, es).child.Gone? && After(c, INIT, es).child.course.RanThrough?
  }

  predicate OnCourse(s: State) { s.child.Gone? ==> s.child.course.RanThrough? }

  lemma {:induction false} RunOn(c: Config, s: State) returns (es: seq<Event>)
    requires Inv(c, s) && c.capacity >= 1 && OnCourse(s)
    ensures Runs(c, s, es) && After(c, s, es).parent.Done? && OnCourse(After(c, s, es))
    decreases Measure(c, s)
  {
    if s.parent.Done? {
      es := [];
    } else {
      var e := NextMove(c, s);
      StepInv(c, s, e);
      StepMeasure(c, s, e);
      MeasureIsNat(c, Step(c, s, e));
      var more := RunOn(c, Step(c, s, e));
      es := [e] + more;
      assert es[1..] == more;
    }
  }

  lemma MeasureIsNat(c: Config, s: State)
    requires Inv(c, s)
    ensures Measure(c, s) >= 0
  {}

  /** Neither side is held up by anything but an empty or a full pipe: a write may
      be as short or as long as the rest and the room allow, a child need not
      start, and once started may leave or be killed at any time. */
  lemma NothingElseWaits(c: Config, s: State)
    ensures s.parent.Writing? && !s.child.Gone? ==>
      forall k: nat :: 1 <= k <= c.capacity - |s.down| && k <= |c.body| - s.total ==> Enabled(c, s, ParentWrites(k))
    ensures s.child.Producing? ==>
      forall k: nat :: 1 <= k <= c.capacity - |s.up| && k <= |Output(c, s)| - s.written ==> Enabled(c, s, ChildWrites(k))
    ensures s.parent.Reading? ==> (Enabled(c, s, ParentReads) <==> s.up != "")
    ensures s.child.Consuming? && |s.got| < |c.body| ==> (Enabled(c, s, ChildReads) <==> s.down != "")
    ensures s.child.Starting? ==> Enabled(c, s, ChildExecs) && Enabled(c, s, ChildExecFails)
    ensures s.child.Consuming? || s.child.Producing? ==> forall how :: Enabled(c, s, ChildStops(how))
  {}

  /** For any body and program there is such a conversation. */
  lemma CanFinish(c: Config) returns (es: seq<Event>)
    requires c.capacity >= 1
    ensures Finished(c, es)
  {
    InitInv(c);
    es := RunOn(c, INIT);
    RunsKeepInv(c, INIT, es);
  }
}
