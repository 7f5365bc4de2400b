/** The tester's side of the conformance pipe protocol (src/conformance/fork_pipe_runner.cc),
    run against a testee that follows the protocol (src/conformance/conformance_cpp.cc). */
module ForkPipe {
  import opened Common
  import opened Wire

  const UINT32 := 0x1_0000_0000

  // ----- the testee and the pipes

  /** The bytes in the two pipes and in the testee's own buffers. A testee that has died makes
      no more steps; what it had not put into its pipe is never delivered. */
  datatype Channel = Channel(toChild: seq<Byte>, childIn: seq<Byte>, childOut: seq<Byte>, toTester: seq<Byte>,
                             served: nat, alive: bool)

  /** Read some bytes, serve one request, write some bytes, or die. */
  datatype ChildStep = Take(n: nat) | Serve | Put(n: nat) | Die

  /** A testee's response to its n-th request. */
  type Program = (nat, seq<Byte>) -> seq<Byte>

  function Min(a: nat, b: nat): nat {
    if a < b then a else b
  }

  /** A length, cut to 32 bits, and so many bytes. */
  function Frame(body: seq<Byte>): (r: seq<Byte>)
    ensures |r| == 4 + |body|
  {
    Fixed32(|body| % UINT32) + body
  }

  function BodySize(input: seq<Byte>): nat
    requires |input| >= 4
  {
    FromLittleEndian(input[..4])
  }

  predicate HasFrame(input: seq<Byte>) {
    |input| >= 4 && |input| - 4 >= BodySize(input)
  }

  function FirstBody(input: seq<Byte>): seq<Byte>
    requires HasFrame(input)
  {
    input[4..4 + BodySize(input)]
  }

  function AfterFrame(input: seq<Byte>): (r: seq<Byte>)
    requires HasFrame(input)
    ensures |r| < |input|
  {
    input[4 + BodySize(input)..]
  }

  function Step(program: Program, ch: Channel, step: ChildStep): Channel {
    if !ch.alive then ch else
    match step
    case Take(n) =>
      var m := Min(n, |ch.toChild|);
      ch.(toChild := ch.toChild[m..], childIn := ch.childIn + ch.toChild[..m])
    case Serve =>
      if !HasFrame(ch.childIn) then ch else
      ch.(childIn := AfterFrame(ch.childIn), served := ch.served + 1,
          childOut := ch.childOut + Frame(program(ch.served, FirstBody(ch.childIn))))
    case Put(n) =>
      var m := Min(n, |ch.childOut|);
      ch.(childOut := ch.childOut[m..], toTester := ch.toTester + ch.childOut[..m])
    case Die => ch.(alive := false)
  }

  function Steps(program: Program, ch: Channel, steps: seq<ChildStep>): Channel
    decreases |steps|
  {
    if steps == [] then ch else Steps(program, Step(program, ch, steps[0]), steps[1..])
  }

  // ----- what the testee's input amounts to

  datatype Digested = Digested(output: seq<Byte>, leftover: seq<Byte>, served: nat)

  /** The responses to all whole requests in the input, in order. */
  function Digest(program: Program, input: seq<Byte>, served: nat): Digested
    decreases |input|
  {
    if !HasFrame(input) then Digested([], input, served) else
      var d := Digest(program, AfterFrame(input), served + 1);
      d.(output := Frame(program(served, FirstBody(input))) + d.output)
  }

  /** All bytes the tester has still to get, wherever they are. */
  function Owed(program: Program, ch: Channel): Digested {
    var d := Digest(program, ch.childIn + ch.toChild, ch.served);
    d.(output := ch.toTester + ch.childOut + d.output)
  }

  lemma MoreAfterFrame(a: seq<Byte>, b: seq<Byte>)
    requires HasFrame(a)
    ensures HasFrame(a + b) && FirstBody(a + b) == FirstBody(a) && AfterFrame(a + b) == AfterFrame(a) + b
  {
    assert (a + b)[..4] == a[..4];
  }

  /** Input can be digested piece by piece. */
  lemma {:induction false} DigestMore(program: Program, a: seq<Byte>, b: seq<Byte>, served: nat)
    ensures var d := Digest(program, a, served);
      var e := Digest(program, d.leftover + b, d.served);
      Digest(program, a + b, served) == Digested(d.output + e.output, e.leftover, e.served)
    decreases |a|
  {
    if HasFrame(a) {
      MoreAfterFrame(a, b);
      DigestMore(program, AfterFrame(a), b, served + 1);
      var d := Digest(program, AfterFrame(a), served + 1);
      var e := Digest(program, d.leftover + b, d.served);
      Regroup(Frame(program(served, FirstBody(a))), d.output, e.output);
    } else {
      var e := Digest(program, a + b, served);
      assert [] + e.output == e.output;
    }
  }

  /** No step of the testee, its death included, changes what is owed. */
  lemma StepOwes(program: Program, ch: Channel, step: ChildStep)
    ensures Owed(program, Step(program, ch, step)) == Owed(program, ch)
  {
    var d := Step(program, ch, step);
    if ch.alive && step.Take? {
      assert d.childIn + d.toChild == ch.childIn + ch.toChild;
    } else if ch.alive && step.Serve? && HasFrame(ch.childIn) {
      MoreAfterFrame(ch.childIn, ch.toChild);
      var r := Frame(program(ch.served, FirstBody(ch.childIn)));
      var rest := Digest(program, d.childIn + d.toChild, d.served).output;
      assert ch.toTester + ch.childOut + (r + rest) == d.toTester + d.childOut + rest;
    } else if ch.alive && step.Put? {
      assert d.toTester + d.childOut == ch.toTester + ch.childOut;
    }
  }

  lemma {:induction false} StepsOwe(program: Program, ch: Channel, steps: seq<ChildStep>)
    ensures Owed(program, Steps(program, ch, steps)) == Owed(program, ch)
    decreases |steps|
  {
    if steps != [] {
      StepOwes(program, ch, steps[0]);
      StepsOwe(program, Step(program, ch, steps[0]), steps[1..]);
    }
  }

  // ----- the environment

  /** How a process ended, as waitpid reports it. */
  datatype Exit = Exited(code: int) | Signaled(signal: int)

  /** What a system call of the tester meets: Proceed(n) lets at most n bytes be read, and at
      least one. */
  datatype Outcome = Proceed(n: nat) | TimesOut | Fails

  datatype Event = Event(steps: seq<ChildStep>, outcome: Outcome, exit: Exit)

  /** The runner's fields, and all that its environment will do. Testees are numbered as they
      are spawned; the number stands for the process id. */
  datatype Runner = Runner(pid: int, spawned: nat, ch: Channel, env: seq<Event>)

  /** The behaviour of each testee. */
  type Programs = nat -> Program

  function ProgramOf(programs: Programs, s: Runner): Program {
    if s.pid < 0 then programs(0) else programs(s.pid)
  }

  function Next(s: Runner): Event {
    if s.env == [] then Event([], TimesOut, Signaled(3)) else s.env[0]
  }

  /** The testee's steps before the runner's next system call. */
  function Advance(programs: Programs, s: Runner): Runner {
    s.(ch := Steps(ProgramOf(programs, s), s.ch, Next(s).steps), env := if s.env == [] then [] else s.env[1..])
  }

  /** read(): None for end of file, an error or no data for thirty seconds. */
  function ReadOnce(programs: Programs, s: Runner, len: nat): (r: (Option<seq<Byte>>, Runner))
    requires len > 0
    ensures r.0.Some? ==> 0 < |r.0.value| <= len
  {
    var t := Advance(programs, s);
    if !Next(s).outcome.Proceed? || t.ch.toTester == [] then (None, t) else
      var n := Min(len, Min(|t.ch.toTester|, if Next(s).outcome.n == 0 then 1 else Next(s).outcome.n));
      (Some(t.ch.toTester[..n]), t.(ch := t.ch.(toTester := t.ch.toTester[n..])))
  }

  /** TryRead: short reads are put together. */
  function ReadAll(programs: Programs, s: Runner, len: nat): (Option<seq<Byte>>, Runner)
    decreases len
  {
    if len == 0 then (Some([]), s) else
      match ReadOnce(programs, s, len)
      case (None, t) => (None, t)
      case (Some(data), t) =>
        match ReadAll(programs, t, len - |data|)
        case (None, u) => (None, u)
        case (Some(more), u) => (Some(data + more), u)
  }

  /** write(): fails when the testee has died. */
  function WriteAll(programs: Programs, s: Runner, data: seq<Byte>): (bool, Runner) {
    var t := Advance(programs, s);
    if Next(s).outcome.Proceed? && t.ch.alive
    then (true, t.(ch := t.ch.(toChild := t.ch.toChild + data))) else (false, t)
  }

  datatype Error = NoError | TimeoutError | RuntimeError(status: int)

  datatype Result = Fatal | Answer(response: seq<Byte>) | Report(error: Error)

  /** An exit status of zero counts as a time-out; a signal leaves the response empty. */
  function ReportOf(exit: Exit): Result {
    match exit
    case Exited(code) => Report(if code == 0 then TimeoutError else RuntimeError(code))
    case Signaled(_) => Report(NoError)
  }

  function Spawned(s: Runner): Runner {
    s.(pid := s.spawned, spawned := s.spawned + 1, ch := Channel([], [], [], [], 0, true))
  }

  /** RunTest: a testee is started when there is none. */
  function Run(programs: Programs, s: Runner, request: seq<Byte>): (Result, Runner) {
    Exchange(programs, if s.pid < 0 then Spawned(s) else s, request)
  }

  function Exchange(programs: Programs, s: Runner, request: seq<Byte>): (Result, Runner) {
    var (ok, t) := Sent(programs, s, request);
    if ok then Received(programs, t) else (Fatal, t)
  }

  function Sent(programs: Programs, s: Runner, request: seq<Byte>): (bool, Runner) {
    var (ok, t) := WriteAll(programs, s, Fixed32(|request| % UINT32));
    if ok then WriteAll(programs, t, request) else (false, t)
  }

  /** Only a missing header is taken for a crash; a body cut short is fatal. */
  function Received(programs: Programs, s: Runner): (Result, Runner) {
    var (header, t) := ReadAll(programs, s, 4);
    if header.None? then (ReportOf(Next(t).exit), Advance(programs, t).(pid := -1)) else
    var (body, u) := ReadAll(programs, t, FromLittleEndian(header.value));
    if body.None? then (Fatal, u) else (Answer(body.value), u)
  }

  // ----- one call

  /** Between calls both pipes and the testee's buffers are empty. */
  predicate Idle(s: Runner) {
    s.pid >= 0 ==> s.pid + 1 == s.spawned && Drained(s.ch)
  }

  predicate Drained(ch: Channel) {
    ch.toChild == ch.childIn == ch.childOut == ch.toTester == []
  }

  /** A successful read gives exactly the next bytes owed, in order, and leaves the others. */
  lemma {:induction false} ReadExact(programs: Programs, s: Runner, len: nat)
    requires s.pid >= 0
    ensures var (r, t) := ReadAll(programs, s, len);
      var p := programs(s.pid);
      && t.pid == s.pid && t.spawned == s.spawned
      && (r.Some? ==> && |r.value| == len && Owed(p, t.ch).leftover == Owed(p, s.ch).leftover
                      && Owed(p, t.ch).served == Owed(p, s.ch).served
                      && r.value + Owed(p, t.ch).output == Owed(p, s.ch).output)
    decreases len
  {
    var p := programs(s.pid);
    if len == 0 {
      EmptyFirst(Owed(p, s.ch).output);
    } else {
      var (r, t) := ReadOnce(programs, s, len);
      ReadOnceExact(programs, s, len);
      if r.Some? {
        ReadExact(programs, t, len - |r.value|);
        var (more, u) := ReadAll(programs, t, len - |r.value|);
        if more.Some? { Regroup(r.value, more.value, Owed(p, u.ch).output); }
      }
    }
  }

  lemma EmptyFirst(s: seq<Byte>)
    ensures [] + s == s
  {
  }

  lemma ReadOnceExact(programs: Programs, s: Runner, len: nat)
    requires s.pid >= 0 && len > 0
    ensures var (r, t) := ReadOnce(programs, s, len);
      var p := programs(s.pid);
      && t.pid == s.pid && t.spawned == s.spawned
      && (r.Some? ==> && Owed(p, t.ch).leftover == Owed(p, s.ch).leftover
                      && Owed(p, t.ch).served == Owed(p, s.ch).served
                      && r.value + Owed(p, t.ch).output == Owed(p, s.ch).output)
  {
    var p := programs(s.pid);
    StepsOwe(p, s.ch, Next(s).steps);
    var a := Advance(programs, s);
    var (r, t) := ReadOnce(programs, s, len);
    if r.Some? {
      var rest := Digest(p, a.ch.childIn + a.ch.toChild, a.ch.served).output;
      assert a.ch.toTester == r.value + t.ch.toTester;
      Regroup(r.value, t.ch.toTester, t.ch.childOut);
      Regroup(r.value, t.ch.toTester + t.ch.childOut, rest);
    }
  }

  lemma WriteExact(programs: Programs, s: Runner, data: seq<Byte>)
    requires s.pid >= 0
    ensures var (ok, t) := WriteAll(programs, s, data);
      var p := programs(s.pid);
      var d := Owed(p, s.ch);
      var e := Digest(p, d.leftover + data, d.served);
      && t.pid == s.pid && t.spawned == s.spawned
      && (ok ==> Owed(p, t.ch) == Digested(d.output + e.output, e.leftover, e.served))
  {
    var p := programs(s.pid);
    StepsOwe(p, s.ch, Next(s).steps);
    var a := Advance(programs, s).ch;
    Regroup(a.childIn, a.toChild, data);
    DigestMore(p, a.childIn + a.toChild, data, a.served);
    var d := Digest(p, a.childIn + a.toChild, a.served);
    var e := Digest(p, d.leftover + data, d.served);
    Regroup(a.toTester + a.childOut, d.output, e.output);
  }

  lemma DigestFrame(program: Program, body: seq<Byte>, served: nat)
    requires |body| < UINT32
    ensures Digest(program, Frame(body), served) == Digested(Frame(program(served, body)), [], served + 1)
  {
    FrameParts(body);
    assert !HasFrame([]) && Digest(program, [], served + 1) == Digested([], [], served + 1);
    assert Frame(program(served, body)) + [] == Frame(program(served, body));
  }

  lemma FrameParts(body: seq<Byte>)
    requires |body| < UINT32
    ensures var f := Frame(body);
      HasFrame(f) && FirstBody(f) == body && AfterFrame(f) == []
  {
    PlainFrame(body);
    HeaderSize(|body|);
    HeaderParts(Fixed32(|body|), body);
  }

  lemma HeaderParts(header: seq<Byte>, body: seq<Byte>)
    requires |header| == 4
    ensures var f := header + body;
      f[..4] == header && f[4..] == body && f[4..4 + |body|] == body && f[4 + |body|..] == []
  {
  }

  lemma HeaderSize(n: nat)
    requires n < UINT32
    ensures FromLittleEndian(Fixed32(n)) == n
  {
    assert Pow256(4) == UINT32;
    FixedRoundTrip(n, 4);
  }

  /** When nothing is owed nothing is left anywhere. */
  lemma NothingOwed(program: Program, ch: Channel)
    requires Owed(program, ch).output == [] && Owed(program, ch).leftover == []
    ensures Drained(ch) && ch.served == Owed(program, ch).served
  {
    var input := ch.childIn + ch.toChild;
    assert Digest(program, input, ch.served).output == [];
    assert HasFrame(input) ==> |Digest(program, input, ch.served).output| >= 4;
    assert input == [];
  }

  /** After both writes exactly one response is owed. */
  lemma SentOwes(programs: Programs, s: Runner, request: seq<Byte>)
    requires s.pid >= 0 && Idle(s) && |request| < UINT32
    ensures var (ok, t) := Sent(programs, s, request);
      var p := programs(s.pid);
      && t.pid == s.pid && t.spawned == s.spawned
      && (ok ==> Owed(p, t.ch) == Digested(Frame(p(s.ch.served, request)), [], s.ch.served + 1))
  {
    var p, k, header := programs(s.pid), s.ch.served, Fixed32(|request| % UINT32);
    var (ok, t) := WriteAll(programs, s, header);
    WriteExact(programs, s, header);
    WriteExact(programs, t, request);
    assert Owed(p, s.ch) == Digested([], [], k) by { assert s.ch.childIn + s.ch.toChild == []; }
    EmptyFirst(header);
    EmptyFirst(Digest(p, header, k).output);
    DigestMore(p, header, request, k);
    DigestFrame(p, request, k);
  }

  /** The number of the testee a call will talk to, and of the request it will be there. */
  function Place(s: Runner): (nat, nat) {
    if s.pid < 0 then (s.spawned, 0) else (s.pid, s.ch.served)
  }

  /** An answer leaves the same testee for the next call, a report a new one. */
  function PlaceAfter(place: (nat, nat), r: Result): (nat, nat) {
    match r
    case Answer(_) => (place.0, place.1 + 1)
    case _ => (place.0 + 1, 0)
  }

  /** Every response is shorter than four gibibytes. */
  ghost predicate Small(programs: Programs) {
    forall c: nat, k: nat, q: seq<Byte> :: |programs(c)(k, q)| < UINT32
  }

  /** When one response is owed, reading its header and so many bytes gives that response and
      leaves nothing. */
  lemma ResponseRead(programs: Programs, s: Runner, response: seq<Byte>, served: nat)
    requires s.pid >= 0 && |response| < UINT32
    requires Owed(programs(s.pid), s.ch) == Digested(Frame(response), [], served)
    ensures var (r, t) := Received(programs, s);
      && t.spawned == s.spawned
      && (r.Answer? ==> r.response == response && t.pid == s.pid && Drained(t.ch) && t.ch.served == served)
      && (r.Report? ==> t.pid < 0)
  {
    var p := programs(s.pid);
    var (header, t) := ReadAll(programs, s, 4);
    ReadExact(programs, s, 4);
    if header.Some? {
      FirstFour(header.value, Owed(p, t.ch).output, response);
      ReadExact(programs, t, |response|);
      var (body, u) := ReadAll(programs, t, |response|);
      if body.Some? {
        AllRead(body.value, Owed(p, u.ch).output, response);
        NothingOwed(p, u.ch);
      }
    }
  }

  /** Whatever the testee and the system do, an answer is the response of the current testee to
      this very request, and the pipes are empty again; after a failed header the next call
      starts a new testee. */
  lemma RunSafe(programs: Programs, s: Runner, request: seq<Byte>)
    requires Idle(s) && |request| < UINT32 && Small(programs)
    ensures var (r, t) := Run(programs, s, request);
      var (c, k) := Place(s);
      && (r.Answer? ==> r.response == programs(c)(k, request) && t.pid == c && t.ch.served == k + 1)
      && (r.Report? ==> t.pid < 0)
      && (!r.Fatal? ==> Idle(t) && Place(t) == PlaceAfter(Place(s), r))
  {
    ExchangeSafe(programs, if s.pid < 0 then Spawned(s) else s, request);
  }

  lemma ExchangeSafe(programs: Programs, s: Runner, request: seq<Byte>)
    requires s.pid >= 0 && Idle(s) && |request| < UINT32 && Small(programs)
    ensures var (r, t) := Exchange(programs, s, request);
      && (r.Answer? ==> && r.response == programs(s.pid)(s.ch.served, request) && t.pid == s.pid
                        && t.spawned == s.spawned && Drained(t.ch) && t.ch.served == s.ch.served + 1)
      && (r.Report? ==> t.pid < 0 && t.spawned == s.spawned)
  {
    SentOwes(programs, s, request);
    var (ok, t) := Sent(programs, s, request);
    if ok {
      ResponseRead(programs, t, programs(s.pid)(s.ch.served, request), s.ch.served + 1);
    }
  }

  // ----- what each call gives

  /** A write succeeds exactly when the system call does and the testee is alive by then. */
  lemma WriteSucceeds(programs: Programs, s: Runner, data: seq<Byte>)
    ensures var (ok, t) := WriteAll(programs, s, data);
      var ch := Steps(ProgramOf(programs, s), s.ch, Next(s).steps);
      && (ok <==> Next(s).outcome.Proceed? && ch.alive)
      && t.ch == (if ok then ch.(toChild := ch.toChild + data) else ch)
  {
  }

  /** A read fails exactly when the system call does or the pipe is empty by then; otherwise it
      takes the first bytes of the pipe, at least one and no more than asked for. */
  lemma ReadOnceSplits(programs: Programs, s: Runner, len: nat)
    requires len > 0
    ensures var (r, t) := ReadOnce(programs, s, len);
      var ch := Steps(ProgramOf(programs, s), s.ch, Next(s).steps);
      && (r.None? <==> !Next(s).outcome.Proceed? || ch.toTester == [])
      && (r.None? ==> t.ch == ch)
      && (r.Some? ==> 0 < |r.value| <= len && r.value + t.ch.toTester == ch.toTester
                      && t.ch.(toTester := ch.toTester) == ch)
  {
  }

  lemma {:induction false} StepsKeepPipe(program: Program, ch: Channel, steps: seq<ChildStep>)
    ensures |Steps(program, ch, steps).toTester| >= |ch.toTester|
    decreases |steps|
  {
    if steps != [] { StepsKeepPipe(program, Step(program, ch, steps[0]), steps[1..]); }
  }

  /** Bytes that are in the pipe are read, however the reads are cut short. */
  lemma {:induction false} ReadSucceeds(programs: Programs, s: Runner, len: nat)
    requires |s.ch.toTester| >= len && |s.env| >= len
    requires forall i :: 0 <= i < len ==> s.env[i].outcome.Proceed?
    ensures ReadAll(programs, s, len).0.Some?
    decreases len
  {
    if len > 0 {
      StepsKeepPipe(ProgramOf(programs, s), s.ch, Next(s).steps);
      var (r, t) := ReadOnce(programs, s, len);
      ReadOnceSplits(programs, s, len);
      assert t.env == s.env[1..];
      ReadSucceeds(programs, t, len - |r.value|);
    }
  }

  /** Every result of a call. It ends the program exactly when a write fails or a body is missing
      after its header. When only the header is missing, it is a report of how the testee ended:
      an exit status of zero is a time-out, any other a runtime error with that status, and a
      signal no error at all. */
  lemma RunExact(programs: Programs, s: Runner, request: seq<Byte>)
    ensures var first := if s.pid < 0 then Spawned(s) else s;
      var (sized, s1) := WriteAll(programs, first, Fixed32(|request| % UINT32));
      var (sent, s2) := WriteAll(programs, s1, request);
      var (header, s3) := ReadAll(programs, s2, 4);
      var r := Run(programs, s, request).0;
      if !sized || !sent then r == Fatal
      else if header.None? then
        && r.Report? && Run(programs, s, request).1.pid < 0
        && (r.error == TimeoutError <==> Next(s3).exit == Exited(0))
        && (forall c :: r.error == RuntimeError(c) <==> Next(s3).exit == Exited(c) && c != 0)
        && (r.error == NoError <==> Next(s3).exit.Signaled?)
      else
        var body := ReadAll(programs, s3, FromLittleEndian(header.value)).0;
        r == if body.Some? then Answer(body.value) else Fatal
  {
  }

  /** A testee that dies before it has put anything into its pipe is reported by its exit status. */
  lemma DeathReported(programs: Programs, request: seq<Byte>, quiet: Event, death: Event, wait: Event)
    requires quiet.steps == [] && quiet.outcome.Proceed? && death.steps == [Die] && death.outcome.Proceed?
    ensures Run(programs, Runner(-1, 0, Channel([], [], [], [], 0, false), [quiet, quiet, death, wait]), request).0 ==
            Report(if wait.exit.Signaled? then NoError
                   else if wait.exit.code == 0 then TimeoutError else RuntimeError(wait.exit.code))
  {
    var env := [quiet, quiet] + [death, wait];
    assert env == [quiet, quiet, death, wait];
    RequestSent(programs, request, quiet, [death, wait]);
    var s := Runner(0, 1, Channel(Frame(request), [], [], [], 0, true), [death, wait]);
    var dead := s.ch.(alive := false);
    assert Steps(programs(0), s.ch, [Die]) == dead by {
      assert [Die][1..] == [];
      assert Step(programs(0), s.ch, Die) == dead && Steps(programs(0), dead, []) == dead;
    }
    assert s.env[1..] == [wait];
    assert ReadAll(programs, s, 4) == (None, s.(ch := dead, env := [wait]));
  }

  lemma FirstFour(header: seq<Byte>, rest: seq<Byte>, response: seq<Byte>)
    requires |header| == 4 && header + rest == Frame(response) && |response| < UINT32
    ensures FromLittleEndian(header) == |response| && rest == response
  {
    PlainFrame(response);
    SameSplit(header, rest, Fixed32(|response|), response);
    HeaderSize(|response|);
  }

  lemma PlainFrame(body: seq<Byte>)
    requires |body| < UINT32
    ensures Frame(body) == Fixed32(|body|) + body
  {
  }

  lemma SameSplit(a: seq<Byte>, b: seq<Byte>, c: seq<Byte>, d: seq<Byte>)
    requires |a| == |c| && a + b == c + d
    ensures a == c && b == d
  {
    assert a == (a + b)[..|a|] && b == (a + b)[|a|..];
    assert c == (c + d)[..|c|] && d == (c + d)[|c|..];
  }

  lemma AllRead(body: seq<Byte>, rest: seq<Byte>, response: seq<Byte>)
    requires |body| == |response| && body + rest == response
    ensures body == response && rest == []
  {
    assert |rest| == 0;
    assert body + rest == body;
  }

  // ----- answers are possible

  /** The testee takes the whole request, serves it and writes the whole response. */
  function Prompt(request: seq<Byte>, response: seq<Byte>): seq<ChildStep> {
    [Take(|Frame(request)|), Serve, Put(|Frame(response)|)]
  }

  lemma PromptServes(program: Program, ch: Channel, request: seq<Byte>, response: seq<Byte>)
    requires ch == Channel(Frame(request), [], [], [], 0, true) && |request| < UINT32
    requires response == program(0, request)
    ensures Steps(program, ch, Prompt(request, response)) == Channel([], [], [], Frame(response), 1, true)
  {
    FrameParts(request);
    var a := Step(program, ch, Take(|Frame(request)|));
    EmptyFirst(Frame(request));
    assert a == Channel([], Frame(request), [], [], 0, true);
    var b := Step(program, a, Serve);
    EmptyFirst(Frame(response));
    assert b == Channel([], [], Frame(response), [], 1, true);
    var c := Step(program, b, Put(|Frame(response)|));
    assert c == Channel([], [], [], Frame(response), 1, true);
    var steps := Prompt(request, response);
    assert steps[1..] == [Serve, Put(|Frame(response)|)] && steps[1..][1..] == [Put(|Frame(response)|)];
    assert steps[1..][1..][1..] == [];
    assert Steps(program, c, []) == c;
    assert Steps(program, b, steps[1..][1..]) == c;
    assert Steps(program, a, steps[1..]) == c;
  }

  /** A read of everything there is, by one call of read(). */
  lemma OneRead(programs: Programs, s: Runner, data: seq<Byte>, rest: seq<Byte>)
    requires Next(s).outcome == Proceed(|data|) && Advance(programs, s).ch.toTester == data + rest && data != []
    ensures var t := Advance(programs, s);
      ReadAll(programs, s, |data|) == (Some(data), t.(ch := t.ch.(toTester := rest)))
  {
    var t := Advance(programs, s);
    assert (data + rest)[..|data|] == data && (data + rest)[|data|..] == rest;
    assert data + [] == data;
    assert ReadOnce(programs, s, |data|) == (Some(data), t.(ch := t.ch.(toTester := rest)));
  }

  lemma QuietWrite(programs: Programs, s: Runner, data: seq<Byte>)
    requires s.pid == 0 && s.ch.alive && s.env != [] && s.env[0].steps == [] && s.env[0].outcome.Proceed?
    ensures WriteAll(programs, s, data) ==
            (true, s.(ch := s.ch.(toChild := s.ch.toChild + data), env := s.env[1..]))
  {
  }

  lemma RequestSent(programs: Programs, request: seq<Byte>, quiet: Event, rest: seq<Event>)
    requires quiet.steps == [] && quiet.outcome.Proceed?
    ensures Sent(programs, Runner(0, 1, Channel([], [], [], [], 0, true), [quiet, quiet] + rest), request) ==
            (true, Runner(0, 1, Channel(Frame(request), [], [], [], 0, true), rest))
  {
    var header := Fixed32(|request| % UINT32);
    var s := Runner(0, 1, Channel([], [], [], [], 0, true), [quiet, quiet] + rest);
    EmptyFirst(header);
    assert s.env[1..] == [quiet] + rest && ([quiet] + rest)[1..] == rest;
    QuietWrite(programs, s, header);
    QuietWrite(programs, Runner(0, 1, Channel(header, [], [], [], 0, true), [quiet] + rest), request);
  }

  lemma ResponseReceived(programs: Programs, request: seq<Byte>, busy: Event, last: Event)
    requires |request| < UINT32 && |programs(0)(0, request)| < UINT32
    requires busy.steps == Prompt(request, programs(0)(0, request)) && busy.outcome == Proceed(4)
    requires last.steps == [] && last.outcome == Proceed(|programs(0)(0, request)|)
    ensures Received(programs, Runner(0, 1, Channel(Frame(request), [], [], [], 0, true), [busy, last])).0 ==
            Answer(programs(0)(0, request))
  {
    var response := programs(0)(0, request);
    var s := Runner(0, 1, Channel(Frame(request), [], [], [], 0, true), [busy, last]);
    PromptServes(programs(0), s.ch, request, response);
    assert s.env[1..] == [last];
    PlainFrame(response);
    OneRead(programs, s, Fixed32(|response|), response);
    HeaderSize(|response|);
    if response != [] {
      assert response + [] == response;
      OneRead(programs, Runner(0, 1, Channel([], [], [], response, 1, true), [last]), response, []);
    }
  }

  /** Every request has an environment in which it is answered. */
  lemma AnswerPossible(programs: Programs, request: seq<Byte>) returns (env: seq<Event>)
    requires |request| < UINT32 && |programs(0)(0, request)| < UINT32
    ensures Run(programs, Runner(-1, 0, Channel([], [], [], [], 0, false), env), request).0 ==
            Answer(programs(0)(0, request))
  {
    var response := programs(0)(0, request);
    var quiet := Event([], Proceed(0), Signaled(0));
    var busy := Event(Prompt(request, response), Proceed(4), Signaled(0));
    var last := Event([], Proceed(|response|), Signaled(0));
    env := [quiet, quiet] + [busy, last];
    RequestSent(programs, request, quiet, [busy, last]);
    ResponseReceived(programs, request, busy, last);
  }

  // ----- whole runs

  /** The results of a run of calls, up to a fatal one. */
  function RunMany(programs: Programs, s: Runner, requests: seq<seq<Byte>>): (results: seq<Result>)
    ensures |results| <= |requests|
    decreases |requests|
  {
    if requests == [] then [] else
      var (r, t) := Run(programs, s, requests[0]);
      if r.Fatal? then [r] else [r] + RunMany(programs, t, requests[1..])
  }

  /** The place of the call after the given results, counted from the results alone. */
  function PlaceOf(start: (nat, nat), results: seq<Result>): (nat, nat)
    decreases |results|
  {
    if results == [] then start else PlaceOf(PlaceAfter(start, results[0]), results[1..])
  }

  /** Over every run each answer is that of the testee and the turn the earlier results tell:
      no response is ever taken for that of another request. */
  lemma {:induction false} RunsSafe(programs: Programs, s: Runner, requests: seq<seq<Byte>>, i: nat)
    requires Idle(s) && Small(programs) && forall j :: 0 <= j < |requests| ==> |requests[j]| < UINT32
    requires i < |RunMany(programs, s, requests)|
    ensures var results := RunMany(programs, s, requests);
      var (c, k) := PlaceOf(Place(s), results[..i]);
      results[i].Answer? ==> results[i].response == programs(c)(k, requests[i])
    decreases |requests|
  {
    var (r, t) := Run(programs, s, requests[0]);
    var results := RunMany(programs, s, requests);
    RunSafe(programs, s, requests[0]);
    if i > 0 {
      RunsSafe(programs, t, requests[1..], i - 1);
      assert results[..i] == [r] + RunMany(programs, t, requests[1..])[..i - 1];
    }
  }

  // ----- the class

  /** What has been read, and what is still to be read from here, make up the whole. */
  ghost predicate Goes(programs: Programs, start: Runner, size: nat, sofar: seq<Byte>, now: Runner, len: nat) {
    var (r, t) := ReadAll(programs, start, size);
    var (rest, u) := ReadAll(programs, now, len);
    t == u && (r.Some? <==> rest.Some?) && (r.Some? ==> r.value == sofar + rest.value)
  }

  lemma GoesOn(programs: Programs, start: Runner, size: nat, sofar: seq<Byte>, now: Runner, len: nat, got: seq<Byte>)
    requires len > 0 && Goes(programs, start, size, sofar, now, len)
    requires ReadOnce(programs, now, len).0.Some? ==> got == sofar + ReadOnce(programs, now, len).0.value
    ensures var (r, t) := ReadOnce(programs, now, len);
      if r.None? then ReadAll(programs, start, size) == (None, t)
      else Goes(programs, start, size, got, t, len - |r.value|)
  {
    var (r, t) := ReadOnce(programs, now, len);
    if r.Some? {
      var (more, u) := ReadAll(programs, t, len - |r.value|);
      if more.Some? { Regroup(sofar, r.value, more.value); }
    }
  }

  lemma GoesFromStart(programs: Programs, start: Runner, size: nat)
    ensures Goes(programs, start, size, [], start, size)
  {
    var (r, t) := ReadAll(programs, start, size);
    if r.Some? { EmptyFirst(r.value); }
  }

  lemma GoesToEnd(programs: Programs, start: Runner, size: nat, sofar: seq<Byte>, now: Runner)
    requires Goes(programs, start, size, sofar, now, 0)
    ensures ReadAll(programs, start, size) == (Some(sofar), now)
  {
    assert sofar + [] == sofar;
  }

  class ForkPipeRunner {
    const programs: Programs
    var childPid: int
    /** What the two descriptors and the process id refer to. */
    var spawned: nat
    var ch: Channel
    var env: seq<Event>

    constructor (programs: Programs, env: seq<Event>)
      ensures this.programs == programs && childPid < 0 && spawned == 0 && this.env == env && Idle(Now())
    {
      this.programs := programs;
      childPid, spawned, ch, this.env := -1, 0, Channel([], [], [], [], 0, true), env;
    }

    function Now(): Runner
      reads this
    {
      Runner(childPid, spawned, ch, env)
    }

    method SpawnTestProgram()
      modifies this
      ensures Now() == Spawned(old(Now()))
    {
      childPid := spawned;
      spawned := spawned + 1;
      ch := Channel([], [], [], [], 0, true);
    }

    /** The testee runs; what comes of the next system call. */
    method Wait() returns (event: Event)
      modifies `ch, `env
      ensures event == Next(old(Now())) && Now() == Advance(programs, old(Now()))
    {
      event := Next(Now());
      ch := Steps(ProgramOf(programs, Now()), ch, event.steps);
      env := if env == [] then [] else env[1..];
    }

    method CheckedWrite(data: seq<Byte>) returns (ok: bool)
      modifies `ch, `env
      ensures (ok, Now()) == WriteAll(programs, old(Now()), data)
    {
      var event := Wait();
      ok := event.outcome.Proceed? && ch.alive;
      if ok { ch := ch.(toChild := ch.toChild + data); }
    }

    method Read(buf: array<Byte>, ofs: nat, len: nat) returns (timeout: bool, bytesRead: int)
      requires len > 0 && ofs + len <= buf.Length
      modifies `ch, `env, buf
      ensures var (r, t) := ReadOnce(programs, old(Now()), len);
        && Now() == t && (r.Some? <==> !timeout && bytesRead > 0)
        && (r.Some? ==> bytesRead == |r.value| && buf[..ofs + bytesRead] == old(buf[..ofs]) + r.value)
    {
      var event := Wait();
      timeout, bytesRead := false, 0;
      if event.outcome.Fails? {
        bytesRead := -1;
      } else if event.outcome.TimesOut? || (ch.toTester == [] && ch.alive) {
        timeout := true;
      } else if ch.toTester != [] {
        var n := Min(len, Min(|ch.toTester|, if event.outcome.n == 0 then 1 else event.outcome.n));
        var data := ch.toTester[..n];
        ghost var before := buf[..ofs];
        forall i | 0 <= i < n { buf[ofs + i] := data[i]; }
        assert buf[..ofs] == before && buf[ofs..ofs + n] == data;
        assert buf[..ofs + n] == buf[..ofs] + buf[ofs..ofs + n];
        ch := ch.(toTester := ch.toTester[n..]);
        bytesRead := n;
      }
    }

    method TryRead(buf: array<Byte>, size: nat) returns (ok: bool)
      requires size <= buf.Length
      modifies `ch, `env, buf
      ensures var (r, t) := ReadAll(programs, old(Now()), size);
        Now() == t && (ok <==> r.Some?) && (ok ==> buf[..size] == r.value)
    {
      var ofs, len := 0, size;
      ghost var start, sofar: seq<Byte> := Now(), [];
      GoesFromStart(programs, start, size);
      while len > 0
        invariant 0 <= len <= size && ofs + len == size && sofar == buf[..ofs]
        invariant Goes(programs, start, size, sofar, Now(), len)
      {
        ghost var now, before := Now(), sofar;
        var timeout, bytesRead := Read(buf, ofs, len);
        if !timeout && bytesRead > 0 { sofar := buf[..ofs + bytesRead]; }
        GoesOn(programs, start, size, before, now, len, sofar);
        if timeout { return false; }
        if bytesRead == 0 {
          return false;
        } else if bytesRead < 0 {
          return false;
        }
        len := len - bytesRead;
        ofs := ofs + bytesRead;
      }
      GoesToEnd(programs, start, size, sofar, Now());
      return true;
    }

    /** Ends the program when it fails. */
    method CheckedRead(buf: array<Byte>, size: nat) returns (ok: bool)
      requires size <= buf.Length
      modifies `ch, `env, buf
      ensures var (r, t) := ReadAll(programs, old(Now()), size);
        Now() == t && (ok <==> r.Some?) && (ok ==> buf[..size] == r.value)
    {
      ok := TryRead(buf, size);
    }

    method SendRequest(request: seq<Byte>) returns (ok: bool)
      modifies `ch, `env
      ensures (ok, Now()) == Sent(programs, old(Now()), request)
    {
      ok := CheckedWrite(Fixed32(|request| % UINT32));
      if ok { ok := CheckedWrite(request); }
    }

    method ReceiveResponse() returns (result: Result)
      modifies this
      ensures (result, Now()) == Received(programs, old(Now()))
    {
      var len := new Byte[4](_ => 0);
      var ok := TryRead(len, 4);
      if !ok {
        var event := Wait();
        childPid := -1;
        return ReportOf(event.exit);
      }
      var response := new Byte[FromLittleEndian(len[..4])](_ => 0);
      ok := CheckedRead(response, response.Length);
      if !ok { return Fatal; }
      return Answer(response[..response.Length]);
    }

    /** A fatal error ends the tester's program. */
    method RunTest(request: seq<Byte>) returns (result: Result)
      modifies this
      ensures (result, Now()) == Run(programs, old(Now()), request)
    {
      if childPid < 0 { SpawnTestProgram(); }
      var ok := SendRequest(request);
      if !ok { return Fatal; }
      result := ReceiveResponse();
    }
  }
}
