/** Which error a deliver group keeps when several peers fail: the one written last,
    and every failing peer may be the last to write. */
module DeliverErrors {
  import opened Wrappers
  import opened Counting
  import opened DeliverGroup

  /** The position of the last write to the error field. */
  function LastSet(steps: seq<Step>): (r: Option<nat>)
    ensures r.Some? ==> r.value < |steps| && steps[r.value].SetError?
  {
    if steps == [] then None
    else
      var n := |steps| - 1;
      if steps[n].SetError? then Some(n) else LastSet(steps[..n])
  }

  /** For every run the error is the one that the last SetError of the schedule
      wrote, and it is what that client's connection or stream gave. */
  lemma {:induction false} ErrorIsTheLastSet(env: Env, steps: seq<Step>)
    requires Run(env, steps).Some?
    ensures var s := Run(env, steps).value;
      match LastSet(steps)
      case None => s.error.None?
      case Some(k) =>
        var i := steps[k].i;
        && s.error.Some? && i < |env.clients| && ClientVerdict(env, s, i) == Bad(s.error.value)
        && Run(env, steps[..k]).Some?
        && var before := Run(env, steps[..k]).value;
        i < |before.pcs| && before.pcs[i] == Failing(s.error.value)
  {
    if steps != [] {
      var n := |steps| - 1;
      LastStep(env, steps);
      ErrorIsTheLastSet(env, steps[..n]);
      RunKeepsInv(env, steps[..n]);
      var s := Run(env, steps[..n]).value;
      ErrorAfterStep(env, s, steps[n]);
      if !steps[n].SetError? && LastSet(steps).Some? {
        assert steps[..n][..LastSet(steps).value] == steps[..LastSet(steps).value];
      }
    }
  }

  /** Only SetError writes the error, and the second phase starts without one. */
  lemma ErrorAfterStep(env: Env, s: State, step: Step)
    requires Inv(env, s) && Enabled(env, s, step)
    ensures var s' := Next(env, s, step);
      if step.SetError? then
        && s'.error == Some(s.pcs[step.i].error) && step.i < |env.clients|
        && ClientVerdict(env, s', step.i) == Bad(s'.error.value)
      else s'.error == s.error && (s.error.Some? ==> InWait(s'.main) == InWait(s.main))
  {
    hide Total;
    hide StreamVerdict;
    hide ErrorIsSomeClients;
    hide SpawnedSoFar;
    if step.SetError? {
      assert ClientOk(env, s, step.i);
    }
  }

  /** What Wait returns through the ready branch: nothing if nobody failed, and
      otherwise the error of the client that wrote last, whoever failed first. */
  lemma ReturnsTheLastError(env: Env, steps: seq<Step>)
    requires Run(env, steps).Some? && Run(env, steps).value.main.WaitReturned? && Run(env, steps).value.main.ready
    ensures var result := Run(env, steps).value.main.result;
      match LastSet(steps)
      case None => result.None?
      case Some(k) =>
        && result.Some? && steps[k].i < |env.clients|
        && StreamVerdict(env.clients[steps[k].i].stream, env.txid) == Bad(result.value)
  {
    RunKeepsInv(env, steps);
    ErrorIsTheLastSet(env, steps);
  }

  // ----- timeouts, and the error of a failed Connect

  ghost predicate TimesOut(steps: seq<Step>) { exists k :: 0 <= k < |steps| && steps[k].TimeOut? }

  lemma {:induction false} StreamsDoNotTimeOut(stream: seq<Event>, txid: string)
    ensures StreamVerdict(stream, txid) != Bad(TimedOut)
  {
    if stream != [] {
      if stream[0].FilteredBlock? {
        BlocksDoNotTimeOut(stream[0].txs, txid);
      }
      StreamsDoNotTimeOut(stream[1..], txid);
    }
  }

  lemma {:induction false} BlocksDoNotTimeOut(txs: seq<Tx>, txid: string)
    ensures BlockVerdict(txs, txid) != Bad(TimedOut)
  {
    if txs != [] {
      BlocksDoNotTimeOut(txs[1..], txid);
    }
  }

  lemma ErrorIsNoTimeOut(env: Env, s: State)
    requires Inv(env, s)
    ensures s.error != Some(TimedOut)
  {
    if s.error == Some(TimedOut) {
      var i :| 0 <= i < |env.clients| && ClientVerdict(env, s, i) == Bad(TimedOut);
      StreamsDoNotTimeOut(env.clients[i].stream, env.txid);
    }
  }

  /** What the caller was told, as long as no timeout has been taken. */
  ghost predicate ToldTheTruth(s: State) {
    && (s.main.ConnectFailed? ==> s.error == Some(s.main.error) && s.waiter.Closed?)
    && (s.main.WaitReturned? ==> s.main.ready)
  }

  lemma TruthAfterStep(env: Env, s: State, step: Step)
    requires Inv(env, s) && Enabled(env, s, step) && !step.TimeOut? && ToldTheTruth(s)
    ensures ToldTheTruth(Next(env, s, step))
  {
    hide Total;
    hide StreamVerdict;
    hide ErrorIsSomeClients;
    hide SpawnedSoFar;
    if step.SetError? {
      LiveMeansCounting(env, s, step.i);
    }
  }

  lemma {:induction false} TruthWithoutTimeOut(env: Env, steps: seq<Step>)
    requires Run(env, steps).Some? && !TimesOut(steps)
    ensures ToldTheTruth(Run(env, steps).value)
  {
    hide Next;
    hide Enabled;
    if steps == [] {
      NoSteps(env);
    } else {
      var n := |steps| - 1;
      LastStep(env, steps);
      assert !TimesOut(steps[..n]) by {
        assert forall k :: 0 <= k < n ==> steps[..n][k] == steps[k];
      }
      TruthWithoutTimeOut(env, steps[..n]);
      RunKeepsInv(env, steps[..n]);
      TruthAfterStep(env, Run(env, steps[..n]).value, steps[n]);
    }
  }

  /** A timeout is reported only by a call that took one. */
  lemma TimedOutOnlyByTimeOut(env: Env, steps: seq<Step>)
    requires Run(env, steps).Some?
    ensures var m := Run(env, steps).value.main;
      m == ConnectFailed(TimedOut) || (m.WaitReturned? && (m.result == Some(TimedOut) || !m.ready)) ==>
        TimesOut(steps)
  {
    hide Run;
    RunKeepsInv(env, steps);
    ErrorIsNoTimeOut(env, Run(env, steps).value);
    if !TimesOut(steps) {
      TruthWithoutTimeOut(env, steps);
    }
  }

  /** The error a peer gives by the way its connection fails. */
  predicate FailsToConnect(k: Connection, e: Error) {
    match e
    case CannotConnect(reason) => k == DialFails(reason)
    case CannotSend(reason) => k == SendFails(reason)
    case _ => false
  }

  /** Without a timeout a failed Connect reports the client that wrote last, and how
      its connection failed. */
  lemma ConnectReturnsTheLastError(env: Env, steps: seq<Step>)
    requires Run(env, steps).Some? && Run(env, steps).value.main.ConnectFailed? && !TimesOut(steps)
    ensures var k := LastSet(steps);
      && k.Some? && steps[k.value].i < |env.clients|
      && FailsToConnect(env.clients[steps[k.value].i].connection, Run(env, steps).value.main.error)
  {
    hide Run;
    TruthWithoutTimeOut(env, steps);
    ErrorIsTheLastSet(env, steps);
  }

  // ----- what makes a stream fail

  ghost predicate RejectsAt(txs: seq<Tx>, txid: string, k: int) {
    0 <= k < |txs| && txs[k] == Tx(txid, false) && forall m :: 0 <= m < k ==> txs[m].txid != txid
  }

  /** Whether an event ends a stream with this error. */
  ghost predicate EventFails(event: Event, txid: string, e: Error) {
    match e
    case CannotReceive(reason) => event == RecvError(reason)
    case Invalidated => event.FilteredBlock? && exists k :: RejectsAt(event.txs, txid, k)
    case EndedEarly(code) => event == Status(code)
    case UnexpectedType => event.Unknown?
    case _ => false
  }

  ghost predicate FailsAt(stream: seq<Event>, txid: string, e: Error, p: int) {
    0 <= p < |stream| && EventFails(stream[p], txid, e) && forall q :: 0 <= q < p ==> Silent(stream[q], txid)
  }

  /** What a failing stream looks like: blocks that do not mention the transaction,
      then the event the error reports. */
  lemma {:induction false} FailingStreamsMean(stream: seq<Event>, txid: string, e: Error)
    ensures StreamVerdict(stream, txid) == Bad(e) <==> exists p :: FailsAt(stream, txid, e, p)
  {
    hide Silent;
    hide EventFails;
    hide EventVerdict;
    if stream != [] {
      var rest := stream[1..];
      FailingEventMeans(stream[0], txid, e);
      FailingStreamsMean(rest, txid, e);
      if StreamVerdict(stream, txid) == Bad(e) {
        if EventVerdict(stream[0], txid).Pending? {
          var p :| FailsAt(rest, txid, e, p);
          assert FailsAt(stream, txid, e, p + 1);
        } else {
          assert FailsAt(stream, txid, e, 0);
        }
      }
      if p :| FailsAt(stream, txid, e, p) {
        if p > 0 {
          assert FailsAt(rest, txid, e, p - 1);
        }
      }
    }
  }

  lemma FailingEventMeans(event: Event, txid: string, e: Error)
    ensures EventVerdict(event, txid) == Bad(e) <==> EventFails(event, txid, e)
    ensures EventVerdict(event, txid).Pending? <==> Silent(event, txid)
  {
    EventVerdictMeans(event, txid);
    if event.FilteredBlock? {
      FailingBlockMeans(event.txs, txid);
    }
  }

  lemma {:induction false} FailingBlockMeans(txs: seq<Tx>, txid: string)
    ensures BlockVerdict(txs, txid) == Bad(Invalidated) <==> exists k :: RejectsAt(txs, txid, k)
    ensures BlockVerdict(txs, txid).Bad? ==> BlockVerdict(txs, txid) == Bad(Invalidated)
  {
    if txs != [] {
      FailingBlockMeans(txs[1..], txid);
      if txs[0].txid == txid {
        assert !txs[0].valid ==> RejectsAt(txs, txid, 0);
      } else {
        if k :| RejectsAt(txs, txid, k) {
          assert RejectsAt(txs[1..], txid, k - 1);
        }
        if k :| RejectsAt(txs[1..], txid, k) {
          assert RejectsAt(txs, txid, k + 1);
        }
      }
    }
  }

  // ----- every failing client may be the last

  predicate AllConnect(env: Env) { forall i :: 0 <= i < |env.clients| ==> env.clients[i].connection.Connects? }

  predicate AllDecide(env: Env) {
    forall i :: 0 <= i < |env.clients| ==> !StreamVerdict(env.clients[i].stream, env.txid).Pending?
  }

  /** Program points one client still has to pass. */
  function Left(env: Env, i: nat, pc: PC): int
    requires i < |env.clients|
  {
    match pc
    case Idle => 0
    case Dialing => 4
    case Sending => 3
    case Receiving(p) => |env.clients[i].stream| - p + 3
    case Failing(_) => 2
    case Exiting => 1
    case Done => 0
  }

  /** The error field after client `i` has run alone to its end. */
  function ErrorAfter(env: Env, s: State, i: nat): Option<Error>
    requires i < |s.pcs| == |env.clients|
  {
    match s.pcs[i]
    case Failing(e) => Some(e)
    case Receiving(_) =>
      (match StreamVerdict(env.clients[i].stream, env.txid)
       case Bad(e) => Some(e)
       case _ => s.error)
    case _ => s.error
  }

  /** The next step of a client that is running. */
  function StepOf(i: nat, pc: PC): Step {
    match pc
    case Dialing => Dial(i)
    case Sending => SendSeek(i)
    case Receiving(_) => Receive(i)
    case Failing(_) => SetError(i)
    case _ => Exit(i)
  }

  lemma ClientMoves(env: Env, s: State, i: nat)
    requires Inv(env, s) && AllConnect(env) && AllDecide(env) && i < |s.pcs| && !s.pcs[i].Idle? && !s.pcs[i].Done?
    ensures Enabled(env, s, StepOf(i, s.pcs[i]))
    ensures var s' := Next(env, s, StepOf(i, s.pcs[i]));
      && s'.main == s.main && s'.waiter == s.waiter && s'.pcs == s.pcs[i := s'.pcs[i]] && !s'.pcs[i].Idle?
      && 0 <= Left(env, i, s'.pcs[i]) < Left(env, i, s.pcs[i])
      && ErrorAfter(env, s', i) == ErrorAfter(env, s, i)
  {
    hide Total;
    hide ErrorIsSomeClients;
    hide SpawnedSoFar;
    assert ClientOk(env, s, i);
    if s.pcs[i].Receiving? {
    }
  }

  /** A running client can run to its end with all others standing still. */
  lemma {:induction false} ClientFinishes(env: Env, steps: seq<Step>, i: nat) returns (all: seq<Step>)
    requires Run(env, steps).Some? && AllConnect(env) && AllDecide(env)
    requires var s := Run(env, steps).value; i < |s.pcs| && !s.pcs[i].Idle?
    ensures Run(env, all).Some?
    ensures var s, s' := Run(env, steps).value, Run(env, all).value;
      && s'.main == s.main && s'.waiter == s.waiter && s'.pcs == s.pcs[i := Done] && s'.error == ErrorAfter(env, s, i)
    decreases var s := Run(env, steps).value; Left(env, i, s.pcs[i])
  {
    hide Run;
    hide Next;
    hide Enabled;
    hide Left;
    hide StreamVerdict;
    var s := Run(env, steps).value;
    RunKeepsInv(env, steps);
    if s.pcs[i].Done? {
      all := steps;
    } else {
      ClientMoves(env, s, i);
      var step := StepOf(i, s.pcs[i]);
      OneMoreStep(env, steps, step);
      all := ClientFinishes(env, steps + [step], i);
    }
  }

  /** All clients from `k` on run to their end, except `i` if it is among them. */
  lemma {:induction false} OthersFinish(env: Env, steps: seq<Step>, i: nat, k: nat) returns (all: seq<Step>)
    requires Run(env, steps).Some? && AllConnect(env) && AllDecide(env) && k <= |env.clients|
    requires var s := Run(env, steps).value;
      forall j :: 0 <= j < |s.pcs| ==> !s.pcs[j].Idle? && (j < k && j != i ==> s.pcs[j].Done?)
    ensures Run(env, all).Some?
    ensures var s, s' := Run(env, steps).value, Run(env, all).value;
      && s'.main == s.main && s'.waiter == s.waiter
      && forall j :: 0 <= j < |s'.pcs| ==> if j == i then s'.pcs[j] == s.pcs[j] else s'.pcs[j].Done?
    decreases |env.clients| - k
  {
    hide Run;
    if k == |env.clients| {
      all := steps;
    } else if k == i {
      all := OthersFinish(env, steps, i, k + 1);
    } else {
      var more := ClientFinishes(env, steps, k);
      all := OthersFinish(env, more, i, k + 1);
    }
  }

  /** The spawning loop of either phase runs through. */
  lemma {:induction false} SpawnsAll(env: Env, steps: seq<Step>) returns (all: seq<Step>)
    requires Run(env, steps).Some?
    requires var m := Run(env, steps).value.main; (m.ConnectSpawning? || m.WaitSpawning?) && m.k <= |env.clients|
    ensures Run(env, all).Some?
    ensures var s, s' := Run(env, steps).value, Run(env, all).value;
      && s'.main == (if s.main.ConnectSpawning? then ConnectSelect else WaitSelect) && s'.waiter == Blocked
      && var first := if s.main.ConnectSpawning? then Dialing else Receiving(0);
      forall j :: 0 <= j < |s'.pcs| ==> s'.pcs[j] == if j < s.main.k then s.pcs[j] else first
    decreases |env.clients| - Run(env, steps).value.main.k
  {
    hide Run;
    OneMoreStep(env, steps, Spawn);
    if Run(env, steps).value.main.k == |env.clients| {
      all := steps + [Spawn];
    } else {
      all := SpawnsAll(env, steps + [Spawn]);
    }
  }

  lemma AllDoneMeansZero(env: Env, s: State)
    requires Inv(env, s) && forall j :: 0 <= j < |s.pcs| ==> s.pcs[j].Done?
    ensures s.counter == 0
  {
    TotalIsZero(IsLive, s.pcs);
  }

  lemma ReachesConnected(env: Env) returns (steps: seq<Step>)
    requires AllConnect(env) && AllDecide(env)
    ensures Run(env, steps).Some? && Run(env, steps).value.main.Connected?
  {
    hide Run;
    assert Run(env, []) == Some(Init(env)) by { NoSteps(env); }
    steps := SpawnsAll(env, []);
    steps := OthersFinish(env, steps, |env.clients|, 0);
    RunKeepsInv(env, steps);
    AllDoneMeansZero(env, Run(env, steps).value);
    OneMoreStep(env, steps, CloseReady);
    steps := steps + [CloseReady];
    RunKeepsInv(env, steps);
    OneMoreStep(env, steps, TakeReady);
    steps := steps + [TakeReady];
  }

  lemma NoSteps(env: Env)
    ensures Run(env, []) == Some(Init(env))
  {
  }

  /** For every client whose stream fails there is a run in which its error, and no
      other, is what Wait returns. */
  lemma AnyFailureCanBeKept(env: Env, i: nat) returns (steps: seq<Step>)
    requires AllConnect(env) && AllDecide(env) && i < |env.clients|
    requires StreamVerdict(env.clients[i].stream, env.txid).Bad?
    ensures Run(env, steps).Some?
    ensures Run(env, steps).value.main
      == WaitReturned(Some(StreamVerdict(env.clients[i].stream, env.txid).error), true)
  {
    hide Run;
    hide StreamVerdict;
    steps := ReachesConnected(env);
    RunKeepsInv(env, steps);
    OneMoreStep(env, steps, StartWait);
    steps := SpawnsAll(env, steps + [StartWait]);
    steps := OthersFinish(env, steps, i, 0);
    steps := ClientFinishes(env, steps, i);
    RunKeepsInv(env, steps);
    AllDoneMeansZero(env, Run(env, steps).value);
    OneMoreStep(env, steps, CloseReady);
    OneMoreStep(env, steps + [CloseReady], TakeReady);
    steps := steps + [CloseReady] + [TakeReady];
  }

  /** A run that returned through the ready branch. */
  ghost predicate Completes(env: Env, steps: seq<Step>) {
    Run(env, steps).Some? && Run(env, steps).value.main.WaitReturned? && Run(env, steps).value.main.ready
  }

  ghost function ResultOf(env: Env, steps: seq<Step>): Option<Error>
    requires Completes(env, steps)
  {
    Run(env, steps).value.main.result
  }

  function VerdictOf(env: Env, i: nat): Verdict
    requires i < |env.clients|
  {
    StreamVerdict(env.clients[i].stream, env.txid)
  }

  predicate SameFailures(env: Env) {
    forall i: nat, j: nat ::
      i < |env.clients| && j < |env.clients| && VerdictOf(env, i).Bad? && VerdictOf(env, j).Bad? ==>
      VerdictOf(env, i) == VerdictOf(env, j)
  }

  lemma SomeClientsResult(env: Env, steps: seq<Step>)
    requires Completes(env, steps)
    ensures ResultOf(env, steps).None? <==> forall i: nat :: i < |env.clients| ==> VerdictOf(env, i).Valid?
    ensures ResultOf(env, steps).Some? ==>
      exists i: nat :: i < |env.clients| && VerdictOf(env, i) == Bad(ResultOf(env, steps).value)
  {
    WaitOutcome(env, steps);
    if ResultOf(env, steps).Some? {
      var i :| 0 <= i < |env.clients| &&
        StreamVerdict(env.clients[i].stream, env.txid) == Bad(ResultOf(env, steps).value);
      assert VerdictOf(env, i) == Bad(ResultOf(env, steps).value);
    } else {
      assert forall i: nat :: i < |env.clients| ==> VerdictOf(env, i) == StreamVerdict(env.clients[i].stream, env.txid);
    }
    if forall i: nat :: i < |env.clients| ==> VerdictOf(env, i).Valid? {
      assert forall i :: 0 <= i < |env.clients| ==> VerdictOf(env, i) == StreamVerdict(env.clients[i].stream, env.txid);
    }
  }

  /** The schedule cannot change what a completed Wait returns if and only if all
      failing streams fail alike. */
  lemma ResultIgnoresScheduleExactlyWhen(env: Env)
    requires AllConnect(env) && AllDecide(env)
    ensures (forall p, q :: Completes(env, p) && Completes(env, q) ==> ResultOf(env, p) == ResultOf(env, q))
      <==> SameFailures(env)
  {
    hide Run;
    hide StreamVerdict;
    if SameFailures(env) {
      forall p, q | Completes(env, p) && Completes(env, q) ensures ResultOf(env, p) == ResultOf(env, q) {
        SomeClientsResult(env, p);
        SomeClientsResult(env, q);
      }
    } else {
      var i: nat, j: nat :| i < |env.clients| && j < |env.clients| &&
        VerdictOf(env, i).Bad? && VerdictOf(env, j).Bad? && VerdictOf(env, i) != VerdictOf(env, j);
      var p := AnyFailureCanBeKept(env, i);
      var q := AnyFailureCanBeKept(env, j);
      assert Completes(env, p) && Completes(env, q) && ResultOf(env, p) != ResultOf(env, q);
    }
  }

  /** Two peers, one ending its stream early and one sending something unknown: the
      same call may report either. */
  lemma TwoPeersTwoErrors(txid: string) returns (env: Env, p: seq<Step>, q: seq<Step>)
    ensures env == Env([Client(Connects, [Status(500)]), Client(Connects, [Unknown])], txid)
    ensures Completes(env, p) && ResultOf(env, p) == Some(EndedEarly(500))
    ensures Completes(env, q) && ResultOf(env, q) == Some(UnexpectedType)
  {
    env := Env([Client(Connects, [Status(500)]), Client(Connects, [Unknown])], txid);
    assert StreamVerdict(env.clients[0].stream, txid) == Bad(EndedEarly(500));
    assert StreamVerdict(env.clients[1].stream, txid) == Bad(UnexpectedType);
    p := AnyFailureCanBeKept(env, 0);
    q := AnyFailureCanBeKept(env, 1);
  }
}
