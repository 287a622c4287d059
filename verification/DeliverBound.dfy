/** How many steps any schedule of a deliver group can take. */
module DeliverBound {
  import opened Wrappers
  import opened Counting
  import opened DeliverGroup

  function LongestStream(clients: seq<Client>): nat {
    if clients == [] then 0
    else
      var l := LongestStream(clients[1..]);
      if |clients[0].stream| > l then |clients[0].stream| else l
  }

  lemma {:induction false} NoStreamIsLonger(clients: seq<Client>, i: nat)
    requires i < |clients|
    ensures |clients[i].stream| <= LongestStream(clients)
  {
    if i > 0 {
      NoStreamIsLonger(clients[1..], i - 1);
    }
  }

  /** Steps a client may still take, when no stream has more than `l` events. */
  function PointsLeft(l: nat): PC -> nat {
    (pc: PC) => match pc
      case Idle => l + 5
      case Dialing => 4
      case Sending => 3
      case Receiving(p) => (if p <= l then l - p else 0) + 3
      case Failing(_) => 2
      case Exiting => 1
      case Done => 0
  }

  /** The caller's own steps, and the second phase if it is still to come. */
  function MainLeft(env: Env, m: Main): nat {
    var phase := |env.clients| * (LongestStream(env.clients) + 5);
    match m
    case ConnectSpawning(_) => phase + 8
    case ConnectSelect => phase + 6
    case Connected => phase + 5
    case ConnectFailed(_) => 0
    case WaitSpawning(_) => 3
    case WaitSelect => 1
    case WaitReturned(_, _) => 0
  }

  function Remaining(env: Env, s: State): nat {
    Total(PointsLeft(LongestStream(env.clients)), s.pcs) + MainLeft(env, s.main) + (if s.waiter.Blocked? then 1 else 0)
  }

  lemma EveryStepCounts(env: Env, s: State, step: Step)
    requires Inv(env, s) && Enabled(env, s, step)
    ensures Remaining(env, Next(env, s, step)) < Remaining(env, s)
  {
    hide Total;
    hide StreamVerdict;
    hide ErrorIsSomeClients;
    var l := LongestStream(env.clients);
    match step
    case Spawn =>
      var k, s' := s.main.k, Next(env, s, step);
      if k < |s.pcs| {
        TotalAfterUpdate(PointsLeft(l), s.pcs, k, s'.pcs[k]);
      }
    case StartWait => SecondPhaseCounts(env, s);
    case CloseReady =>
    case TakeReady =>
    case TimeOut =>
    case _ => ClientStepCounts(env, s, step);
  }

  lemma ClientStepCounts(env: Env, s: State, step: Step)
    requires Inv(env, s) && Enabled(env, s, step)
    requires step.Dial? || step.SendSeek? || step.Receive? || step.SetError? || step.Exit?
    ensures Remaining(env, Next(env, s, step)) < Remaining(env, s)
  {
    hide Total;
    hide ErrorIsSomeClients;
    hide SpawnedSoFar;
    hide WaiterOk;
    hide MainLeft;
    var l, i := LongestStream(env.clients), step.i;
    NoStreamIsLonger(env.clients, i);
    assert ClientOk(env, s, i);
    var s' := Next(env, s, step);
    assert s' == s.(pcs := s.pcs[i := s'.pcs[i]], counter := s'.counter, error := s'.error,
                    connected := s'.connected, panicked := s'.panicked);
    TotalAfterUpdate(PointsLeft(l), s.pcs, i, s'.pcs[i]);
  }

  lemma SecondPhaseCounts(env: Env, s: State)
    requires Inv(env, s) && s.main.Connected?
    ensures Remaining(env, Next(env, s, StartWait)) < Remaining(env, s)
  {
    var l := LongestStream(env.clients);
    if |s.pcs| > 0 {
      TotalOfSame(PointsLeft(l), Next(env, s, StartWait).pcs, l + 5);
    }
  }

  /** How long any schedule can be: the streams are finite. */
  function Bound(env: Env): nat { 2 * (|env.clients| * (LongestStream(env.clients) + 5)) + 8 }

  lemma {:induction false} RunsAreBounded(env: Env, steps: seq<Step>)
    requires Run(env, steps).Some?
    ensures |steps| + Remaining(env, Run(env, steps).value) <= Bound(env)
  {
    hide Next;
    hide Enabled;
    hide Remaining;
    hide Bound;
    if steps == [] {
      InitialBound(env);
    } else {
      var n := |steps| - 1;
      LastStep(env, steps);
      RunsAreBounded(env, steps[..n]);
      RunKeepsInv(env, steps[..n]);
      EveryStepCounts(env, Run(env, steps[..n]).value, steps[n]);
    }
  }

  lemma InitialBound(env: Env)
    ensures Remaining(env, Init(env)) == Bound(env)
  {
    TotalOfSame(PointsLeft(LongestStream(env.clients)), Init(env).pcs, LongestStream(env.clients) + 5);
  }
}
