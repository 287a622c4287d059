/** The deliver group as a small-step system: one goroutine per peer in each of two
    phases, a wait group used twice, a goroutine that closes the ready channel, and
    a caller that waits for that channel or for its context. What each peer does is
    fixed but unknown; the schedule and the timeouts are arbitrary. */
module DeliverGroup {
  import opened Wrappers
  import opened Counting

  datatype Tx = Tx(txid: string, valid: bool)

  datatype Event =
    | RecvError(error: string)
    | FilteredBlock(txs: seq<Tx>)
    | Status(code: int)
    | Unknown

  datatype Error =
    | CannotConnect(e: string)
    | CannotSend(e: string)
    | CannotReceive(e: string)
    | Invalidated
    | EndedEarly(code: int)
    | UnexpectedType
    | TimedOut

  datatype Connection = Connects | DialFails(e: string) | SendFails(e: string) | Hangs

  /** A peer: how connecting goes, and the events its stream then delivers. */
  datatype Client = Client(connection: Connection, stream: seq<Event>)

  datatype Env = Env(clients: seq<Client>, txid: string)

  // ----- what a stream says about the transaction

  datatype Verdict = Pending | Valid | Bad(error: Error)

  /** The first entry for the transaction in a block decides. */
  function BlockVerdict(txs: seq<Tx>, txid: string): Verdict {
    if txs == [] then Pending
    else if txs[0].txid == txid then (if txs[0].valid then Valid else Bad(Invalidated))
    else BlockVerdict(txs[1..], txid)
  }

  function EventVerdict(e: Event, txid: string): Verdict {
    match e
    case RecvError(err) => Bad(CannotReceive(err))
    case FilteredBlock(txs) => BlockVerdict(txs, txid)
    case Status(code) => Bad(EndedEarly(code))
    case Unknown => Bad(UnexpectedType)
  }

  /** Valid exactly when the transaction arrives as valid before anything else
      that ends the stream. */
  function StreamVerdict(stream: seq<Event>, txid: string): Verdict {
    if stream == [] then Pending
    else
      var v := EventVerdict(stream[0], txid);
      if v.Pending? then StreamVerdict(stream[1..], txid) else v
  }

  function ConnectVerdict(k: Connection): Verdict {
    match k
    case Connects => Valid
    case DialFails(e) => Bad(CannotConnect(e))
    case SendFails(e) => Bad(CannotSend(e))
    case Hangs => Pending
  }

  /** One client's goroutines on the shared error field, as the loops run. */
  class Group {
    var error: Option<Error>

    constructor ()
      ensures error.None?
    {
      error := None;
    }

    method SetError(e: Error)
      modifies this
      ensures error == Some(e)
    {
      error := Some(e);
    }

    /** Receives until the stream decides; `done` is false when it blocks instead. */
    method ClientWait(stream: seq<Event>, txid: string) returns (done: bool)
      modifies this
      ensures done <==> !StreamVerdict(stream, txid).Pending?
      ensures error == match StreamVerdict(stream, txid) { case Bad(e) => Some(e) case _ => old(error) }
    {
      var pos := 0;
      assert stream[0..] == stream;
      while pos < |stream|
        invariant pos <= |stream|
        invariant StreamVerdict(stream[pos..], txid) == StreamVerdict(stream, txid)
        invariant error == old(error)
      {
        assert stream[pos..][1..] == stream[pos + 1..];
        match stream[pos] {
          case RecvError(e) =>
            SetError(CannotReceive(e));
            return true;
          case FilteredBlock(txs) =>
            assert txs[0..] == txs;
            for k := 0 to |txs|
              invariant BlockVerdict(txs[k..], txid) == BlockVerdict(txs, txid)
              invariant error == old(error)
            {
              assert txs[k..][1..] == txs[k + 1..];
              if txs[k].txid == txid {
                if !txs[k].valid {
                  SetError(Invalidated);
                }
                return true;
              }
            }
          case Status(code) =>
            SetError(EndedEarly(code));
            return true;
          case Unknown =>
            SetError(UnexpectedType);
            return true;
        }
        pos := pos + 1;
      }
      return false;
    }
  }

  // ----- the system

  datatype PC =
    | Idle                  // counted, not yet spawned
    | Dialing
    | Sending
    | Receiving(pos: nat)
    | Failing(error: Error) // before setError
    | Exiting               // before the deferred Done
    | Done

  datatype Main =
    | ConnectSpawning(k: nat)
    | ConnectSelect
    | Connected
    | ConnectFailed(error: Error)
    | WaitSpawning(k: nat)
    | WaitSelect
    | WaitReturned(result: Option<Error>, ready: bool)

  datatype Waiter = NoWaiter | Blocked | Closed

  datatype State = State(
    main: Main,
    pcs: seq<PC>,
    counter: int,          // the wait group
    error: Option<Error>,  // dg.Error
    connected: seq<bool>,  // dc.Connection is set
    waiter: Waiter,        // the goroutine of WaitForWG
    closes: nat,           // how often this phase's ready channel was closed
    panicked: bool)

  datatype Step =
    | Spawn
    | Dial(i: nat)
    | SendSeek(i: nat)
    | Receive(i: nat)
    | SetError(i: nat)
    | Exit(i: nat)
    | CloseReady
    | TakeReady
    | TimeOut
    | StartWait

  function Init(env: Env): State {
    var n := |env.clients|;
    State(ConnectSpawning(0), seq(n, _ => Idle), n, None, seq(n, _ => false), NoWaiter, 0, false)
  }

  predicate At(s: State, i: nat) { i < |s.pcs| }

  predicate InWait(m: Main) { m.WaitSpawning? || m.WaitSelect? || m.WaitReturned? }

  predicate Shaped(env: Env, s: State) {
    |s.pcs| == |s.connected| == |env.clients|
  }

  predicate Enabled(env: Env, s: State, step: Step) {
    match step
    case Spawn => s.main.ConnectSpawning? || s.main.WaitSpawning?
    case Dial(i) => At(s, i) && i < |env.clients| && s.pcs[i].Dialing? && !env.clients[i].connection.Hangs?
    case SendSeek(i) => At(s, i) && s.pcs[i].Sending?
    case Receive(i) => At(s, i) && i < |env.clients| && s.pcs[i].Receiving? && s.pcs[i].pos < |env.clients[i].stream|
    case SetError(i) => At(s, i) && s.pcs[i].Failing?
    case Exit(i) => At(s, i) && s.pcs[i].Exiting?
    case CloseReady => s.waiter.Blocked? && s.counter == 0
    case TakeReady => (s.main.ConnectSelect? || s.main.WaitSelect?) && s.waiter.Closed?
    case TimeOut => s.main.ConnectSelect? || s.main.WaitSelect?
    case StartWait => s.main.Connected?
  }

  function SpawnNext(s: State): State
    requires s.main.ConnectSpawning? || s.main.WaitSpawning?
  {
    var k := s.main.k;
    if s.main.ConnectSpawning? then
      if k < |s.pcs| then s.(main := ConnectSpawning(k + 1), pcs := s.pcs[k := Dialing])
      else s.(main := ConnectSelect, waiter := Blocked)
    else
      if k < |s.pcs| then s.(main := WaitSpawning(k + 1), pcs := s.pcs[k := Receiving(0)])
      else s.(main := WaitSelect, waiter := Blocked)
  }

  /** One turn of the receive loop; receiving on an unset connection panics. */
  function ReceiveNext(env: Env, s: State, i: nat): State
    requires Shaped(env, s) && Enabled(env, s, Receive(i))
  {
    if !s.connected[i] then s.(panicked := true)
    else
      var pos := s.pcs[i].pos;
      var pc := match EventVerdict(env.clients[i].stream[pos], env.txid)
        case Pending => Receiving(pos + 1)
        case Valid => Exiting
        case Bad(e) => Failing(e);
      s.(pcs := s.pcs[i := pc])
  }

  function Next(env: Env, s: State, step: Step): (s': State)
    requires Shaped(env, s) && Enabled(env, s, step)
    ensures Shaped(env, s')
  {
    match step
    case Spawn => SpawnNext(s)
    case Dial(i) =>
      var k := env.clients[i].connection;
      if k.DialFails? then s.(pcs := s.pcs[i := Failing(CannotConnect(k.e))])
      else s.(pcs := s.pcs[i := Sending], connected := s.connected[i := true])
    case SendSeek(i) =>
      (match env.clients[i].connection
       case SendFails(e) => s.(pcs := s.pcs[i := Failing(CannotSend(e))])
       case _ => s.(pcs := s.pcs[i := Exiting]))
    case Receive(i) => ReceiveNext(env, s, i)
    case SetError(i) => s.(pcs := s.pcs[i := Exiting], error := Some(s.pcs[i].error))
    case Exit(i) => s.(pcs := s.pcs[i := Done], counter := s.counter - 1, panicked := s.panicked || s.counter <= 0)
    case CloseReady => s.(waiter := Closed, closes := s.closes + 1, panicked := s.panicked || s.closes > 0)
    case TakeReady =>
      if s.main.WaitSelect? then s.(main := WaitReturned(s.error, true))
      else if s.error.Some? then s.(main := ConnectFailed(s.error.value))
      else s.(main := Connected)
    case TimeOut =>
      if s.main.WaitSelect? then s.(main := WaitReturned(Some(TimedOut), false))
      else s.(main := ConnectFailed(TimedOut))
    case StartWait =>
      if |s.pcs| == 0 then s.(main := WaitReturned(None, true))
      else s.(main := WaitSpawning(0), pcs := seq(|s.pcs|, _ => Idle), counter := s.counter + |s.pcs|,
              waiter := NoWaiter, closes := 0)
  }

  /** The state after a schedule, if each of its steps was enabled. */
  function Run(env: Env, steps: seq<Step>): (r: Option<State>)
    ensures r.Some? ==> Shaped(env, r.value)
    decreases |steps|, 1
  {
    if steps == [] then Some(Init(env)) else RunLast(env, steps)
  }

  function RunLast(env: Env, steps: seq<Step>): (r: Option<State>)
    requires steps != []
    ensures r.Some? ==> Shaped(env, r.value)
    decreases |steps|, 0
  {
    match Run(env, steps[..|steps| - 1])
    case None => None
    case Some(s) =>
      var step := steps[|steps| - 1];
      if Enabled(env, s, step) then Some(Next(env, s, step)) else None
  }

  lemma LastStep(env: Env, steps: seq<Step>)
    requires steps != [] && Run(env, steps).Some?
    ensures var before, step := Run(env, steps[..|steps| - 1]), steps[|steps| - 1];
      before.Some? && Enabled(env, before.value, step) && Run(env, steps) == Some(Next(env, before.value, step))
  {
    hide Next;
    hide Enabled;
    assert Run(env, steps) == RunLast(env, steps);
  }

  // ----- the invariant

  function IsLive(pc: PC): nat { if pc.Done? then 0 else 1 }

  /** What a phase-one goroutine knows at each program point. */
  ghost predicate ConnectOk(k: Connection, pc: PC, connected: bool, error: Option<Error>) {
    match pc
    case Idle => true
    case Dialing => true
    case Sending => connected && !k.DialFails? && !k.Hangs?
    case Receiving(_) => false
    case Failing(e) => ConnectVerdict(k) == Bad(e)
    case _ => (k.Connects? && connected) || (ConnectVerdict(k).Bad? && error.Some?)
  }

  /** The same for phase two. */
  ghost predicate WaitOk(c: Client, txid: string, pc: PC, error: Option<Error>) {
    match pc
    case Idle => true
    case Receiving(p) => p <= |c.stream| && StreamVerdict(c.stream[p..], txid) == StreamVerdict(c.stream, txid)
    case Failing(e) => StreamVerdict(c.stream, txid) == Bad(e)
    case Dialing => false
    case Sending => false
    case _ => StreamVerdict(c.stream, txid).Valid? || (StreamVerdict(c.stream, txid).Bad? && error.Some?)
  }

  ghost predicate ClientOk(env: Env, s: State, i: nat)
    requires Shaped(env, s) && i < |s.pcs|
  {
    var c := env.clients[i];
    if InWait(s.main) then s.connected[i] && c.connection.Connects? && WaitOk(c, env.txid, s.pcs[i], s.error)
    else ConnectOk(c.connection, s.pcs[i], s.connected[i], s.error)
  }

  function ClientVerdict(env: Env, s: State, i: nat): Verdict
    requires i < |env.clients|
  {
    if InWait(s.main) then StreamVerdict(env.clients[i].stream, env.txid) else ConnectVerdict(env.clients[i].connection)
  }

  ghost predicate ErrorIsSomeClients(env: Env, s: State) {
    s.error.Some? ==> exists i :: 0 <= i < |env.clients| && ClientVerdict(env, s, i) == Bad(s.error.value)
  }

  /** Where the spawning loop stands. */
  ghost predicate SpawnedSoFar(s: State) {
    if s.main.ConnectSpawning? || s.main.WaitSpawning? then
      s.main.k <= |s.pcs| && s.waiter.NoWaiter? && forall i :: 0 <= i < |s.pcs| ==> (s.pcs[i].Idle? <==> s.main.k <= i)
    else
      forall i :: 0 <= i < |s.pcs| ==> !s.pcs[i].Idle?
  }

  ghost predicate WaiterOk(s: State) {
    && s.closes == (if s.waiter.Closed? then 1 else 0)
    && (s.waiter.Closed? ==> s.counter == 0)
    && (s.main.ConnectSelect? || s.main.WaitSelect? ==> !s.waiter.NoWaiter?)
    && (s.main.Connected? ==> s.waiter.Closed? && s.error.None?)
    && (s.main.WaitReturned? && s.main.ready ==> s.counter == 0 && s.main.result == s.error)
    && (s.main.WaitReturned? && !s.main.ready ==> s.main.result == Some(TimedOut))
  }

  /** A failed Connect timed out or reports a client that could not connect. */
  ghost predicate FailureIsSomeClients(env: Env, m: Main) {
    m.ConnectFailed? && !m.error.TimedOut? ==>
      exists i :: 0 <= i < |env.clients| && ConnectVerdict(env.clients[i].connection) == Bad(m.error)
  }

  ghost predicate Inv(env: Env, s: State) {
    && Shaped(env, s)
    && FailureIsSomeClients(env, s.main)
    && !s.panicked
    && s.counter == Total(IsLive, s.pcs)
    && SpawnedSoFar(s)
    && WaiterOk(s)
    && ErrorIsSomeClients(env, s)
    && forall i :: 0 <= i < |s.pcs| ==> ClientOk(env, s, i)
  }

  lemma InitInv(env: Env)
    ensures Inv(env, Init(env))
  {
    var s := Init(env);
    TotalOfSame(IsLive, s.pcs, 1);
  }

  /** A live goroutine keeps the counter up, so nothing has been closed yet. */
  lemma LiveMeansCounting(env: Env, s: State, i: nat)
    requires Inv(env, s) && i < |s.pcs| && !s.pcs[i].Done?
    ensures s.counter > 0 && !s.waiter.Closed? && !s.main.Connected? && !(s.main.WaitReturned? && s.main.ready)
  {
    TotalIsZero(IsLive, s.pcs);
    assert IsLive(s.pcs[i]) == 1;
  }

  /** A step by which client `i` moves to `pc`, possibly connecting or failing. */
  lemma ClientStep(env: Env, s: State, i: nat, pc: PC, error: Option<Error>, connected: bool)
    requires Inv(env, s) && i < |s.pcs| && !s.pcs[i].Done? && !s.pcs[i].Idle? && !pc.Idle?
    requires s.connected[i] ==> connected
    requires error == s.error || (error.Some? && ClientVerdict(env, s, i) == Bad(error.value))
    requires
      var s' := s.(pcs := s.pcs[i := pc], error := error, connected := s.connected[i := connected]);
      ClientOk(env, s', i)
    ensures
      var s' := s.(pcs := s.pcs[i := pc], error := error, connected := s.connected[i := connected],
                   counter := s.counter - (if pc.Done? then 1 else 0));
      Inv(env, s')
  {
    hide Total;
    LiveMeansCounting(env, s, i);
    TotalAfterUpdate(IsLive, s.pcs, i, pc);
    var s' := s.(pcs := s.pcs[i := pc], error := error, connected := s.connected[i := connected],
                 counter := s.counter - (if pc.Done? then 1 else 0));
    forall j | 0 <= j < |s'.pcs| ensures ClientOk(env, s', j) {
      if j != i {
        assert ClientOk(env, s, j);
      }
    }
    assert ErrorIsSomeClients(env, s') by {
      if error == s.error && error.Some? {
        var j :| 0 <= j < |env.clients| && ClientVerdict(env, s, j) == Bad(s.error.value);
        assert ClientVerdict(env, s', j) == Bad(s'.error.value);
      } else if error.Some? {
        assert ClientVerdict(env, s', i) == Bad(s'.error.value);
      }
    }
  }

  lemma SpawnKeepsInv(env: Env, s: State)
    requires Inv(env, s) && Enabled(env, s, Spawn)
    ensures Inv(env, SpawnNext(s))
  {
    hide Total;
    var k := s.main.k;
    var s' := SpawnNext(s);
    if k < |s.pcs| {
      assert s.pcs[k].Idle?;
      TotalAfterUpdate(IsLive, s.pcs, k, s'.pcs[k]);
      assert env.clients[k].stream[0..] == env.clients[k].stream;
    }
    forall j | 0 <= j < |s'.pcs| ensures ClientOk(env, s', j) {
      assert ClientOk(env, s, j);
    }
    SameErrors(env, s, s');
  }

  lemma SameErrors(env: Env, s: State, s': State)
    requires ErrorIsSomeClients(env, s) && s'.error == s.error && InWait(s'.main) == InWait(s.main)
    ensures ErrorIsSomeClients(env, s')
  {
    if s.error.Some? {
      var j :| 0 <= j < |env.clients| && ClientVerdict(env, s, j) == Bad(s.error.value);
      assert ClientVerdict(env, s', j) == Bad(s'.error.value);
    }
  }

  /** Steps of the caller and of the closing goroutine leave the clients alone. */
  lemma MainStepKeepsInv(env: Env, s: State, step: Step)
    requires Inv(env, s) && Enabled(env, s, step)
    requires step.CloseReady? || step.TakeReady? || step.TimeOut?
    ensures Inv(env, Next(env, s, step))
  {
    hide Total;
    var s' := Next(env, s, step);
    if s'.main.ConnectFailed? && !s'.main.error.TimedOut? && s'.main != s.main {
      var i :| 0 <= i < |env.clients| && ClientVerdict(env, s, i) == Bad(s.error.value);
      assert ConnectVerdict(env.clients[i].connection) == Bad(s'.main.error);
    }
    forall j | 0 <= j < |s'.pcs| ensures ClientOk(env, s', j) {
      assert ClientOk(env, s, j);
    }
    SameErrors(env, s, s');
  }

  /** A nil Connect: every goroutine is gone and every connection is set. */
  lemma ConnectedMeansConnected(env: Env, s: State)
    requires Inv(env, s) && s.main.Connected?
    ensures s.counter == 0
    ensures forall i :: 0 <= i < |s.pcs| ==> s.pcs[i].Done? && s.connected[i] && env.clients[i].connection.Connects?
  {
    TotalIsZero(IsLive, s.pcs);
    forall i | 0 <= i < |s.pcs| ensures s.pcs[i].Done? && s.connected[i] && env.clients[i].connection.Connects? {
      assert ClientOk(env, s, i) && IsLive(s.pcs[i]) == 0;
    }
  }

  lemma StartWaitKeepsInv(env: Env, s: State)
    requires Inv(env, s) && s.main.Connected?
    ensures Inv(env, Next(env, s, StartWait))
  {
    ConnectedMeansConnected(env, s);
    var s' := Next(env, s, StartWait);
    if |s.pcs| > 0 {
      TotalOfSame(IsLive, s'.pcs, 1);
    }
  }

  lemma ReceiveKeepsInv(env: Env, s: State, i: nat)
    requires Inv(env, s) && Enabled(env, s, Receive(i))
    ensures Inv(env, ReceiveNext(env, s, i))
  {
    assert ClientOk(env, s, i);
    var c, pos := env.clients[i], s.pcs[i].pos;
    assert c.stream[pos..][1..] == c.stream[pos + 1..];
    var s' := ReceiveNext(env, s, i);
    assert s.connected[i := true] == s.connected;
    ClientStep(env, s, i, s'.pcs[i], s.error, true);
  }

  lemma StepKeepsInv(env: Env, s: State, step: Step)
    requires Inv(env, s) && Enabled(env, s, step)
    ensures Inv(env, Next(env, s, step))
  {
    hide Total;
    hide StreamVerdict;
    hide ErrorIsSomeClients;
    hide SpawnedSoFar;
    hide WaiterOk;
    match step
    case Spawn => SpawnKeepsInv(env, s);
    case Dial(i) =>
      assert ClientOk(env, s, i);
      LiveMeansCounting(env, s, i);
      var s' := Next(env, s, step);
      assert s.connected[i := s.connected[i]] == s.connected;
      ClientStep(env, s, i, s'.pcs[i], s.error, s'.connected[i]);
    case SendSeek(i) =>
      assert ClientOk(env, s, i);
      assert s.connected[i := s.connected[i]] == s.connected;
      ClientStep(env, s, i, Next(env, s, step).pcs[i], s.error, s.connected[i]);
    case Receive(i) => ReceiveKeepsInv(env, s, i);
    case SetError(i) =>
      assert ClientOk(env, s, i);
      assert s.connected[i := s.connected[i]] == s.connected;
      ClientStep(env, s, i, Exiting, Some(s.pcs[i].error), s.connected[i]);
    case Exit(i) =>
      assert ClientOk(env, s, i);
      LiveMeansCounting(env, s, i);
      assert s.connected[i := s.connected[i]] == s.connected;
      ClientStep(env, s, i, Done, s.error, s.connected[i]);
    case StartWait => StartWaitKeepsInv(env, s);
    case _ => MainStepKeepsInv(env, s, step);
  }

  lemma {:induction false} RunKeepsInv(env: Env, steps: seq<Step>)
    requires Run(env, steps).Some?
    ensures Inv(env, Run(env, steps).value)
  {
    if steps == [] {
      InitInv(env);
    } else {
      LastStep(env, steps);
      RunKeepsInv(env, steps[..|steps| - 1]);
      StepKeepsInv(env, Run(env, steps[..|steps| - 1]).value, steps[|steps| - 1]);
    }
  }

  // ----- the theorems, over every run

  /** In every reachable state the wait group counts exactly the client goroutines
      that have not finished, the ready channel is closed at most once per phase and
      only with the counter at zero, nothing panics, and a nil Connect leaves the
      counter at zero with every connection set. */
  lemma WaitGroupInvariant(env: Env, steps: seq<Step>)
    requires Run(env, steps).Some?
    ensures var s := Run(env, steps).value;
      && s.counter == Total(IsLive, s.pcs)
      && !s.panicked
      && s.closes <= 1
      && (s.waiter.Closed? ==> s.counter == 0)
      && (s.main.Connected? ==> s.counter == 0 && forall i :: 0 <= i < |s.connected| ==> s.connected[i])
      && (forall i :: 0 <= i < |s.pcs| && s.pcs[i].Receiving? ==> s.connected[i])
  {
    RunKeepsInv(env, steps);
    var s := Run(env, steps).value;
    if s.main.Connected? {
      ConnectedMeansConnected(env, s);
    }
    forall i | 0 <= i < |s.pcs| && s.pcs[i].Receiving? ensures s.connected[i] {
      assert ClientOk(env, s, i);
    }
  }

  /** A failed Connect timed out, or reports what some peer's connection did; one
      that succeeds has every peer connected. */
  lemma ConnectOutcome(env: Env, steps: seq<Step>)
    requires Run(env, steps).Some?
    ensures var m := Run(env, steps).value.main;
      && (m.ConnectFailed? && !m.error.TimedOut? ==>
            exists i :: 0 <= i < |env.clients| && ConnectVerdict(env.clients[i].connection) == Bad(m.error))
      && (m.Connected? || InWait(m) ==> forall i :: 0 <= i < |env.clients| ==> env.clients[i].connection.Connects?)
  {
    RunKeepsInv(env, steps);
    var s := Run(env, steps).value;
    if s.main.Connected? {
      ConnectedMeansConnected(env, s);
    }
    forall i | InWait(s.main) && 0 <= i < |env.clients| ensures env.clients[i].connection.Connects? {
      assert ClientOk(env, s, i);
    }
  }

  lemma ReadyOutcome(env: Env, s: State)
    requires Inv(env, s) && s.main.WaitReturned? && s.main.ready
    ensures s.main.result.None? <==>
      forall i :: 0 <= i < |env.clients| ==> StreamVerdict(env.clients[i].stream, env.txid).Valid?
    ensures s.main.result.Some? ==>
      exists i :: 0 <= i < |env.clients| && StreamVerdict(env.clients[i].stream, env.txid) == Bad(s.main.result.value)
  {
    TotalIsZero(IsLive, s.pcs);
    forall i | 0 <= i < |s.pcs| ensures s.pcs[i].Done? && ClientOk(env, s, i) {
      assert IsLive(s.pcs[i]) == 0;
    }
    if s.error.Some? {
      var i :| 0 <= i < |env.clients| && ClientVerdict(env, s, i) == Bad(s.error.value);
      assert StreamVerdict(env.clients[i].stream, env.txid) == Bad(s.error.value);
    } else {
      forall i | 0 <= i < |env.clients| ensures StreamVerdict(env.clients[i].stream, env.txid).Valid? {
        assert ClientOk(env, s, i) && s.pcs[i].Done?;
      }
    }
  }

  /** Once the ready branch is taken, nil or not depends on the peers alone: nil
      exactly when every stream delivered the transaction as valid first. The error
      is one that some peer's stream gave. */
  lemma WaitOutcome(env: Env, steps: seq<Step>)
    requires Run(env, steps).Some? && Run(env, steps).value.main.WaitReturned?
    ensures var m := Run(env, steps).value.main;
      && (m.ready ==> (m.result.None? <==>
            forall i :: 0 <= i < |env.clients| ==> StreamVerdict(env.clients[i].stream, env.txid).Valid?))
      && (m.ready && m.result.Some? ==>
            exists i :: 0 <= i < |env.clients| && StreamVerdict(env.clients[i].stream, env.txid) == Bad(m.result.value))
      && (!m.ready ==> m.result == Some(TimedOut))
  {
    RunKeepsInv(env, steps);
    var s := Run(env, steps).value;
    if s.main.ready {
      ReadyOutcome(env, s);
    }
  }

  ghost predicate Silent(e: Event, txid: string) {
    e.FilteredBlock? && forall t :: t in e.txs ==> t.txid != txid
  }

  ghost predicate CommitsAt(txs: seq<Tx>, txid: string, k: int) {
    0 <= k < |txs| && txs[k] == Tx(txid, true) && forall m :: 0 <= m < k ==> txs[m].txid != txid
  }

  ghost predicate Commits(e: Event, txid: string) {
    e.FilteredBlock? && exists k :: CommitsAt(e.txs, txid, k)
  }

  ghost predicate ValidAt(stream: seq<Event>, txid: string, p: int) {
    0 <= p < |stream| && Commits(stream[p], txid) && forall q :: 0 <= q < p ==> Silent(stream[q], txid)
  }

  /** What a valid stream looks like: blocks that do not mention the transaction,
      then one whose first entry for it is valid. */
  lemma {:induction false} ValidStreamsMeanCommitted(stream: seq<Event>, txid: string)
    ensures StreamVerdict(stream, txid).Valid? <==> exists p :: ValidAt(stream, txid, p)
  {
    hide Silent;
    hide Commits;
    if stream != [] {
      var rest := stream[1..];
      EventVerdictMeans(stream[0], txid);
      ValidStreamsMeanCommitted(rest, txid);
      if StreamVerdict(stream, txid).Valid? {
        if EventVerdict(stream[0], txid).Pending? {
          var p :| ValidAt(rest, txid, p);
          assert ValidAt(stream, txid, p + 1);
        } else {
          assert ValidAt(stream, txid, 0);
        }
      }
      if p :| ValidAt(stream, txid, p) {
        if p > 0 {
          assert ValidAt(rest, txid, p - 1);
        }
      }
    }
  }

  lemma EventVerdictMeans(e: Event, txid: string)
    ensures EventVerdict(e, txid).Pending? <==> Silent(e, txid)
    ensures EventVerdict(e, txid).Valid? <==> Commits(e, txid)
    ensures !(Silent(e, txid) && Commits(e, txid))
  {
    if e.FilteredBlock? {
      BlockVerdictMeans(e.txs, txid);
    }
  }

  lemma {:induction false} BlockVerdictMeans(txs: seq<Tx>, txid: string)
    ensures BlockVerdict(txs, txid).Pending? <==> forall t :: t in txs ==> t.txid != txid
    ensures BlockVerdict(txs, txid).Valid? <==> exists k :: CommitsAt(txs, txid, k)
  {
    if txs != [] {
      if txs[0].txid == txid {
        assert txs[0] in txs;
        assert txs[0].valid ==> CommitsAt(txs, txid, 0);
      } else {
        BlockVerdictMeans(txs[1..], txid);
        assert forall t :: t in txs <==> t == txs[0] || t in txs[1..];
        CommitsLater(txs, txid);
      }
    }
  }

  lemma CommitsLater(txs: seq<Tx>, txid: string)
    requires txs != [] && txs[0].txid != txid
    ensures (exists k :: CommitsAt(txs, txid, k)) <==> exists k :: CommitsAt(txs[1..], txid, k)
  {
    if k :| CommitsAt(txs, txid, k) {
      assert CommitsAt(txs[1..], txid, k - 1);
    }
    if k :| CommitsAt(txs[1..], txid, k) {
      assert CommitsAt(txs, txid, k + 1);
    }
  }

  predicate NoneHangs(env: Env) { forall i :: 0 <= i < |env.clients| ==> !env.clients[i].connection.Hangs? }

  /** Without timeouts the group cannot get stuck: while the caller is still busy
      and no connection or stream stays undecided, some other step is possible. */
  lemma NeverStuck(env: Env, steps: seq<Step>) returns (step: Step)
    requires Run(env, steps).Some?
    requires var m := Run(env, steps).value.main; !m.ConnectFailed? && !m.WaitReturned?
    requires NoneHangs(env)
    requires forall i :: 0 <= i < |env.clients| ==> !StreamVerdict(env.clients[i].stream, env.txid).Pending?
    ensures Enabled(env, Run(env, steps).value, step) && !step.TimeOut?
  {
    RunKeepsInv(env, steps);
    var s := Run(env, steps).value;
    if s.main.ConnectSpawning? || s.main.WaitSpawning? {
      step := Spawn;
    } else if s.main.Connected? {
      step := StartWait;
    } else if s.counter > 0 {
      TotalIsZero(IsLive, s.pcs);
      var i: nat :| i < |s.pcs| && IsLive(s.pcs[i]) != 0;
      assert ClientOk(env, s, i);
      match s.pcs[i] {
        case Dialing => step := Dial(i);
        case Sending => step := SendSeek(i);
        case Receiving(p) => step := Receive(i);
        case Failing(_) => step := SetError(i);
        case Exiting => step := Exit(i);
      }
    } else {
      step := if s.waiter.Closed? then TakeReady else CloseReady;
    }
  }

  lemma OneMoreStep(env: Env, steps: seq<Step>, step: Step)
    requires Run(env, steps).Some? && Enabled(env, Run(env, steps).value, step)
    ensures Run(env, steps + [step]) == Some(Next(env, Run(env, steps).value, step))
  {
    hide Next;
    hide Enabled;
    assert (steps + [step])[..|steps|] == steps;
    assert Run(env, steps + [step]) == RunLast(env, steps + [step]);
  }
}
