/** The endorsement-policy compiler: three passes over policy text, each given
    here as a pure function. PolicyCompiler.dfy holds the loops and the shared
    identity table that compute them; PolicyProofs.dfy says what they preserve. */
module PolicyDsl {
  import opened Wrappers
  import opened PolicyText

  datatype Role = Admin | Member | Client | Peer | Orderer

  /** An MSPPrincipal of classification ROLE. */
  datatype Principal = Principal(msp: string, role: Role)

  datatype Rule =
    | SignedBy(index: nat)
    | NOutOf(n: nat, rules: seq<Rule>)

  datatype Envelope = Envelope(identities: seq<Principal>, rule: Rule)

  datatype PolicyError =
    | Syntax(text: string)
    | NoParameter(name: string)
    | UnknownFunction(name: string)
    | TooFewArguments(given: nat)
    | UnexpectedType
    | NotAContext
    | NotANumber
    | BadThreshold(t: nat, n: nat)
    | BadPrincipal(text: string)
    | InvalidPolicy

  /** What a govaluate argument may hold while a policy is compiled. */
  datatype Value =
    | VString(s: string)
    | VFloat(n: nat)
    | VInt(n: nat)
    | VContext
    | VPolicy(rule: Rule)

  // ----- principals: ^([[:alnum:].-]+)([.])(admin|member|client|peer|orderer)$

  predicate IsMspChar(c: char) { IsLetter(c) || IsDigit(c) || c == '.' || c == '-' }

  function RoleText(r: Role): (s: string)
    ensures forall i :: 0 <= i < |s| ==> IsLetter(s[i])
  {
    match r
    case Admin => "admin"
    case Member => "member"
    case Client => "client"
    case Peer => "peer"
    case Orderer => "orderer"
  }

  function RoleOf(s: string): Option<Role> {
    if s == "admin" then Some(Admin)
    else if s == "member" then Some(Member)
    else if s == "client" then Some(Client)
    else if s == "peer" then Some(Peer)
    else if s == "orderer" then Some(Orderer)
    else None
  }

  predicate ValidMsp(msp: string) {
    msp != [] && forall i :: 0 <= i < |msp| ==> IsMspChar(msp[i])
  }

  function PrincipalText(p: Principal): string { p.msp + "." + RoleText(p.role) }

  function LastDot(s: string): (k: nat)
    ensures k <= |s|
    ensures k < |s| ==> s[k] == '.'
    ensures forall i :: k < i < |s| ==> s[i] != '.'
    ensures k == |s| ==> '.' !in s
  {
    if s == [] then 0
    else if s[|s| - 1] == '.' then |s| - 1
    else
      var k := LastDot(s[..|s| - 1]);
      if k == |s| - 1 then |s| else k
  }

  /** The two groups of the principal regex, when it matches. */
  function Submatch(s: string): Option<Principal> {
    var k := LastDot(s);
    if k == |s| || !ValidMsp(s[..k]) then None
    else
      match RoleOf(s[k + 1..])
      case None => None
      case Some(r) => Some(Principal(s[..k], r))
  }

  // ----- the evaluator and the first two passes

  const AND_NAMES: set<string> := {"And", "and", "AND"}
  const OR_NAMES: set<string> := {"Or", "or", "OR"}
  const OUTOF_NAMES: set<string> := {"OutOf", "outof", "OUTOF"}

  datatype Pass = Translate | AddContext

  function RenderString(t: string): string {
    if Submatch(t).Some? then "'" + t + "'" else t
  }

  /** The text of one trailing argument; only the first pass accepts numbers there. */
  function RenderOne(v: Value, numbers: bool): Result<string, PolicyError> {
    match v
    case VString(t) => Success(", " + RenderString(t))
    case VFloat(n) => if numbers then Success(", " + Itoa(n)) else Failure(UnexpectedType)
    case _ => Failure(UnexpectedType)
  }

  /** The text that `outof` and `firstPass` append for their trailing arguments. */
  function Render(args: seq<Value>, numbers: bool): Result<string, PolicyError> {
    if args == [] then Success("")
    else
      match RenderOne(args[0], numbers)
      case Failure(e) => Failure(e)
      case Success(h) => After(h, Render(args[1..], numbers))
  }

  function After(done: string, rest: Result<string, PolicyError>): Result<string, PolicyError> {
    match rest
    case Failure(e) => Failure(e)
    case Success(t) => Success(done + t)
  }

  function Wrap(head: string, r: Result<string, PolicyError>): Result<Value, PolicyError> {
    match r
    case Failure(e) => Failure(e)
    case Success(t) => Success(VString(head + t + ")"))
  }

  function OutOf(args: seq<Value>): Result<Value, PolicyError> {
    if |args| < 2 then Failure(TooFewArguments(|args|))
    else
      match args[0]
      case VFloat(n) => Wrap("outof(" + Itoa(n), Render(args[1..], false))
      case VInt(n) => Wrap("outof(" + Itoa(n), Render(args[1..], false))
      case VString(n) => Wrap("outof(" + n, Render(args[1..], false))
      case _ => Failure(UnexpectedType)
  }

  function And(args: seq<Value>): Result<Value, PolicyError> { OutOf([VInt(|args|)] + args) }

  function Or(args: seq<Value>): Result<Value, PolicyError> { OutOf([VInt(1)] + args) }

  function FirstPass(args: seq<Value>): Result<Value, PolicyError> {
    Wrap("outof(ID", Render(args, true))
  }

  function Apply(pass: Pass, fn: string, args: seq<Value>): Result<Value, PolicyError> {
    match pass
    case Translate =>
      if fn in AND_NAMES then And(args)
      else if fn in OR_NAMES then Or(args)
      else if fn in OUTOF_NAMES then OutOf(args)
      else Failure(UnknownFunction(fn))
    case AddContext =>
      if fn == "outof" then FirstPass(args) else Failure(UnknownFunction(fn))
  }

  /** Evaluation of the two text-producing passes: arguments first, left to right. */
  function Eval(pass: Pass, e: Expr): Result<Value, PolicyError>
    decreases e, 0
  {
    match e
    case Num(n) => Success(VFloat(n))
    case Str(s) => Success(VString(s))
    case Var(v) => Failure(NoParameter(v))
    case Call(fn, args) =>
      match EvalArgs(pass, args)
      case Failure(err) => Failure(err)
      case Success(vs) => Apply(pass, fn, vs)
  }

  function EvalArgs(pass: Pass, es: seq<Expr>): Result<seq<Value>, PolicyError>
    decreases es, 0
  {
    if es == [] then Success([])
    else
      match Eval(pass, es[0])
      case Failure(err) => Failure(err)
      case Success(v) =>
        match EvalArgs(pass, es[1..])
        case Failure(err) => Failure(err)
        case Success(vs) => Success([v] + vs)
  }

  // ----- the second pass, which allocates identities

  /** The loop over the principals and policies of one gate. The second component
      is the identity table afterwards. */
  function Build(args: seq<Value>, ids: seq<Principal>): (Result<seq<Rule>, PolicyError>, seq<Principal>) {
    if args == [] then (Success([]), ids)
    else
      match args[0]
      case VString(t) =>
        (match Submatch(t)
         case None => (Failure(BadPrincipal(t)), ids)
         case Some(p) => PushRule(SignedBy(|ids|), Build(args[1..], ids + [p])))
      case VPolicy(rule) => PushRule(rule, Build(args[1..], ids))
      case _ => (Failure(UnexpectedType), ids)
  }

  function PushRule(r: Rule, rest: (Result<seq<Rule>, PolicyError>, seq<Principal>))
    : (Result<seq<Rule>, PolicyError>, seq<Principal>)
  {
    match rest.0
    case Failure(e) => (Failure(e), rest.1)
    case Success(rs) => (Success([r] + rs), rest.1)
  }

  function SecondPass(args: seq<Value>, ids: seq<Principal>): (Result<Value, PolicyError>, seq<Principal>) {
    if |args| < 3 then (Failure(TooFewArguments(|args|)), ids)
    else if !args[0].VContext? then (Failure(NotAContext), ids)
    else if !args[1].VFloat? then (Failure(NotANumber), ids)
    else
      var t, n := args[1].n, |args| - 2;
      if t > n + 1 then (Failure(BadThreshold(t, n)), ids)
      else
        var (r, ids') := Build(args[2..], ids);
        match r
        case Failure(e) => (Failure(e), ids')
        case Success(rules) => (Success(VPolicy(NOutOf(t, rules))), ids')
  }

  /** Evaluation of the second pass against the identity table. */
  function Allocate(e: Expr, ids: seq<Principal>): (Result<Value, PolicyError>, seq<Principal>)
    decreases e, 0
  {
    match e
    case Num(n) => (Success(VFloat(n)), ids)
    case Str(s) => (Success(VString(s)), ids)
    case Var(v) => (if v == "ID" then Success(VContext) else Failure(NoParameter(v)), ids)
    case Call(fn, args) =>
      var (r, ids') := AllocateArgs(args, ids);
      match r
      case Failure(err) => (Failure(err), ids')
      case Success(vs) =>
        if fn == "outof" then SecondPass(vs, ids') else (Failure(UnknownFunction(fn)), ids')
  }

  function AllocateArgs(es: seq<Expr>, ids: seq<Principal>): (Result<seq<Value>, PolicyError>, seq<Principal>)
    decreases es, 0
  {
    if es == [] then (Success([]), ids)
    else
      var (r, ids') := Allocate(es[0], ids);
      match r
      case Failure(err) => (Failure(err), ids')
      case Success(v) =>
        var (rs, ids'') := AllocateArgs(es[1..], ids');
        match rs
        case Failure(err) => (Failure(err), ids'')
        case Success(vs) => (Success([v] + vs), ids'')
  }

  // ----- FromString

  function RunPass(pass: Pass, text: string): Result<string, PolicyError> {
    match Parse(text)
    case None => Failure(Syntax(text))
    case Some(e) =>
      match Eval(pass, e)
      case Failure(err) => Failure(err)
      case Success(v) => if v.VString? then Success(v.s) else Failure(InvalidPolicy)
  }

  function RunSecondPass(text: string): Result<Envelope, PolicyError> {
    match Parse(text)
    case None => Failure(Syntax(text))
    case Some(e) =>
      var (r, ids) := Allocate(e, []);
      match r
      case Failure(err) => Failure(err)
      case Success(v) => if v.VPolicy? then Success(Envelope(ids, v.rule)) else Failure(InvalidPolicy)
  }

  /** The passes that print their result as text for the next one. */
  const TEXT_PASSES: seq<Pass> := [Translate, AddContext]

  function RunPasses(passes: seq<Pass>, text: string): Result<string, PolicyError>
    decreases passes
  {
    if passes == [] then Success(text)
    else
      match RunPass(passes[0], text)
      case Failure(err) => Failure(err)
      case Success(text') => RunPasses(passes[1..], text')
  }

  function FromString(policy: string): Result<Envelope, PolicyError> {
    match RunPasses(TEXT_PASSES, policy)
    case Failure(err) => Failure(err)
    case Success(text) => RunSecondPass(text)
  }
}
