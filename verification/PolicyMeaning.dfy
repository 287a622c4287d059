/** The policy language with its names spelled out: which texts are principals, what
    the nine gate names mean, and with which error anything else is refused. Nothing
    here is stated through the tables the compiler itself consults. */
module PolicyMeaning {
  import opened Wrappers
  import opened PolicyText
  import opened PolicyDsl
  import opened PolicyGates
  import opened PolicyTokens
  import opened PolicyProofs

  // ----- principals

  predicate Names(s: string, p: Principal) {
    match p.role
    case Admin => s == p.msp + ".admin"
    case Member => s == p.msp + ".member"
    case Client => s == p.msp + ".client"
    case Peer => s == p.msp + ".peer"
    case Orderer => s == p.msp + ".orderer"
  }

  predicate AllowedMsp(msp: string) {
    && msp != ""
    && forall i :: 0 <= i < |msp| ==>
         var c := msp[i]; 'a' <= c <= 'z' || 'A' <= c <= 'Z' || '0' <= c <= '9' || c == '.' || c == '-'
  }

  /** The principal regex, written out: which texts match, and as what. */
  lemma MatchesExactly(s: string, p: Principal)
    ensures Submatch(s) == Some(p) <==> Names(s, p) && AllowedMsp(p.msp)
  {
    NamesIsText(s, p);
    if Submatch(s) == Some(p) {
      SubmatchSound(s);
    }
    if Names(s, p) && ValidMsp(p.msp) {
      SubmatchComplete(p);
    }
  }

  lemma NamesIsText(s: string, p: Principal)
    ensures Names(s, p) <==> s == PrincipalText(p)
  {
    assert p.msp + "." + RoleText(p.role) == p.msp + ("." + RoleText(p.role));
    assert "." + "admin" == ".admin" && "." + "member" == ".member" && "." + "client" == ".client";
    assert "." + "peer" == ".peer" && "." + "orderer" == ".orderer";
  }

  /** A text names at most one principal, as roles have no dots. */
  lemma NamesOnlyOne(s: string, p: Principal, q: Principal)
    requires Names(s, p) && Names(s, q)
    ensures p == q
  {
    NamesIsText(s, p);
    NamesIsText(s, q);
    var m, n := |p.msp|, |q.msp|;
    DotBeforeRole(s, p, n);
    DotBeforeRole(s, q, m);
    assert s[..m] == p.msp && s[m + 1..] == RoleText(p.role);
    assert s[..n] == q.msp && s[n + 1..] == RoleText(q.role);
  }

  lemma DotBeforeRole(s: string, p: Principal, k: nat)
    requires s == PrincipalText(p) && k < |s| && s[k] == '.'
    ensures k <= |p.msp|
  {
    assert forall i :: |p.msp| < i < |s| ==> s[i] == RoleText(p.role)[i - |p.msp| - 1];
  }

  // ----- blanks, quotes and numerals

  lemma BlanksAreSkipped(blank: char, s: string)
    requires blank in {' ', '\t', '\n', '\r'}
    ensures Lex([blank] + s) == Lex(s)
  {
    var t := [blank] + s;
    assert t[0] == blank && t[1..] == s;
    LexStep(t);
    PrependNothing(Lex(s));
  }

  /** Either quote opens a string, and either closes it. */
  lemma EitherQuoteReads(open: char, s: string, close: char, rest: string)
    requires open in {'\'', '"'} && close in {'\'', '"'}
    requires forall i :: 0 <= i < |s| ==> s[i] !in {'\'', '"', '\\'}
    ensures Lex([open] + s + [close] + rest) == Prepend([Quoted(s)], Lex(rest))
  {
    hide Lex;
    hide Read;
    hide NextToken;
    var t, tail := [open] + s + [close] + rest, [close] + rest;
    assert t == [open] + (s + tail);
    assert t[0] == open && t[1..] == s + tail && tail[0] == close && tail[1..] == rest;
    ReadOfPlain(s, tail, InString);
    NextString(t, s, s, tail);
    LexStep(t);
  }

  /** Numerals are decimal. */
  lemma NumeralsAreDecimal(s: string, c: char)
    requires AllDigits(s) && '0' <= c <= '9'
    ensures forall i :: 0 <= i < |s + [c]| ==> IsDigit((s + [c])[i])
    ensures ParseNat("") == 0 && ParseNat(s + [c]) == 10 * ParseNat(s) + (c as int - 48)
  {
    assert (s + [c])[..|s|] == s;
  }

  // ----- what an expression asks for

  /** Whether the principals in `sat` satisfy the expression, read by its names. */
  ghost predicate Satisfied(e: Expr, sat: set<Principal>)
    decreases e
  {
    match e
    case Str(s) => exists p :: p in sat && Names(s, p)
    case Call(fn, args) =>
      if fn in {"And", "and", "AND"} then forall a :: a in args ==> Satisfied(a, sat)
      else if fn in {"Or", "or", "OR"} then exists a :: a in args && Satisfied(a, sat)
      else if fn in {"OutOf", "outof", "OUTOF"} && args != [] && Numeral(args[0]).Some? then
        |SatisfiedFrom(args, 1, sat)| >= Numeral(args[0]).value
      else false
    case _ => false
  }

  /** The positions of the operands that are satisfied, from the k-th argument on. */
  ghost function SatisfiedFrom(args: seq<Expr>, k: nat, sat: set<Principal>): set<int>
    decreases args
  {
    set i | k <= i < |args| && Satisfied(args[i], sat)
  }

  lemma {:induction false} CountsMean(gs: seq<Gate>, args: seq<Expr>, k: nat, sat: set<Principal>)
    requires k <= |args| && |gs| == |args| - k
    requires forall i :: 0 <= i < |gs| ==> (Holds(gs[i], sat) <==> Satisfied(args[k + i], sat))
    ensures CountHolding(gs, sat) == |SatisfiedFrom(args, k, sat)|
    decreases |gs|
  {
    if gs == [] {
      assert SatisfiedFrom(args, k, sat) == {};
    } else {
      CountsMean(gs[1..], args, k + 1, sat);
      assert Holds(gs[0], sat) <==> Satisfied(args[k], sat);
      var rest := SatisfiedFrom(args, k + 1, sat);
      assert SatisfiedFrom(args, k, sat) == if Satisfied(args[k], sat) then {k} + rest else rest;
    }
  }

  lemma {:induction false} GateMeans(e: Expr, sat: set<Principal>)
    requires ToGate(e).Some?
    ensures Holds(ToGate(e).value, sat) <==> Satisfied(e, sat)
    decreases e, 0
  {
    match e
    case Str(s) =>
      var p := Submatch(s).value;
      MatchesExactly(s, p);
      forall q | q in sat && Names(s, q) ensures q == p {
        NamesOnlyOne(s, p, q);
      }
    case Call(fn, args) =>
      var gs := ToGate(e).value.kids;
      if fn in AND_NAMES || fn in OR_NAMES {
        GatesMean(args, sat);
        SameOfAll(gs, args, sat);
      } else {
        GatesMean(args[1..], sat);
        CountsMean(gs, args, 1, sat);
      }
    case _ =>
  }

  lemma {:induction false} GatesMean(es: seq<Expr>, sat: set<Principal>)
    requires ToGates(es).Some?
    ensures forall i :: 0 <= i < |es| ==> (Holds(ToGates(es).value[i], sat) <==> Satisfied(es[i], sat))
    decreases es, 0
  {
    if es != [] {
      GateMeans(es[0], sat);
      GatesMean(es[1..], sat);
    }
  }

  lemma SameOfAll(gs: seq<Gate>, es: seq<Expr>, sat: set<Principal>)
    requires |gs| == |es| && forall i :: 0 <= i < |es| ==> (Holds(gs[i], sat) <==> Satisfied(es[i], sat))
    ensures (forall g :: g in gs ==> Holds(g, sat)) <==> forall a :: a in es ==> Satisfied(a, sat)
    ensures (exists g :: g in gs && Holds(g, sat)) <==> exists a :: a in es && Satisfied(a, sat)
  {
    forall i | 0 <= i < |es| ensures gs[i] in gs && es[i] in es {
    }
  }

  /** A policy without quotes in its strings that compiles is satisfied by exactly the
      sets of principals that its text asks for. */
  lemma PolicyMeansWhatItSays(policy: string, env: Envelope, sat: set<Principal>)
    requires FromString(policy) == Success(env)
    requires Parse(policy).Some? ==> QuoteFree(Parse(policy).value)
    ensures Parse(policy).Some?
    ensures RuleHolds(env.rule, env.identities, sat) <==> Satisfied(Parse(policy).value, sat)
  {
    hide FromString;
    hide Parse;
    hide ToGate;
    hide QuoteFree;
    OnlyGatesCompile(policy);
    var e := Parse(policy).value;
    CompilationPreservesMeaning(policy, e, env, sat);
    GateMeans(e, sat);
  }

  /** The same, spelled out for the outermost call. */
  lemma CallMeans(policy: string, fn: string, args: seq<Expr>, env: Envelope, sat: set<Principal>)
    requires Parse(policy) == Some(Call(fn, args)) && QuoteFree(Call(fn, args))
    requires FromString(policy) == Success(env)
    ensures fn in {"And", "and", "AND", "Or", "or", "OR", "OutOf", "outof", "OUTOF"}
    ensures fn in {"And", "and", "AND"} ==>
      (RuleHolds(env.rule, env.identities, sat) <==> forall a :: a in args ==> Satisfied(a, sat))
    ensures fn in {"Or", "or", "OR"} ==>
      (RuleHolds(env.rule, env.identities, sat) <==> exists a :: a in args && Satisfied(a, sat))
    ensures fn in {"OutOf", "outof", "OUTOF"} ==>
      && args != [] && Numeral(args[0]).Some?
      && (RuleHolds(env.rule, env.identities, sat) <==>
            |SatisfiedFrom(args, 1, sat)| >= Numeral(args[0]).value)
  {
    hide FromString;
    hide Parse;
    hide QuoteFree;
    PolicyMeansWhatItSays(policy, env, sat);
    OnlyGatesCompile(policy);
  }

  // ----- what compiles

  /** What may stand as an operand; a call may also stand as a whole policy. */
  ghost predicate WellMade(e: Expr) {
    match e
    case Str(s) => exists p :: Names(s, p) && AllowedMsp(p.msp)
    case Call(fn, args) =>
      if fn in {"And", "and", "AND", "Or", "or", "OR"} then args != [] && forall a :: a in args ==> WellMade(a)
      else
        && fn in {"OutOf", "outof", "OUTOF"} && |args| > 1
        && Numeral(args[0]).Some? && Numeral(args[0]).value <= |args|
        && forall i :: 1 <= i < |args| ==> WellMade(args[i])
    case _ => false
  }

  lemma {:induction false} WellMadeExactly(e: Expr)
    ensures WellMade(e) <==> ToGate(e).Some? && Inhabited(ToGate(e).value) && ThresholdsFit(ToGate(e).value)
    decreases e, 0
  {
    match e
    case Str(s) =>
      if p :| Names(s, p) && AllowedMsp(p.msp) {
        MatchesExactly(s, p);
      }
      if Submatch(s).Some? {
        MatchesExactly(s, Submatch(s).value);
      }
    case Call(fn, args) =>
      if fn in AND_NAMES || fn in OR_NAMES {
        AllWellMadeExactly(args);
      } else if args != [] {
        AllWellMadeExactly(args[1..]);
        RestOfArguments(args);
      }
    case _ =>
  }

  lemma RestOfArguments(args: seq<Expr>)
    requires args != []
    ensures (forall i :: 1 <= i < |args| ==> WellMade(args[i])) <==> forall a :: a in args[1..] ==> WellMade(a)
  {
    assert forall i :: 1 <= i < |args| ==> args[i] == args[1..][i - 1];
  }

  lemma {:induction false} AllWellMadeExactly(es: seq<Expr>)
    ensures (forall a :: a in es ==> WellMade(a)) <==>
      ToGates(es).Some? && InhabitedAll(ToGates(es).value) && ThresholdsFitAll(ToGates(es).value)
    decreases es, 0
  {
    if es != [] {
      WellMadeExactly(es[0]);
      AllWellMadeExactly(es[1..]);
      assert forall a :: a in es <==> a == es[0] || a in es[1..];
    }
  }

  /** Without quotes in its strings a policy compiles if and only if it is a call of
      this form. */
  lemma CompilesExactlyWellMade(policy: string)
    requires Parse(policy).Some? ==> QuoteFree(Parse(policy).value)
    ensures FromString(policy).Success? <==>
      Parse(policy).Some? && Parse(policy).value.Call? && WellMade(Parse(policy).value)
  {
    hide FromString;
    hide Parse;
    hide WellMade;
    hide QuoteFree;
    CompilesExactly(policy);
    if Parse(policy).Some? {
      WellMadeExactly(Parse(policy).value);
    }
  }

  // ----- other names

  /** Every call in the expression, at any depth, is by one of the nine names. */
  ghost predicate GateCallsOnly(e: Expr) {
    e.Call? ==>
      && e.fn in {"And", "and", "AND", "Or", "or", "OR", "OutOf", "outof", "OUTOF"}
      && forall a :: a in e.args ==> GateCallsOnly(a)
  }

  lemma {:induction false} OtherNamesFail(e: Expr)
    ensures Eval(Translate, e).Success? ==> GateCallsOnly(e)
    decreases e, 0
  {
    if e.Call? && EvalArgs(Translate, e.args).Success? {
      ArgumentsCallGates(e.args);
    }
  }

  lemma {:induction false} ArgumentsCallGates(es: seq<Expr>)
    requires EvalArgs(Translate, es).Success?
    ensures forall a :: a in es ==> GateCallsOnly(a)
    decreases es, 0
  {
    if es != [] {
      OtherNamesFail(es[0]);
      ArgumentsCallGates(es[1..]);
      assert forall a :: a in es ==> a == es[0] || a in es[1..];
    }
  }

  /** What is no call at all is refused with an error that says so. */
  lemma OnlyCallsCompile(policy: string)
    ensures match Parse(policy)
      case None => FromString(policy) == Failure(Syntax(policy))
      case Some(Num(_)) => FromString(policy) == Failure(InvalidPolicy)
      case Some(Var(name)) => FromString(policy) == Failure(NoParameter(name))
      case Some(Call(_, _)) => true
      case Some(Str(s)) => QuoteFree(Str(s)) ==> FromString(policy).Failure?
  {
    hide Parse;
    hide RunSecondPass;
    assert TEXT_PASSES[0] == Translate;
    if Parse(policy).Some? && Parse(policy).value.Str? && QuoteFree(Parse(policy).value) {
      CompilesExactlyWellMade(policy);
    }
  }

  /** An OutOf without operands is reported with the number of its arguments. */
  lemma MissingOperandsAreRefused(policy: string, fn: string, args: seq<Expr>)
    requires Parse(policy) == Some(Call(fn, args)) && fn in {"OutOf", "outof", "OUTOF"}
    requires |args| < 2 && EvalArgs(Translate, args).Success?
    ensures FromString(policy) == Failure(TooFewArguments(|args|))
  {
    hide Parse;
    hide FromString;
    hide Eval;
    TooFewOperands(fn, args);
    RefusedAtOnce(policy, Call(fn, args));
  }

  lemma TooFewOperands(fn: string, args: seq<Expr>)
    requires fn in {"OutOf", "outof", "OUTOF"} && |args| < 2 && EvalArgs(Translate, args).Success?
    ensures Eval(Translate, Call(fn, args)) == Failure(TooFewArguments(|args|))
  {
    hide Render;
    hide EvalArgs;
    EvalArgsLength(args);
  }

  /** So a policy with any other name in it fails in the first pass. */
  lemma UnknownNamesAreRefused(policy: string, e: Expr)
    requires Parse(policy) == Some(e) && !GateCallsOnly(e)
    ensures RunPass(Translate, policy).Failure? && FromString(policy).Failure?
  {
    hide Parse;
    OtherNamesFail(e);
    RefusedAtOnce(policy, e);
  }

  lemma RefusedAtOnce(policy: string, e: Expr)
    requires Parse(policy) == Some(e) && Eval(Translate, e).Failure?
    ensures RunPass(Translate, policy).Failure? && FromString(policy) == Failure(Eval(Translate, e).error)
  {
    hide Parse;
    hide Eval;
    assert TEXT_PASSES[0] == Translate;
  }
}
