/** What the three passes preserve: the meaning of the AND / OR / OutOf
    expression, and a one-to-one identity table in a fixed allocation order. */
module PolicyProofs {
  import opened Wrappers
  import opened PolicyText
  import opened PolicyDsl
  import opened PolicyGates
  import opened PolicyTokens

  // ----- the compiled rule

  predicate RuleHolds(r: Rule, ids: seq<Principal>, sat: set<Principal>)
    decreases r, 0
  {
    match r
    case SignedBy(i) => i < |ids| && ids[i] in sat
    case NOutOf(n, rules) => CountRules(rules, ids, sat) >= n
  }

  function CountRules(rs: seq<Rule>, ids: seq<Principal>, sat: set<Principal>): nat
    decreases rs, 0
  {
    if rs == [] then 0 else (if RuleHolds(rs[0], ids, sat) then 1 else 0) + CountRules(rs[1..], ids, sat)
  }

  /** How often each index occurs in a SignedBy leaf of the rule. */
  function LeafIndices(r: Rule): multiset<nat>
    decreases r, 0
  {
    match r
    case SignedBy(i) => multiset{i}
    case NOutOf(_, rules) => LeafIndicesAll(rules)
  }

  function LeafIndicesAll(rs: seq<Rule>): multiset<nat>
    decreases rs, 0
  {
    if rs == [] then multiset{} else LeafIndices(rs[0]) + LeafIndicesAll(rs[1..])
  }

  /** The leaf indices in evaluation order: nested gates before direct principals. */
  function IndexOrder(r: Rule): seq<nat>
    decreases r, 0
  {
    match r
    case SignedBy(i) => [i]
    case NOutOf(_, rules) => NestedIndices(rules) + DirectIndices(rules)
  }

  function NestedIndices(rs: seq<Rule>): seq<nat>
    decreases rs, 0
  {
    if rs == [] then []
    else (if rs[0].SignedBy? then [] else IndexOrder(rs[0])) + NestedIndices(rs[1..])
  }

  function DirectIndices(rs: seq<Rule>): seq<nat> {
    if rs == [] then []
    else (if rs[0].SignedBy? then [rs[0].index] else []) + DirectIndices(rs[1..])
  }

  /** The same traversal of the source expression, listing its principals. */
  function AllocationOrder(g: Gate): seq<Principal>
    decreases g, 0
  {
    match g
    case Leaf(p) => [p]
    case _ => NestedOrder(g.kids) + DirectOrder(g.kids)
  }

  function NestedOrder(gs: seq<Gate>): seq<Principal>
    decreases gs, 0
  {
    if gs == [] then []
    else (if gs[0].Leaf? then [] else AllocationOrder(gs[0])) + NestedOrder(gs[1..])
  }

  function DirectOrder(gs: seq<Gate>): seq<Principal> {
    if gs == [] then []
    else (if gs[0].Leaf? then [gs[0].p] else []) + DirectOrder(gs[1..])
  }

  function Range(a: nat, b: nat): seq<nat>
    requires a <= b
  {
    seq(b - a, i requires 0 <= i => a + i)
  }

  lemma RangeJoin(a: nat, b: nat, c: nat)
    requires a <= b <= c
    ensures Range(a, b) + Range(b, c) == Range(a, c)
  {
  }

  /** The rule has the shape of the gate, and each leaf names its principal. */
  predicate Represents(r: Rule, g: Gate, ids: seq<Principal>)
    decreases g, 0
  {
    if g.Leaf? then r.SignedBy? && r.index < |ids| && ids[r.index] == g.p
    else r.NOutOf? && r.n == Threshold(g) && RepresentsAll(r.rules, g.kids, ids)
  }

  predicate RepresentsAll(rs: seq<Rule>, gs: seq<Gate>, ids: seq<Principal>)
    decreases gs, 0
  {
    |rs| == |gs| && (gs != [] ==> Represents(rs[0], gs[0], ids) && RepresentsAll(rs[1..], gs[1..], ids))
  }

  // ----- the principal regex

  lemma SubmatchSound(s: string)
    requires Submatch(s).Some?
    ensures PrincipalText(Submatch(s).value) == s && ValidMsp(Submatch(s).value.msp)
  {
    var k := LastDot(s);
    assert s == s[..k] + "." + s[k + 1..];
  }

  /** The regex splits every `msp.role` into exactly that MSP and role, dots in
      the MSP included. */
  lemma SubmatchComplete(p: Principal)
    requires ValidMsp(p.msp)
    ensures Submatch(PrincipalText(p)) == Some(p)
  {
    var s := PrincipalText(p);
    var n := |p.msp|;
    assert s[n] == '.';
    forall i | n < i < |s| ensures s[i] != '.' {
      assert s[i] == RoleText(p.role)[i - n - 1];
    }
    assert LastDot(s) == n;
    assert s[..n] == p.msp && s[n + 1..] == RoleText(p.role);
  }

  lemma PrincipalChars(s: string)
    requires Submatch(s).Some?
    ensures forall i :: 0 <= i < |s| ==> IsMspChar(s[i])
    ensures '.' in s
  {
    MatchedChars(s);
    SubmatchSound(s);
    assert s[|Submatch(s).value.msp|] == '.';
  }

  /** No printed gate is mistaken for a principal. */
  lemma GateTextIsNotPrincipal(fn: string, args: seq<Expr>)
    ensures Submatch(Print(Call(fn, args))).None?
  {
    var s := Print(Call(fn, args));
    assert s[|fn|] == '(';
    if Submatch(s).Some? {
      PrincipalChars(s);
    }
  }

  // ----- the two text passes

  /** The expression a text pass prints for a gate, without or with the context. */
  function Target(g: Gate, withId: bool): Expr
    decreases g, 0
  {
    match g
    case Leaf(p) => Str(PrincipalText(p))
    case _ => Call("outof", TargetHead(Threshold(g), withId) + TargetAll(g.kids, withId))
  }

  function TargetHead(t: nat, withId: bool): seq<Expr> {
    if withId then [Var("ID"), Num(t)] else [Num(t)]
  }

  function TargetAll(gs: seq<Gate>, withId: bool): (es: seq<Expr>)
    ensures |es| == |gs|
    decreases gs, 0
  {
    if gs == [] then [] else [Target(gs[0], withId)] + TargetAll(gs[1..], withId)
  }

  /** The value a text pass computes for a gate. */
  function TextValue(g: Gate, withId: bool): Value {
    VString(if g.Leaf? then PrincipalText(g.p) else Print(Target(g, withId)))
  }

  function TextValues(gs: seq<Gate>, withId: bool): (vs: seq<Value>)
    ensures |vs| == |gs|
  {
    if gs == [] then [] else [TextValue(gs[0], withId)] + TextValues(gs[1..], withId)
  }

  /** Every principal of the gate is one the regex accepts. */
  predicate Named(g: Gate)
    decreases g, 0
  {
    if g.Leaf? then ValidMsp(g.p.msp) else NamedAll(g.kids)
  }

  predicate NamedAll(gs: seq<Gate>)
    decreases gs, 0
  {
    gs != [] ==> Named(gs[0]) && NamedAll(gs[1..])
  }

  lemma {:induction false} RenderTexts(gs: seq<Gate>, withId: bool, numbers: bool)
    requires NamedAll(gs)
    ensures Render(TextValues(gs, withId), numbers) == Success(PrintTail(TargetAll(gs, withId)))
  {
    if gs != [] {
      hide Print;
      hide Target;
      hide TextValue;
      hide Submatch;
      hide RenderString;
      RendersAsPrinted(gs[0], withId);
      RenderTexts(gs[1..], withId, numbers);
      var es, vs := TargetAll(gs, withId), TextValues(gs, withId);
      assert es[0] == Target(gs[0], withId) && es[1..] == TargetAll(gs[1..], withId);
      assert vs[0] == TextValue(gs[0], withId) && vs[1..] == TextValues(gs[1..], withId);
    }
  }

  lemma RendersAsPrinted(g: Gate, withId: bool)
    requires Named(g)
    ensures TextValue(g, withId).VString?
    ensures RenderString(TextValue(g, withId).s) == Print(Target(g, withId))
  {
    if g.Leaf? {
      SubmatchComplete(g.p);
    } else {
      GateTextIsNotPrincipal("outof", Target(g, withId).args);
    }
  }

  lemma {:induction false} GateIsNamed(e: Expr)
    requires ToGate(e).Some?
    ensures Named(ToGate(e).value)
    decreases e, 0
  {
    match e
    case Str(s) => SubmatchSound(s);
    case Call(fn, args) =>
      if fn in AND_NAMES || fn in OR_NAMES {
        GatesAreNamed(args);
      } else {
        GatesAreNamed(args[1..]);
      }
    case _ =>
  }

  lemma {:induction false} GatesAreNamed(es: seq<Expr>)
    requires ToGates(es).Some?
    ensures NamedAll(ToGates(es).value)
    decreases es, 0
  {
    if es != [] {
      GateIsNamed(es[0]);
      GatesAreNamed(es[1..]);
    }
  }

  /** A gate expression is built of principals and numerals, which hold no quotes. */
  lemma {:induction false} GateIsQuoteFree(e: Expr)
    requires ToGate(e).Some?
    ensures QuoteFree(e)
    decreases e, 0
  {
    match e
    case Str(s) => MatchedChars(s);
    case Call(fn, args) =>
      if fn in AND_NAMES || fn in OR_NAMES {
        GatesAreQuoteFree(args);
      } else {
        GatesAreQuoteFree(args[1..]);
        NumeralIsQuoteFree(args[0]);
        assert forall a :: a in args ==> a == args[0] || a in args[1..];
      }
    case _ =>
  }

  lemma NumeralIsQuoteFree(e: Expr)
    requires Numeral(e).Some?
    ensures QuoteFree(e)
  {
    if e.Str? {
      NumeralTokens(e);
      NumberIsNoShorter(e.s, Numeral(e).value);
    }
  }

  lemma {:induction false} GatesAreQuoteFree(es: seq<Expr>)
    requires ToGates(es).Some?
    ensures forall e :: e in es ==> QuoteFree(e)
    decreases es, 0
  {
    if es != [] {
      GateIsQuoteFree(es[0]);
      GatesAreQuoteFree(es[1..]);
      assert forall e :: e in es ==> e == es[0] || e in es[1..];
    }
  }

  lemma PrintCall(fn: string, head: Expr, rest: seq<Expr>)
    ensures Print(Call(fn, [head] + rest)) == fn + "(" + Print(head) + PrintTail(rest) + ")"
  {
    assert ([head] + rest)[1..] == rest;
  }

  /** What `firstPass` prints for the same gate. */
  lemma RenderGateWithContext(g: Gate)
    requires !g.Leaf? && Named(g)
    ensures FirstPass([VFloat(Threshold(g))] + TextValues(g.kids, true)) == Success(TextValue(g, true))
  {
    hide Print;
    hide PrintTail;
    hide Render;
    hide TextValues;
    hide TargetAll;
    var t, vs, es := Threshold(g), TextValues(g.kids, true), TargetAll(g.kids, true);
    RenderTexts(g.kids, true, true);
    RenderThreshold(t, vs, PrintTail(es));
    assert Target(g, true) == Call("outof", [Var("ID")] + ([Num(t)] + es));
    PrintCall("outof", Var("ID"), [Num(t)] + es);
    PrintThreshold(t, es);
    var text := PrintTail([Num(t)] + es);
    assert "outof" + "(" + "ID" + text + ")" == "outof(ID" + text + ")";
  }

  lemma PrintThreshold(t: nat, es: seq<Expr>)
    ensures Print(Var("ID")) == "ID"
    ensures PrintTail([Num(t)] + es) == ", " + Itoa(t) + PrintTail(es)
  {
    assert ([Num(t)] + es)[1..] == es;
  }

  lemma RenderThreshold(t: nat, vs: seq<Value>, text: string)
    requires Render(vs, true) == Success(text)
    ensures Render([VFloat(t)] + vs, true) == Success(", " + Itoa(t) + text)
  {
    assert ([VFloat(t)] + vs)[1..] == vs;
  }

  /** The first translation succeeds on a gate expression unless some gate is empty,
      which it reports as a call with a threshold and nothing else. */
  lemma {:induction false} TranslatesInhabited(e: Expr)
    requires ToGate(e).Some?
    ensures var r := Eval(Translate, e);
      if Inhabited(ToGate(e).value) then r.Success? && r.value.VString? else r == Failure(TooFewArguments(1))
    decreases e, 0
  {
    hide Lex;
    hide Submatch;
    hide Itoa;
    var g := ToGate(e).value;
    match e
    case Str(_) =>
    case Call(fn, args) =>
      if fn in AND_NAMES || fn in OR_NAMES {
        TranslatesAllInhabited(args);
        if InhabitedAll(g.kids) {
          var n := if fn in AND_NAMES then |args| else 1;
          assert ([VInt(n)] + EvalArgs(Translate, args).value)[1..] == EvalArgs(Translate, args).value;
        }
      } else {
        TranslatesAllInhabited(args[1..]);
      }
    case _ =>
  }

  lemma {:induction false} TranslatesAllInhabited(es: seq<Expr>)
    requires ToGates(es).Some?
    ensures var r := EvalArgs(Translate, es);
      if InhabitedAll(ToGates(es).value) then r.Success? && |r.value| == |es| && Render(r.value, false).Success?
      else r == Failure(TooFewArguments(1))
    decreases es, 0
  {
    if es != [] {
      var gs := ToGates(es).value;
      TranslatesInhabited(es[0]);
      TranslatesAllInhabited(es[1..]);
      assert gs[1..] == ToGates(es[1..]).value;
    }
  }

  /** And prints, token by token, nested `outof` calls with the gates' thresholds. */
  lemma {:induction false} PrintsTargetTokens(e: Expr)
    requires ToGate(e).Some?
    ensures TextTokens(e) == Some(Tokens(Target(ToGate(e).value, false)))
    decreases e, 0
  {
    hide Lex;
    hide Tokens;
    var g := ToGate(e).value;
    match e
    case Str(s) =>
      SubmatchSound(s);
      TokensOfString(s);
    case Call(fn, args) =>
      if fn in AND_NAMES || fn in OR_NAMES {
        PrintAllTargetTokens(args);
      } else {
        NumeralTokens(args[0]);
        PrintAllTargetTokens(args[1..]);
      }
      OutOfTokens(Threshold(g), TargetAll(g.kids, false));
    case _ =>
  }

  lemma TokensOfString(s: string)
    ensures Tokens(Str(s)) == [Quoted(s)]
  {
  }

  lemma OutOfTokens(t: nat, es: seq<Expr>)
    ensures Bracketed(Some([Number(t)]), Some(TokensTail(es))) == Some(Tokens(Call("outof", [Num(t)] + es)))
  {
    assert ([Num(t)] + es)[1..] == es;
    assert ([Ident("outof"), LParen] + [Number(t)]) + (TokensTail(es) + [RParen])
        == [Ident("outof"), LParen] + ([Number(t)] + (TokensTail(es) + [RParen]));
  }

  lemma {:induction false} PrintAllTargetTokens(es: seq<Expr>)
    requires ToGates(es).Some?
    ensures OperandTokens(es) == Some(TokensTail(TargetAll(ToGates(es).value, false)))
    decreases es, 0
  {
    if es != [] {
      var gs := ToGates(es).value;
      PrintsTargetTokens(es[0]);
      PrintAllTargetTokens(es[1..]);
      var ts := TargetAll(gs, false);
      assert gs[0] == ToGate(es[0]).value && gs[1..] == ToGates(es[1..]).value;
      assert ts[0] == Target(gs[0], false) && ts[1..] == TargetAll(gs[1..], false);
      var head, tail := Tokens(ts[0]), TokensTail(ts[1..]);
      assert ([Comma] + head) + tail == [Comma] + (head + tail);
    }
  }

  /** The first translation: the text of a gate expression reads as nested `outof`
      calls with the right thresholds, and fails to exist when some gate is empty. */
  lemma Translates(policy: string, e: Expr)
    requires Parse(policy) == Some(e) && ToGate(e).Some? && !ToGate(e).value.Leaf?
    ensures var r := RunPass(Translate, policy);
      if Inhabited(ToGate(e).value) then r.Success? && Parse(r.value) == Some(Target(ToGate(e).value, false))
      else r == Failure(TooFewArguments(1))
  {
    var g := ToGate(e).value;
    TranslatesInhabited(e);
    if Inhabited(g) {
      var text := Eval(Translate, e).value.s;
      GateIsQuoteFree(e);
      QuoteFreeIsPastable(e);
      LexOfText(e, text, "");
      GateTextHasBracket(text);
      assert text + "" == text;
      PrintsTargetTokens(e);
      var ts := Tokens(Target(g, false));
      assert ts + [] == ts;
      ParseByTokens(text, Target(g, false));
    }
  }

  /** The first pass proper: the same tree with the context as first argument. */
  lemma {:induction false} AddsContext(g: Gate)
    requires Named(g)
    ensures Eval(AddContext, Target(g, false)) == Success(TextValue(g, true))
    decreases g, 0
  {
    if !g.Leaf? {
      var t, es, vs := Threshold(g), TargetAll(g.kids, false), TextValues(g.kids, true);
      AddsContextAll(g.kids);
      RenderGateWithContext(g);
      assert ([Num(t)] + es)[1..] == es;
      assert EvalArgs(AddContext, [Num(t)] + es) == Success([VFloat(t)] + vs);
    }
  }

  lemma {:induction false} AddsContextAll(gs: seq<Gate>)
    requires NamedAll(gs)
    ensures EvalArgs(AddContext, TargetAll(gs, false)) == Success(TextValues(gs, true))
    decreases gs, 0
  {
    if gs != [] {
      AddsContext(gs[0]);
      AddsContextAll(gs[1..]);
      assert TargetAll(gs, false)[1..] == TargetAll(gs[1..], false);
    }
  }

  lemma {:induction false} TargetIsPrintable(g: Gate, withId: bool)
    requires Named(g)
    ensures Printable(Target(g, withId))
    decreases g, 0
  {
    if g.Leaf? {
      SubmatchComplete(g.p);
      PrincipalChars(PrincipalText(g.p));
    } else {
      TargetsArePrintable(g.kids, withId);
    }
  }

  lemma {:induction false} TargetsArePrintable(gs: seq<Gate>, withId: bool)
    requires NamedAll(gs)
    ensures forall e :: e in TargetAll(gs, withId) ==> Printable(e)
    decreases gs, 0
  {
    if gs != [] {
      TargetIsPrintable(gs[0], withId);
      TargetsArePrintable(gs[1..], withId);
    }
  }

  /** A policy that is a single principal prints as dotted text, which no pass reads. */
  lemma {:induction false} DottedTextDoesNotLex(s: string)
    requires forall i :: 0 <= i < |s| ==> IsMspChar(s[i])
    requires '.' in s
    ensures Lex(s).None?
    decreases |s|
  {
    hide Lex;
    hide NextToken;
    LexStep(s);
    if NextToken(s).Some? {
      DotIsLeft(s, NextToken(s).value.1);
      DottedTextDoesNotLex(NextToken(s).value.1);
    }
  }

  lemma DotIsLeft(s: string, rest: string)
    requires s != "" && NextToken(s).Some? && NextToken(s).value.1 == rest
    requires '.' in s && forall i :: 0 <= i < |s| ==> IsMspChar(s[i])
    ensures '.' in rest
  {
    hide Read;
    hide ParseNat;
    var more := s[1..];
    DotInRest(s);
    if IsDigit(s[0]) {
      ReadStopsAtDot(more, IsDigit);
      assert rest == Read(more, IsDigit).value.1;
    } else if IsLetter(s[0]) {
      ReadStopsAtDot(more, IsIdentChar);
      assert rest == Read(more, IsIdentChar).value.1;
    }
  }

  lemma DotInRest(s: string)
    requires '.' in s
    ensures s[0] != '.' ==> '.' in s[1..]
  {
    var i :| 0 <= i < |s| && s[i] == '.';
    if i > 0 {
      assert s[1..][i - 1] == '.';
    }
  }

  lemma {:induction false} ReadStopsAtDot(s: string, p: char -> bool)
    requires forall i :: 0 <= i < |s| ==> IsMspChar(s[i])
    requires '.' in s && !p('.')
    ensures Read(s, p).Some? && '.' in Read(s, p).value.1
  {
    if p(s[0]) {
      DotInRest(s);
      ReadStopsAtDot(s[1..], p);
    }
  }

  // ----- the second pass

  /** The rule of a gate whose identities start at index `b`, generated in one
      descent: nested gates take the first indices, direct principals the rest. */
  function Compiled(g: Gate, b: nat): Rule
    requires !g.Leaf?
    decreases g, 0
  {
    NOutOf(Threshold(g), CompiledKids(g.kids, b, b + |NestedOrder(g.kids)|))
  }

  function CompiledKids(gs: seq<Gate>, nested: nat, direct: nat): (rs: seq<Rule>)
    ensures |rs| == |gs|
    decreases gs, 0
  {
    if gs == [] then []
    else if gs[0].Leaf? then [SignedBy(direct)] + CompiledKids(gs[1..], nested, direct + 1)
    else [Compiled(gs[0], nested)] + CompiledKids(gs[1..], nested + |AllocationOrder(gs[0])|, direct)
  }

  /** The operand values `secondPass` receives for the same gate. */
  function KidValues(gs: seq<Gate>, nested: nat): (vs: seq<Value>)
    ensures |vs| == |gs|
  {
    if gs == [] then []
    else if gs[0].Leaf? then [VString(PrincipalText(gs[0].p))] + KidValues(gs[1..], nested)
    else [VPolicy(Compiled(gs[0], nested))] + KidValues(gs[1..], nested + |AllocationOrder(gs[0])|)
  }

  /** A direct principal takes the next free index. */
  lemma BuildsDirect(p: Principal, vs: seq<Value>, ids: seq<Principal>)
    requires ValidMsp(p.msp)
    ensures Build([VString(PrincipalText(p))] + vs, ids) == PushRule(SignedBy(|ids|), Build(vs, ids + [p]))
  {
    SubmatchComplete(p);
    assert ([VString(PrincipalText(p))] + vs)[1..] == vs;
  }

  lemma {:induction false} BuildsKids(gs: seq<Gate>, nested: nat, ids: seq<Principal>)
    requires NamedAll(gs)
    ensures Build(KidValues(gs, nested), ids)
         == (Success(CompiledKids(gs, nested, |ids|)), ids + DirectOrder(gs))
    decreases |gs|
  {
    hide PrincipalText;
    hide Submatch;
    if gs == [] {
      assert ids + [] == ids;
    } else if gs[0].Leaf? {
      BuildsKids(gs[1..], nested, ids + [gs[0].p]);
      BuildsLeaf(gs, nested, ids);
    } else {
      var nested' := nested + |AllocationOrder(gs[0])|;
      BuildsKids(gs[1..], nested', ids);
      assert KidValues(gs, nested)[1..] == KidValues(gs[1..], nested');
      assert DirectOrder(gs) == DirectOrder(gs[1..]);
    }
  }

  lemma BuildsLeaf(gs: seq<Gate>, nested: nat, ids: seq<Principal>)
    requires gs != [] && gs[0].Leaf? && Named(gs[0])
    requires
      var ids' := ids + [gs[0].p];
      Build(KidValues(gs[1..], nested), ids')
        == (Success(CompiledKids(gs[1..], nested, |ids'|)), ids' + DirectOrder(gs[1..]))
    ensures Build(KidValues(gs, nested), ids)
         == (Success(CompiledKids(gs, nested, |ids|)), ids + DirectOrder(gs))
  {
    hide PrincipalText;
    hide Submatch;
    hide Build;
    hide Compiled;
    hide AllocationOrder;
    var p := gs[0].p;
    assert KidValues(gs, nested) == [VString(PrincipalText(p))] + KidValues(gs[1..], nested);
    assert CompiledKids(gs, nested, |ids|) == [SignedBy(|ids|)] + CompiledKids(gs[1..], nested, |ids| + 1);
    assert (ids + [p]) + DirectOrder(gs[1..]) == ids + DirectOrder(gs);
    BuildsDirect(p, KidValues(gs[1..], nested), ids);
  }

  /** The second pass computes exactly that rule and extends the table by exactly
      the principals of the gate. */
  lemma {:induction false} AllocatesGate(g: Gate, ids: seq<Principal>)
    requires Named(g) && Valid(g)
    ensures Allocate(Target(g, true), ids) == (Success(VPolicy(Compiled(g, |ids|))), ids + AllocationOrder(g))
    decreases g, 0
  {
    hide Build;
    hide KidValues;
    hide CompiledKids;
    hide Allocate;
    hide AllocateArgs;
    hide Target;
    hide NestedOrder;
    hide DirectOrder;
    var gs := g.kids;
    var ids' := ids + NestedOrder(gs);
    AllocatesKids(gs, ids);
    BuildsKids(gs, |ids|, ids');
    AllocateStep(g, ids, KidValues(gs, |ids|), ids', CompiledKids(gs, |ids|, |ids'|), ids' + DirectOrder(gs));
    assert ids' + DirectOrder(gs) == ids + AllocationOrder(g);
  }

  /** One gate of the second pass, given its evaluated operands and their rules. */
  lemma AllocateStep(g: Gate, ids: seq<Principal>, vs: seq<Value>, ids': seq<Principal>,
                     rs: seq<Rule>, ids'': seq<Principal>)
    requires !g.Leaf? && g.kids != [] && Threshold(g) <= |g.kids| + 1
    requires AllocateArgs(TargetAll(g.kids, true), ids) == (Success(vs), ids')
    requires |vs| == |g.kids|
    requires Build(vs, ids') == (Success(rs), ids'')
    ensures Allocate(Target(g, true), ids) == (Success(VPolicy(NOutOf(Threshold(g), rs))), ids'')
  {
    HeadArguments(Threshold(g), TargetAll(g.kids, true), ids);
    SecondPassOn(Threshold(g), vs, ids', rs, ids'');
  }

  /** Evaluating the context and the threshold does not touch the table. */
  lemma HeadArguments(t: nat, es: seq<Expr>, ids: seq<Principal>)
    ensures
      var (r, ids') := AllocateArgs(es, ids);
      AllocateArgs([Var("ID"), Num(t)] + es, ids) ==
        match r {
          case Failure(err) => (Failure(err), ids')
          case Success(vs) => (Success([VContext, VFloat(t)] + vs), ids')
        }
  {
    var all := [Var("ID"), Num(t)] + es;
    var (r, ids') := AllocateArgs(es, ids);
    assert all[1..] == [Num(t)] + es && all[1..][1..] == es;
    if r.Success? {
      assert AllocateArgs(all[1..], ids) == (Success([VFloat(t)] + r.value), ids');
      assert [VContext] + ([VFloat(t)] + r.value) == [VContext, VFloat(t)] + r.value;
    } else {
      assert AllocateArgs(all[1..], ids) == (Failure(r.error), ids');
    }
  }

  lemma SecondPassOn(t: nat, vs: seq<Value>, ids: seq<Principal>, rs: seq<Rule>, ids': seq<Principal>)
    requires vs != [] && t <= |vs| + 1
    requires Build(vs, ids) == (Success(rs), ids')
    ensures SecondPass([VContext, VFloat(t)] + vs, ids) == (Success(VPolicy(NOutOf(t, rs))), ids')
  {
    assert ([VContext, VFloat(t)] + vs)[2..] == vs;
  }

  lemma {:induction false} AllocatesKids(gs: seq<Gate>, ids: seq<Principal>)
    requires NamedAll(gs) && InhabitedAll(gs) && ThresholdsFitAll(gs)
    ensures AllocateArgs(TargetAll(gs, true), ids) == (Success(KidValues(gs, |ids|)), ids + NestedOrder(gs))
    decreases gs, 0
  {
    hide PrincipalText;
    hide SecondPass;
    hide Allocate;
    hide AllocateArgs;
    hide AllocationOrder;
    hide Compiled;
    hide NestedOrder;
    hide KidValues;
    hide Target;
    hide TargetAll;
    if gs == [] {
      AllocatesNothing(ids);
    } else if gs[0].Leaf? {
      LeafFirst(gs, |ids|);
      AllocatesKids(gs[1..], ids);
      AllocatesLeaf(gs[0].p, ids);
      AllocateArgsStep(gs, ids, VString(PrincipalText(gs[0].p)), ids, KidValues(gs[1..], |ids|), ids + NestedOrder(gs));
    } else {
      var ids' := ids + AllocationOrder(gs[0]);
      GateFirst(gs, |ids|);
      AllocatesGate(gs[0], ids);
      AllocatesKids(gs[1..], ids');
      assert ids' + NestedOrder(gs[1..]) == ids + NestedOrder(gs);
      AllocateArgsStep(gs, ids, VPolicy(Compiled(gs[0], |ids|)), ids',
                       KidValues(gs[1..], |ids'|), ids + NestedOrder(gs));
    }
  }

  lemma LeafFirst(gs: seq<Gate>, nested: nat)
    requires gs != [] && gs[0].Leaf?
    ensures NestedOrder(gs) == NestedOrder(gs[1..])
    ensures KidValues(gs, nested) == [VString(PrincipalText(gs[0].p))] + KidValues(gs[1..], nested)
  {
  }

  lemma GateFirst(gs: seq<Gate>, nested: nat)
    requires gs != [] && !gs[0].Leaf?
    ensures NestedOrder(gs) == AllocationOrder(gs[0]) + NestedOrder(gs[1..])
    ensures KidValues(gs, nested)
         == [VPolicy(Compiled(gs[0], nested))] + KidValues(gs[1..], nested + |AllocationOrder(gs[0])|)
  {
  }

  lemma AllocatesNothing(ids: seq<Principal>)
    ensures AllocateArgs(TargetAll([], true), ids) == (Success(KidValues([], |ids|)), ids + NestedOrder([]))
  {
    assert ids + [] == ids;
  }

  lemma AllocatesLeaf(p: Principal, ids: seq<Principal>)
    ensures Allocate(Target(Leaf(p), true), ids) == (Success(VString(PrincipalText(p))), ids)
  {
  }

  lemma AllocateArgsStep(gs: seq<Gate>, ids: seq<Principal>, v: Value, ids': seq<Principal>,
                         rest: seq<Value>, ids'': seq<Principal>)
    requires gs != []
    requires Allocate(Target(gs[0], true), ids) == (Success(v), ids')
    requires AllocateArgs(TargetAll(gs[1..], true), ids') == (Success(rest), ids'')
    ensures AllocateArgs(TargetAll(gs, true), ids) == (Success([v] + rest), ids'')
  {
    var es := TargetAll(gs, true);
    assert es[0] == Target(gs[0], true) && es[1..] == TargetAll(gs[1..], true);
  }

  /** Some gate in the tree, of `n` operands, has the threshold `t` above n+1. */
  ghost predicate Overfull(g: Gate, t: nat, n: nat)
    decreases g, 0
  {
    !g.Leaf? && ((Threshold(g) == t && |g.kids| == n && t > n + 1) || OverfullAmong(g.kids, t, n))
  }

  ghost predicate OverfullAmong(gs: seq<Gate>, t: nat, n: nat)
    decreases gs, 0
  {
    gs != [] && (Overfull(gs[0], t, n) || OverfullAmong(gs[1..], t, n))
  }

  ghost predicate IsOverfull(e: PolicyError, g: Gate) { e.BadThreshold? && Overfull(g, e.t, e.n) }

  /** A threshold above n+1 anywhere in the tree stops the compilation, which reports
      such a gate. */
  lemma {:induction false} RejectsThreshold(g: Gate, ids: seq<Principal>)
    requires Named(g) && Inhabited(g) && !ThresholdsFit(g)
    ensures var r := Allocate(Target(g, true), ids).0; r.Failure? && IsOverfull(r.error, g)
    decreases g, 0
  {
    var t := Threshold(g);
    var es := TargetAll(g.kids, true);
    HeadArguments(t, es, ids);
    if ThresholdsFitAll(g.kids) {
      AllocatesKids(g.kids, ids);
    } else {
      RejectsThresholds(g.kids, ids);
    }
  }

  lemma {:induction false} RejectsThresholds(gs: seq<Gate>, ids: seq<Principal>)
    requires NamedAll(gs) && InhabitedAll(gs) && !ThresholdsFitAll(gs)
    ensures var r := AllocateArgs(TargetAll(gs, true), ids).0;
      r.Failure? && r.error.BadThreshold? && OverfullAmong(gs, r.error.t, r.error.n)
    decreases gs, 0
  {
    hide Allocate;
    hide Target;
    AllocateArgsUnfolds(gs, ids);
    if !ThresholdsFit(gs[0]) {
      RejectsThreshold(gs[0], ids);
    } else {
      if gs[0].Leaf? {
        AllocatesLeaf(gs[0].p, ids);
      } else {
        AllocatesGate(gs[0], ids);
      }
      RejectsThresholds(gs[1..], Allocate(Target(gs[0], true), ids).1);
    }
  }

  lemma AllocateArgsUnfolds(gs: seq<Gate>, ids: seq<Principal>)
    requires gs != []
    ensures var (r, ids') := Allocate(Target(gs[0], true), ids);
      var rest := AllocateArgs(TargetAll(gs[1..], true), ids');
      && (r.Failure? ==> AllocateArgs(TargetAll(gs, true), ids).0 == Failure(r.error))
      && (r.Success? && rest.0.Failure? ==> AllocateArgs(TargetAll(gs, true), ids).0 == Failure(rest.0.error))
  {
    hide Allocate;
    var es := TargetAll(gs, true);
    assert es[0] == Target(gs[0], true) && es[1..] == TargetAll(gs[1..], true);
  }

  // ----- meaning and identity table

  /** `xs` stands in the table at index `b`. */
  predicate At(table: seq<Principal>, b: nat, xs: seq<Principal>) {
    b + |xs| <= |table| && table[b..b + |xs|] == xs
  }

  lemma AtSplit(table: seq<Principal>, b: nat, xs: seq<Principal>, ys: seq<Principal>)
    requires At(table, b, xs + ys)
    ensures At(table, b, xs) && At(table, b + |xs|, ys)
  {
    var all := xs + ys;
    assert table[b..b + |xs|] == table[b..b + |all|][..|xs|] == xs;
    assert table[b + |xs|..b + |all|] == table[b..b + |all|][|xs|..] == ys;
  }

  lemma {:induction false} CompiledRepresents(g: Gate, b: nat, table: seq<Principal>)
    requires !g.Leaf? && At(table, b, AllocationOrder(g))
    ensures Represents(Compiled(g, b), g, table)
    decreases g, 0
  {
    AtSplit(table, b, NestedOrder(g.kids), DirectOrder(g.kids));
    CompiledKidsRepresent(g.kids, b, b + |NestedOrder(g.kids)|, table);
  }

  lemma {:induction false} CompiledKidsRepresent(gs: seq<Gate>, nested: nat, direct: nat, table: seq<Principal>)
    requires At(table, nested, NestedOrder(gs)) && At(table, direct, DirectOrder(gs))
    ensures RepresentsAll(CompiledKids(gs, nested, direct), gs, table)
    decreases gs, 0
  {
    hide Compiled;
    hide CompiledKids;
    hide AllocationOrder;
    hide NestedOrder;
    hide DirectOrder;
    hide Represents;
    hide RepresentsAll;
    if gs == [] {
      NothingRepresents(nested, direct, table);
    } else if gs[0].Leaf? {
      LeafRepresents(gs, nested, direct, table);
      CompiledKidsRepresent(gs[1..], nested, direct + 1, table);
      LeafCompiles(gs, nested, direct, table);
      OneMoreRepresents(SignedBy(direct), CompiledKids(gs[1..], nested, direct + 1), gs, table);
    } else {
      var nested' := nested + |AllocationOrder(gs[0])|;
      GateFirst(gs, nested);
      AtSplit(table, nested, AllocationOrder(gs[0]), NestedOrder(gs[1..]));
      CompiledRepresents(gs[0], nested, table);
      GateCompiles(gs, nested, direct);
      CompiledKidsRepresent(gs[1..], nested', direct, table);
      OneMoreRepresents(Compiled(gs[0], nested), CompiledKids(gs[1..], nested', direct), gs, table);
    }
  }

  lemma NothingRepresents(nested: nat, direct: nat, table: seq<Principal>)
    ensures RepresentsAll(CompiledKids([], nested, direct), [], table)
  {
  }

  lemma OneMoreRepresents(r: Rule, rest: seq<Rule>, gs: seq<Gate>, table: seq<Principal>)
    requires gs != [] && Represents(r, gs[0], table) && RepresentsAll(rest, gs[1..], table)
    ensures RepresentsAll([r] + rest, gs, table)
  {
    assert ([r] + rest)[1..] == rest;
  }

  lemma LeafCompiles(gs: seq<Gate>, nested: nat, direct: nat, table: seq<Principal>)
    requires gs != [] && gs[0].Leaf? && direct < |table| && table[direct] == gs[0].p
    ensures CompiledKids(gs, nested, direct) == [SignedBy(direct)] + CompiledKids(gs[1..], nested, direct + 1)
    ensures Represents(SignedBy(direct), gs[0], table)
  {
  }

  lemma GateCompiles(gs: seq<Gate>, nested: nat, direct: nat)
    requires gs != [] && !gs[0].Leaf?
    ensures DirectOrder(gs) == DirectOrder(gs[1..])
    ensures CompiledKids(gs, nested, direct)
         == [Compiled(gs[0], nested)] + CompiledKids(gs[1..], nested + |AllocationOrder(gs[0])|, direct)
  {
  }

  lemma LeafRepresents(gs: seq<Gate>, nested: nat, direct: nat, table: seq<Principal>)
    requires gs != [] && gs[0].Leaf?
    requires At(table, nested, NestedOrder(gs)) && At(table, direct, DirectOrder(gs))
    ensures direct < |table| && table[direct] == gs[0].p
    ensures At(table, nested, NestedOrder(gs[1..])) && At(table, direct + 1, DirectOrder(gs[1..]))
  {
    LeafFirst(gs, nested);
    AtSplit(table, direct, [gs[0].p], DirectOrder(gs[1..]));
    assert table[direct] == table[direct..direct + 1][0];
  }

  lemma {:induction false} CompiledCounts(g: Gate, b: nat)
    requires !g.Leaf?
    ensures IndexOrder(Compiled(g, b)) == Range(b, b + |AllocationOrder(g)|)
    decreases g, 0
  {
    var b' := b + |NestedOrder(g.kids)|;
    CompiledKidsCount(g.kids, b, b');
    RangeJoin(b, b', b' + |DirectOrder(g.kids)|);
  }

  lemma {:induction false} CompiledKidsCount(gs: seq<Gate>, nested: nat, direct: nat)
    ensures NestedIndices(CompiledKids(gs, nested, direct)) == Range(nested, nested + |NestedOrder(gs)|)
    ensures DirectIndices(CompiledKids(gs, nested, direct)) == Range(direct, direct + |DirectOrder(gs)|)
    decreases gs, 0
  {
    if gs != [] {
      var rs := CompiledKids(gs, nested, direct);
      if gs[0].Leaf? {
        CompiledKidsCount(gs[1..], nested, direct + 1);
        assert rs[1..] == CompiledKids(gs[1..], nested, direct + 1);
        assert [direct] == Range(direct, direct + 1);
        RangeJoin(direct, direct + 1, direct + |DirectOrder(gs)|);
      } else {
        var nested' := nested + |AllocationOrder(gs[0])|;
        CompiledCounts(gs[0], nested);
        CompiledKidsCount(gs[1..], nested', direct);
        assert rs[1..] == CompiledKids(gs[1..], nested', direct);
        RangeJoin(nested, nested', nested + |NestedOrder(gs)|);
      }
    }
  }

  lemma {:induction false} RepresentedRuleMeansGate(r: Rule, g: Gate, ids: seq<Principal>, sat: set<Principal>)
    requires Represents(r, g, ids)
    ensures RuleHolds(r, ids, sat) <==> Holds(g, sat)
    decreases g, 0
  {
    if !g.Leaf? {
      RepresentedRulesCount(r.rules, g.kids, ids, sat);
      CountBounds(g.kids, sat);
    }
  }

  lemma {:induction false} RepresentedRulesCount(rs: seq<Rule>, gs: seq<Gate>, ids: seq<Principal>, sat: set<Principal>)
    requires RepresentsAll(rs, gs, ids)
    ensures CountRules(rs, ids, sat) == CountHolding(gs, sat)
    decreases gs, 0
  {
    if gs != [] {
      RepresentedRuleMeansGate(rs[0], gs[0], ids, sat);
      RepresentedRulesCount(rs[1..], gs[1..], ids, sat);
    }
  }

  lemma {:induction false} OrderIsATraversal(r: Rule)
    ensures multiset(IndexOrder(r)) == LeafIndices(r)
    decreases r, 0
  {
    if r.NOutOf? {
      OrderIsATraversalAll(r.rules);
    }
  }

  lemma {:induction false} OrderIsATraversalAll(rs: seq<Rule>)
    ensures multiset(NestedIndices(rs)) + multiset(DirectIndices(rs)) == LeafIndicesAll(rs)
    decreases rs, 0
  {
    if rs != [] {
      OrderIsATraversal(rs[0]);
      OrderIsATraversalAll(rs[1..]);
    }
  }

  lemma RangeCounts(n: nat, i: nat)
    ensures multiset(Range(0, n))[i] == if i < n then 1 else 0
    decreases n
  {
    if n > 0 {
      RangeCounts(n - 1, i);
      assert Range(0, n) == Range(0, n - 1) + [n - 1];
    }
  }

  // ----- the whole compiler

  /** What becomes of a policy whose first text reads as nested `outof` calls. */
  lemma CompilesFromText(policy: string, g: Gate)
    requires Named(g) && !g.Leaf? && Inhabited(g)
    requires RunPass(Translate, policy).Success?
    requires Parse(RunPass(Translate, policy).value) == Some(Target(g, false))
    ensures
      if ThresholdsFit(g) then FromString(policy) == Success(Envelope(AllocationOrder(g), Compiled(g, 0)))
      else FromString(policy).Failure? && IsOverfull(FromString(policy).error, g)
  {
    AddsContext(g);
    TargetIsPrintable(g, true);
    ParsePrint(Target(g, true));
    RunsLastPass(Print(Target(g, true)), g);
  }

  lemma RunsLastPass(text: string, g: Gate)
    requires Named(g) && !g.Leaf? && Inhabited(g) && Parse(text) == Some(Target(g, true))
    ensures
      if ThresholdsFit(g) then RunSecondPass(text) == Success(Envelope(AllocationOrder(g), Compiled(g, 0)))
      else RunSecondPass(text).Failure? && IsOverfull(RunSecondPass(text).error, g)
  {
    if ThresholdsFit(g) {
      AllocatesGate(g, []);
      assert [] + AllocationOrder(g) == AllocationOrder(g);
    } else {
      RejectsThreshold(g, []);
    }
  }

  /** A gate expression compiles exactly when no gate is empty, no threshold
      exceeds its number of operands plus one, and it is not a bare principal.
      The three passes over text then agree with generating the rule directly; and a
      gate expression that does not compile is refused for one of these reasons. */
  lemma CompilesExactlyValidGates(policy: string, e: Expr)
    requires Parse(policy) == Some(e) && ToGate(e).Some?
    ensures var g := ToGate(e).value;
      if Valid(g) then FromString(policy) == Success(Envelope(AllocationOrder(g), Compiled(g, 0)))
      else
        && FromString(policy).Failure?
        && var err := FromString(policy).error;
        if g.Leaf? then err == Syntax(PrincipalText(g.p))
        else if !Inhabited(g) then err == TooFewArguments(1)
        else IsOverfull(err, g)
  {
    var g := ToGate(e).value;
    GateIsNamed(e);
    if g.Leaf? {
      SubmatchSound(e.s);
      PrincipalChars(e.s);
      DottedTextDoesNotLex(e.s);
    } else {
      Translates(policy, e);
      if Inhabited(g) {
        CompilesFromText(policy, g);
      }
    }
  }

  /** Compilation preserves meaning, for every set of satisfied principals. */
  lemma CompilationPreservesMeaning(policy: string, e: Expr, env: Envelope, sat: set<Principal>)
    requires Parse(policy) == Some(e) && ToGate(e).Some?
    ensures FromString(policy) == Success(env) ==>
      (RuleHolds(env.rule, env.identities, sat) <==> Holds(ToGate(e).value, sat))
  {
    var g := ToGate(e).value;
    CompilesExactlyValidGates(policy, e);
    if Valid(g) {
      CompiledRepresents(g, 0, AllocationOrder(g));
      RepresentedRuleMeansGate(Compiled(g, 0), g, AllocationOrder(g), sat);
    }
  }

  /** Every index of the identity table occurs in exactly one leaf, and no other
      index does; that leaf stands where the policy names the principal. */
  lemma IdentitiesAreABijection(policy: string, e: Expr, env: Envelope)
    requires Parse(policy) == Some(e) && ToGate(e).Some?
    ensures FromString(policy) == Success(env) ==>
      && Represents(env.rule, ToGate(e).value, env.identities)
      && forall i: nat :: LeafIndices(env.rule)[i] == if i < |env.identities| then 1 else 0
  {
    var g := ToGate(e).value;
    CompilesExactlyValidGates(policy, e);
    if Valid(g) {
      CompiledRepresents(g, 0, AllocationOrder(g));
      CompiledIsABijection(g);
    }
  }

  /** The table lists the principals, and the leaves their indices, in evaluation
      order: those of nested gates before a gate's own. */
  lemma NestedGatesAreNumberedFirst(policy: string, e: Expr, env: Envelope)
    requires Parse(policy) == Some(e) && ToGate(e).Some?
    ensures FromString(policy) == Success(env) ==>
      && env.identities == AllocationOrder(ToGate(e).value)
      && IndexOrder(env.rule) == Range(0, |env.identities|)
  {
    var g := ToGate(e).value;
    CompilesExactlyValidGates(policy, e);
    if Valid(g) {
      CompiledIsABijection(g);
    }
  }

  lemma CompiledIsABijection(g: Gate)
    requires !g.Leaf?
    ensures IndexOrder(Compiled(g, 0)) == Range(0, |AllocationOrder(g)|)
    ensures forall i: nat :: LeafIndices(Compiled(g, 0))[i] == if i < |AllocationOrder(g)| then 1 else 0
  {
    hide IndexOrder;
    hide LeafIndices;
    hide Compiled;
    hide AllocationOrder;
    var r, n := Compiled(g, 0), |AllocationOrder(g)|;
    CompiledCounts(g, 0);
    OrderIsATraversal(r);
    forall i: nat ensures LeafIndices(r)[i] == if i < n then 1 else 0 {
      RangeCounts(n, i);
    }
  }

  lemma SameTranslationCompilesAlike(a: string, b: string)
    requires RunPass(Translate, a).Success? && RunPass(Translate, b).Success?
    requires Parse(RunPass(Translate, a).value).Some?
    requires Parse(RunPass(Translate, a).value) == Parse(RunPass(Translate, b).value)
    ensures FromString(a) == FromString(b)
  {
    hide Parse;
    hide Eval;
    hide RunSecondPass;
  }

  /** The text of the first translation is itself a policy, and compiling it
      again yields the same envelope. */
  lemma TranslatedTextCompilesAlike(policy: string, e: Expr)
    requires Parse(policy) == Some(e) && ToGate(e).Some? && Valid(ToGate(e).value)
    ensures RunPass(Translate, policy).Success?
    ensures FromString(RunPass(Translate, policy).value) == FromString(policy)
  {
    hide FromString;
    hide RunPass;
    var g := ToGate(e).value;
    Translates(policy, e);
    var text := RunPass(Translate, policy).value;
    GateIsNamed(e);
    TargetIsAGate(g);
    Translates(text, Target(g, false));
    SameTranslationCompilesAlike(text, policy);
  }

  /** Whether the quoted thresholds are written as the passes write numbers. */
  predicate Canonical(e: Expr)
    decreases e, 0
  {
    e.Call? ==>
      if e.fn in AND_NAMES || e.fn in OR_NAMES then AllCanonical(e.args)
      else e.args != [] && CanonicalThreshold(e.args[0]) && AllCanonical(e.args[1..])
  }

  predicate AllCanonical(es: seq<Expr>)
    decreases es, 0
  {
    es != [] ==> Canonical(es[0]) && AllCanonical(es[1..])
  }

  predicate CanonicalThreshold(e: Expr) { Numeral(e).Some? && (e.Str? ==> e.s == Itoa(Numeral(e).value)) }

  /** Other ways to write a threshold only make the text longer. */
  lemma {:induction false} SameTextOrLonger(e: Expr)
    requires ToGate(e).Some? && Inhabited(ToGate(e).value)
    requires Eval(Translate, e).Success? && Eval(Translate, e).value.VString?
    ensures var t, t' := Eval(Translate, e).value.s, TextValue(ToGate(e).value, false).s;
      if Canonical(e) then t == t' else |t| > |t'|
    decreases e, 0
  {
    hide Submatch;
    hide Lex;
    hide Numeral;
    hide Itoa;
    hide PrintTail;
    match e
    case Str(s) => SubmatchSound(s);
    case Call(fn, args) =>
      var g := ToGate(e).value;
      var vs := EvalArgs(Translate, args).value;
      var es := TargetAll(g.kids, false);
      PrintCall("outof", Num(Threshold(g)), es);
      if fn in AND_NAMES || fn in OR_NAMES {
        var n := if fn in AND_NAMES then |args| else 1;
        assert ([VInt(n)] + vs)[1..] == vs;
        EvalArgsLength(args);
        var tail := Render(vs, false).value;
        SameTailOrLonger(args, vs, tail);
        AroundBoth(Itoa(n), Itoa(n), true, tail, PrintTail(es), AllCanonical(args));
      } else {
        assert EvalArgs(Translate, args[1..]) == Success(vs[1..]);
        var tail := Render(vs[1..], false).value;
        SameTailOrLonger(args[1..], vs[1..], tail);
        SameThresholdOrLonger(args[0]);
        AroundBoth(ThresholdText(args[0], vs[0]), Itoa(Threshold(g)), CanonicalThreshold(args[0]),
                   tail, PrintTail(es), AllCanonical(args[1..]));
      }
    case _ =>
  }

  lemma AroundBoth(head: string, head': string, sameHead: bool, tail: string, tail': string, sameTail: bool)
    requires if sameHead then head == head' else |head| > |head'|
    requires if sameTail then tail == tail' else |tail| > |tail'|
    ensures var t, t' := "outof(" + head + tail + ")", "outof" + "(" + head' + tail' + ")";
      if sameHead && sameTail then t == t' else |t| > |t'|
  {
  }

  lemma SameThresholdOrLonger(e: Expr)
    requires Numeral(e).Some?
    ensures Eval(Translate, e).Success?
    ensures var t := ThresholdText(e, Eval(Translate, e).value);
      if CanonicalThreshold(e) then t == Itoa(Numeral(e).value) else |t| > |Itoa(Numeral(e).value)|
  {
    if e.Str? {
      NumeralTokens(e);
      NumberIsNoShorter(e.s, Numeral(e).value);
    }
  }

  lemma {:induction false} SameTailOrLonger(es: seq<Expr>, vs: seq<Value>, tail: string)
    requires ToGates(es).Some? && InhabitedAll(ToGates(es).value)
    requires EvalArgs(Translate, es) == Success(vs) && Render(vs, false) == Success(tail)
    ensures var tail' := PrintTail(TargetAll(ToGates(es).value, false));
      if AllCanonical(es) then tail == tail' else |tail| > |tail'|
    decreases es, 0
  {
    if es != [] {
      var gs := ToGates(es).value;
      assert gs[0] == ToGate(es[0]).value && gs[1..] == ToGates(es[1..]).value;
      assert EvalArgs(Translate, es[1..]) == Success(vs[1..]);
      SameTextOrLonger(es[0]);
      SameTailOrLonger(es[1..], vs[1..], Render(vs[1..], false).value);
      var ts := TargetAll(gs, false);
      assert ts[0] == Target(gs[0], false) && ts[1..] == TargetAll(gs[1..], false);
      RenderedOperand(es[0]);
    }
  }

  /** An operand is quoted exactly when it is a principal. */
  lemma RenderedOperand(e: Expr)
    requires ToGate(e).Some? && Eval(Translate, e).Success? && Eval(Translate, e).value.VString?
    ensures var g, t := ToGate(e).value, Eval(Translate, e).value.s;
      && |RenderString(t)| == |t| + (if g.Leaf? then 2 else 0)
      && (g.Leaf? ==> RenderString(t) == "'" + t + "'" && t == PrincipalText(g.p))
      && (!g.Leaf? ==> RenderString(t) == t)
      && |Print(Target(g, false))| == |TextValue(g, false).s| + (if g.Leaf? then 2 else 0)
  {
    match e
    case Str(s) => SubmatchSound(s);
    case Call(fn, args) => GateTextHasBracket(Eval(Translate, e).value.s);
    case _ =>
  }

  /** Translating twice is translating once, exactly when no quoted threshold needs
      rewriting; from the second translation on nothing changes. */
  lemma TranslationSettles(policy: string, e: Expr)
    requires Parse(policy) == Some(e) && ToGate(e).Some? && Valid(ToGate(e).value)
    ensures var once := RunPass(Translate, policy);
      && once.Success?
      && var twice := RunPass(Translate, once.value);
      && (twice == once <==> Canonical(e))
      && twice.Success? && RunPass(Translate, twice.value) == twice
  {
    hide RunPass;
    var g := ToGate(e).value;
    Translates(policy, e);
    TranslatesTo(policy, e);
    var once := RunPass(Translate, policy).value;
    GateIsNamed(e);
    TargetIsAGate(g);
    TargetIsCanonical(g);
    TargetIsPrintable(g, false);
    ParsePrint(Target(g, false));
    TranslatesTo(once, Target(g, false));
    TranslatesTo(Print(Target(g, false)), Target(g, false));
  }

  lemma TranslatesTo(policy: string, e: Expr)
    requires Parse(policy) == Some(e) && ToGate(e).Some? && !ToGate(e).value.Leaf? && Inhabited(ToGate(e).value)
    ensures var r, text := RunPass(Translate, policy), Print(Target(ToGate(e).value, false));
      r.Success? && (Canonical(e) <==> r.value == text)
  {
    TranslatesInhabited(e);
    SameTextOrLonger(e);
  }

  lemma {:induction false} TargetIsCanonical(g: Gate)
    ensures Canonical(Target(g, false))
    decreases g, 0
  {
    if !g.Leaf? {
      var args := [Num(Threshold(g))] + TargetAll(g.kids, false);
      assert args[0] == Num(Threshold(g)) && args[1..] == TargetAll(g.kids, false);
      TargetsAreCanonical(g.kids);
    }
  }

  lemma {:induction false} TargetsAreCanonical(gs: seq<Gate>)
    ensures AllCanonical(TargetAll(gs, false))
    decreases gs, 0
  {
    if gs != [] {
      TargetIsCanonical(gs[0]);
      TargetsAreCanonical(gs[1..]);
      assert TargetAll(gs, false)[1..] == TargetAll(gs[1..], false);
    }
  }

  /** The `outof` form of a gate. */
  function Normal(g: Gate): Gate
    decreases g, 0
  {
    if g.Leaf? then g else AtLeast(Threshold(g), NormalAll(g.kids))
  }

  function NormalAll(gs: seq<Gate>): (ns: seq<Gate>)
    ensures |ns| == |gs|
    decreases gs, 0
  {
    if gs == [] then [] else [Normal(gs[0])] + NormalAll(gs[1..])
  }

  lemma {:induction false} TargetIsAGate(g: Gate)
    requires Named(g) && Inhabited(g)
    ensures ToGate(Target(g, false)) == Some(Normal(g))
    ensures Target(Normal(g), false) == Target(g, false)
    ensures Inhabited(Normal(g))
    decreases g, 0
  {
    if g.Leaf? {
      SubmatchComplete(g.p);
    } else {
      TargetsAreGates(g.kids);
      OutOfIsAGate(Threshold(g), TargetAll(g.kids, false));
    }
  }

  lemma OutOfIsAGate(t: nat, es: seq<Expr>)
    requires ToGates(es).Some?
    ensures ToGate(Call("outof", [Num(t)] + es)) == Some(AtLeast(t, ToGates(es).value))
  {
    var args := [Num(t)] + es;
    assert args[0] == Num(t) && args[1..] == es;
  }

  lemma {:induction false} TargetsAreGates(gs: seq<Gate>)
    requires NamedAll(gs) && InhabitedAll(gs)
    ensures ToGates(TargetAll(gs, false)) == Some(NormalAll(gs))
    ensures TargetAll(NormalAll(gs), false) == TargetAll(gs, false)
    ensures InhabitedAll(NormalAll(gs))
    decreases gs, 0
  {
    if gs != [] {
      TargetIsAGate(gs[0]);
      TargetsAreGates(gs[1..]);
      assert TargetAll(gs, false)[1..] == TargetAll(gs[1..], false);
      assert NormalAll(gs)[1..] == NormalAll(gs[1..]);
    }
  }

  // ----- nothing else compiles

  /** The text of a pass names principals only: whatever else a string held was
      pasted without its quotes. */
  lemma {:induction false} TextNamesPrincipals(e: Expr)
    requires QuoteFree(e) && TextTokens(e).Some?
    ensures NamesPrincipals(TextTokens(e).value)
    decreases e, 0
  {
    match e
    case Str(s) =>
      if Submatch(s).None? {
        UnquotedHasNoStrings(s);
      }
    case Call(fn, args) =>
      if fn in AND_NAMES || fn in OR_NAMES {
        TailNamesPrincipals(args);
      } else {
        forall a | a in args[1..] ensures QuoteFree(a) { assert a in args; }
        TailNamesPrincipals(args[1..]);
        ThresholdNamesPrincipals(args[0]);
      }
    case _ =>
  }

  lemma {:induction false} ThresholdNamesPrincipals(e: Expr)
    requires QuoteFree(e) && ThresholdTokens(e).Some?
    ensures NamesPrincipals(ThresholdTokens(e).value)
    decreases e, 1
  {
    match e
    case Str(s) =>
      UnquotedHasNoStrings(s);
    case Call(_, _) => TextNamesPrincipals(e);
    case _ =>
  }

  lemma {:induction false} TailNamesPrincipals(es: seq<Expr>)
    requires (forall e :: e in es ==> QuoteFree(e)) && OperandTokens(es).Some?
    ensures NamesPrincipals(OperandTokens(es).value)
    decreases es, 0
  {
    if es != [] {
      TextNamesPrincipals(es[0]);
      TailNamesPrincipals(es[1..]);
    }
  }

  /** The passes after the first accept only a tree of thresholds, gates and principals,
      when they read no other strings. */
  lemma OnlyTreesCompile(text: string)
    requires Parse(text).Some? && OnlyPrincipals(Parse(text).value)
    requires RunPass(AddContext, text).Success? && RunSecondPass(RunPass(AddContext, text).value).Success?
    ensures IsOutOfTree(Parse(text).value)
  {
    hide Parse;
    hide Allocate;
    hide Lex;
    var e, text' := Parse(text).value, RunPass(AddContext, text).value;
    AddsContextAnywhere(e, text');
    if e.Str? {
      PrincipalChars(text');
      DottedTextDoesNotLex(text');
      ParseNeedsTokens(text');
    } else {
      EvaluatedNamesGates(e);
      ParsePrint(WithContext(e));
      AllocatesOnlyTrees(WithContext(e), []);
      TreeUnderContext(e);
    }
  }

  lemma ParseNeedsTokens(s: string)
    ensures Lex(s).None? ==> Parse(s).None?
  {
  }

  lemma {:induction false} ContextGateIsTarget(e: Expr)
    requires ContextGate(e).Some?
    ensures var g := ContextGate(e).value; Named(g) && Inhabited(g) && Target(g, true) == e && g.Leaf? == e.Str?
    decreases e, 0
  {
    match e
    case Str(s) => SubmatchSound(s);
    case Call(fn, args) =>
      ContextGatesAreTargets(args[2..]);
      assert args == [args[0], args[1]] + args[2..];
    case _ =>
  }

  lemma {:induction false} ContextGatesAreTargets(es: seq<Expr>)
    requires ContextGates(es).Some?
    ensures var gs := ContextGates(es).value; NamedAll(gs) && InhabitedAll(gs) && TargetAll(gs, true) == es
    decreases es, 0
  {
    if es != [] {
      ContextGateIsTarget(es[0]);
      ContextGatesAreTargets(es[1..]);
      var gs := ContextGates(es).value;
      assert gs[0] == ContextGate(es[0]).value && gs[1..] == ContextGates(es[1..]).value;
    }
  }

  /** The gate that the text handed to the last pass reads as, if it does. */
  function LastGate(policy: string): Option<Gate> {
    match RunPasses(TEXT_PASSES, policy)
    case Failure(_) => None
    case Success(text) =>
      match Parse(text)
      case None => None
      case Some(e) => ContextGate(e)
  }

  /** For every policy, whatever its strings hold: what compiles is what the text
      that the passes have pasted together reads as in the end. */
  lemma LastTextDecides(policy: string)
    ensures FromString(policy).Success? <==> LastGate(policy).Some? && Valid(LastGate(policy).value)
    ensures FromString(policy).Success? ==>
      var g := LastGate(policy).value;
      FromString(policy) == Success(Envelope(AllocationOrder(g), Compiled(g, 0)))
  {
    hide Parse;
    hide RunPasses;
    hide Allocate;
    hide Compiled;
    var passes := RunPasses(TEXT_PASSES, policy);
    if passes.Success? && Parse(passes.value).Some? {
      var e := Parse(passes.value).value;
      AllocatesOnlyTrees(e, []);
      if ContextGate(e).Some? {
        ContextGateIsTarget(e);
        if e.Call? {
          RunsLastPass(passes.value, ContextGate(e).value);
        } else {
          StringIsNoPolicy(e);
        }
      }
    }
  }

  lemma StringIsNoPolicy(e: Expr)
    requires e.Str?
    ensures Allocate(e, []).0 == Success(VString(e.s))
  {
  }

  lemma {:induction false} TreeIsTarget(e: Expr)
    requires IsOperand(e)
    ensures ToGate(e).Some?
    ensures var g := ToGate(e).value; Named(g) && Inhabited(g) && Target(g, false) == e && g.Leaf? == e.Str?
    decreases e, 1
  {
    if e.Str? {
      SubmatchSound(e.s);
    } else {
      hide ToGate;
      var es := e.args[1..];
      TreesAreTargets(es);
      OutOfIsAGate(e.args[0].n, es);
      assert e.args == [Num(e.args[0].n)] + es;
    }
  }

  lemma {:induction false} TreesAreTargets(es: seq<Expr>)
    requires AreOperands(es)
    ensures ToGates(es).Some?
    ensures var gs := ToGates(es).value; NamedAll(gs) && InhabitedAll(gs) && TargetAll(gs, false) == es
    decreases es, 0
  {
    if es != [] {
      TreeIsTarget(es[0]);
      TreesAreTargets(es[1..]);
      var gs := ToGates(es).value;
      assert gs[0] == ToGate(es[0]).value && gs[1..] == ToGates(es[1..]).value;
    }
  }

  /** When the first text has no strings but principals it is decided there already:
      it has to read as a tree of gates, and then it is a policy that compiles alike. */
  lemma FirstTextDecides(policy: string, e: Expr)
    requires RunPass(Translate, policy).Success?
    requires Parse(RunPass(Translate, policy).value) == Some(e) && OnlyPrincipals(e)
    ensures IsOutOfTree(e) ==> ToGate(e).Some? && FromString(RunPass(Translate, policy).value) == FromString(policy)
    ensures FromString(policy).Success? <==> IsOutOfTree(e) && ThresholdsFit(ToGate(e).value)
  {
    hide FromString;
    hide Parse;
    hide RunPass;
    hide ToGate;
    hide IsOutOfTree;
    hide ThresholdsFit;
    var text := RunPass(Translate, policy).value;
    if FromString(policy).Success? {
      RunsBothTextPasses(policy);
      OnlyTreesCompile(text);
    }
    if IsOutOfTree(e) {
      OutOfTreeCompilesAlike(policy, text, e);
    }
  }

  lemma OutOfTreeCompilesAlike(policy: string, text: string, e: Expr)
    requires RunPass(Translate, policy) == Success(text) && Parse(text) == Some(e) && IsOutOfTree(e)
    ensures ToGate(e).Some? && FromString(text) == FromString(policy)
    ensures FromString(policy).Success? <==> ThresholdsFit(ToGate(e).value)
  {
    hide FromString;
    hide Parse;
    hide RunPass;
    TreeIsTarget(e);
    var g := ToGate(e).value;
    CompilesFromText(policy, g);
    Translates(text, e);
    SameTranslationCompilesAlike(text, policy);
  }

  /** A policy without quotes in its strings compiles only if it is a gate expression:
      text pasted from such a string cannot change the structure unnoticed. */
  lemma OnlyQuoteFreeGatesCompile(policy: string)
    requires FromString(policy).Success? && QuoteFree(Parse(policy).value)
    ensures ToGate(Parse(policy).value).Some?
  {
    hide RunSecondPass;
    hide Chained;
    hide Lex;
    var e, text := Parse(policy).value, RunPass(Translate, policy).value;
    RunsBothTextPasses(policy);
    ParseMeansTokens(text);
    var e' := Parse(text).value;
    var ts := Tokens(e');
    match e
    case Str(s) =>
      UnquotedHasNoStrings(s);
      NamesMeanPrincipals(e');
      OnlyTreesCompile(text);
      TreeTokens(e');
    case Call(fn, args) =>
      QuoteFreeIsPastable(e);
      LexOfText(e, text, "");
      GateTextHasBracket(text);
      assert text + "" == text;
      LexOfNothing();
      EvaluatedNamesGates(e');
      assert TextTokens(e).value + [] == TextTokens(e).value;
      TextNamesPrincipals(e);
      NamesMeanPrincipals(e');
      OnlyTreesCompile(text);
      TreeTokens(e');
      OnlyGatesBalanceCall(fn, args, ts);
    case _ =>
  }

  lemma LexOfNothing()
    ensures Lex("") == Some([])
  {
  }

  /** Among the policies that compile, the gate expressions are exactly those whose
      strings hold no quotes. */
  lemma OnlyGatesCompile(policy: string)
    requires FromString(policy).Success?
    ensures Parse(policy).Some? && (ToGate(Parse(policy).value).Some? <==> QuoteFree(Parse(policy).value))
  {
    hide Parse;
    hide ToGate;
    hide QuoteFree;
    RunsBothTextPasses(policy);
    if QuoteFree(Parse(policy).value) {
      OnlyQuoteFreeGatesCompile(policy);
    }
    if ToGate(Parse(policy).value).Some? {
      GateIsQuoteFree(Parse(policy).value);
    }
  }

  lemma RunsBothTextPasses(policy: string)
    requires FromString(policy).Success?
    ensures Parse(policy).Some? && RunPass(Translate, policy).Success?
    ensures var text := RunPass(Translate, policy).value;
      Parse(text).Some? && RunPass(AddContext, text).Success? && RunSecondPass(RunPass(AddContext, text).value).Success?
  {
    hide Parse;
    hide Eval;
    hide RunSecondPass;
  }

  /** Which texts compile at all. Without quotes in its strings a policy has to read as
      a gate expression, not a bare principal, with no empty gate and no threshold above
      its operands plus one; with quotes, the last pasted text has to. */
  lemma CompilesExactly(policy: string)
    ensures FromString(policy).Success? <==>
      && Parse(policy).Some?
      && var e := Parse(policy).value;
        if QuoteFree(e) then ToGate(e).Some? && Valid(ToGate(e).value)
        else LastGate(policy).Some? && Valid(LastGate(policy).value)
  {
    hide FromString;
    hide Parse;
    hide ToGate;
    hide QuoteFree;
    hide LastGate;
    if FromString(policy).Success? {
      OnlyGatesCompile(policy);
    }
    if Parse(policy).Some? && ToGate(Parse(policy).value).Some? {
      CompilesExactlyValidGates(policy, Parse(policy).value);
    }
    LastTextDecides(policy);
  }

  /** A compiled policy can be met by some set of principals exactly when enough
      operands of every needed gate can; one threshold above that and it never is. */
  lemma CompiledPolicyCanBeMet(policy: string, e: Expr, env: Envelope)
    requires Parse(policy) == Some(e) && ToGate(e).Some?
    ensures FromString(policy) == Success(env) ==>
      ((exists sat :: RuleHolds(env.rule, env.identities, sat)) <==> CanHold(ToGate(e).value))
  {
    hide FromString;
    hide ToGate;
    hide CanHold;
    var g := ToGate(e).value;
    if FromString(policy) == Success(env) {
      if sat: set<Principal> :| RuleHolds(env.rule, env.identities, sat) {
        CompilationPreservesMeaning(policy, e, env, sat);
        HoldsOnlyIfItCan(g, sat);
      }
      if CanHold(g) {
        HoldsWhenAllSign(g, PrincipalsOf(g));
        CompilationPreservesMeaning(policy, e, env, PrincipalsOf(g));
        assert RuleHolds(env.rule, env.identities, PrincipalsOf(g));
      }
    }
  }
}
