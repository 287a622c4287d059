/** What the first pass prints for any expression, gate or not, whose strings leave no
    quote open, token by token; and why without quotes nothing but a gate expression
    survives the two passes after it: text pasted from a string cannot close a
    bracket it opened. */
module PolicyTokens {
  import opened Wrappers
  import opened PolicyText
  import opened PolicyDsl
  import opened PolicyGates

  // ----- the tokens of the first pass's text

  function Bracketed(head: Option<seq<Token>>, tail: Option<seq<Token>>): Option<seq<Token>> {
    Joined(Joined(Some([Ident("outof"), LParen]), head), Joined(tail, Some([RParen])))
  }

  /** A principal is quoted; any other string is pasted as it is. */
  function TextTokens(e: Expr): Option<seq<Token>>
    decreases e, 0
  {
    match e
    case Str(s) => if Submatch(s).Some? then Some([Quoted(s)]) else Lex(s)
    case Call(fn, args) =>
      if fn in AND_NAMES then Bracketed(Some([Number(|args|)]), OperandTokens(args))
      else if fn in OR_NAMES then Bracketed(Some([Number(1)]), OperandTokens(args))
      else if args == [] then None
      else Bracketed(ThresholdTokens(args[0]), OperandTokens(args[1..]))
    case _ => None
  }

  /** In the place of a threshold even a principal is pasted. */
  function ThresholdTokens(e: Expr): Option<seq<Token>>
    decreases e, 1
  {
    match e
    case Num(n) => Some([Number(n)])
    case Str(s) => Lex(s)
    case _ => TextTokens(e)
  }

  function OperandTokens(es: seq<Expr>): Option<seq<Token>>
    decreases es, 0
  {
    if es == [] then Some([])
    else Joined(Joined(Some([Comma]), TextTokens(es[0])), OperandTokens(es[1..]))
  }

  /** No string of the expression holds a quote. */
  predicate QuoteFree(e: Expr) {
    match e
    case Str(s) => Unquoted(s)
    case Call(_, args) => forall a :: a in args ==> QuoteFree(a)
    case _ => true
  }

  /** Every string of the expression can be pasted whole. */
  predicate Pastable(e: Expr) {
    match e
    case Str(s) => StandsAlone(s)
    case Call(_, args) => forall a :: a in args ==> Pastable(a)
    case _ => true
  }

  lemma {:induction false} QuoteFreeIsPastable(e: Expr)
    requires QuoteFree(e)
    ensures Pastable(e)
  {
    if e.Call? {
      forall a | a in e.args ensures Pastable(a) {
        QuoteFreeIsPastable(a);
      }
    }
  }

  lemma ReadsAsBoth(whole: Option<seq<Token>>, a: Option<seq<Token>>, middle: Option<seq<Token>>,
                    b: Option<seq<Token>>, rest: Option<seq<Token>>)
    requires ReadsAs(whole, a, middle) && ReadsAs(middle, b, rest)
    ensures ReadsAs(whole, Joined(a, b), rest)
  {
    hide Spoiled;
    if a.Some? {
      if b.Some? {
        PrependTwice(a.value, b.value, rest);
      } else {
        SpoiledAfter(a.value, middle);
      }
    }
  }

  lemma GateTextHasBracket(text: string)
    requires "outof(" <= text
    ensures Submatch(text).None? && RenderString(text) == text
  {
    assert text[5] == '(';
    if Submatch(text).Some? {
      MatchedChars(text);
    }
  }

  lemma MatchedChars(s: string)
    requires Submatch(s).Some?
    ensures forall i :: 0 <= i < |s| ==> IsMspChar(s[i])
  {
    var k := LastDot(s);
    var role := RoleOf(s[k + 1..]).value;
    assert s[k + 1..] == RoleText(role);
    forall i | 0 <= i < |s| ensures IsMspChar(s[i]) {
      if i < k {
        assert s[i] == s[..k][i];
      } else if i > k {
        assert s[i] == s[k + 1..][i - k - 1];
      }
    }
  }

  /** The brackets around a head and operands whose own texts are understood. */
  lemma LexGateText(thr: string, head: Option<seq<Token>>, tail: string, ops: Option<seq<Token>>, rest: string)
    requires ReadsAs(Lex(thr + (tail + (")" + rest))), head, Lex(tail + (")" + rest)))
    requires ReadsAs(Lex(tail + (")" + rest)), ops, Lex(")" + rest))
    ensures ReadsAs(Lex("outof(" + thr + tail + ")" + rest), Bracketed(head, ops), Lex(rest))
  {
    hide Lex;
    hide Joined;
    var open, close: Option<seq<Token>> := Some([Ident("outof"), LParen]), Some([RParen]);
    var after := tail + (")" + rest);
    var body := thr + after;
    var whole := "outof(" + thr + tail + ")" + rest;
    assert whole == "outof" + "(" + body;
    LexOpen("outof", body);
    LexClose(rest);
    ReadsAsBoth(Lex(whole), open, Lex(body), head, Lex(after));
    ReadsAsBoth(Lex(after), ops, Lex(")" + rest), close, Lex(rest));
    ReadsAsBoth(Lex(whole), Joined(open, head), Lex(after), Joined(ops, close), Lex(rest));
  }

  /** The text of an operand, as the gate around it prints it. */
  lemma {:induction false} LexOfText(e: Expr, text: string, rest: string)
    requires Pastable(e) && Eval(Translate, e) == Success(VString(text)) && Delimited(rest)
    ensures ReadsAs(Lex(RenderString(text) + rest), TextTokens(e), Lex(rest))
    ensures e.Call? ==> "outof(" <= text
    decreases e, 0
  {
    hide Lex;
    hide Submatch;
    hide StandsAlone;
    match e
    case Str(s) =>
      if Submatch(s).Some? {
        MatchedChars(s);
        LexQuoted(s, rest);
      } else {
        LexPasted(s, rest);
      }
    case Call(fn, args) =>
      LexOfGate(fn, args, text, rest);
      GateTextHasBracket(text);
    case _ =>
  }

  lemma {:induction false} LexOfGate(fn: string, args: seq<Expr>, text: string, rest: string)
    requires Pastable(Call(fn, args)) && Eval(Translate, Call(fn, args)) == Success(VString(text)) && Delimited(rest)
    ensures ReadsAs(Lex(text + rest), TextTokens(Call(fn, args)), Lex(rest))
    ensures "outof(" <= text
    decreases args, 3
  {
    hide Lex;
    hide Itoa;
    var vs := EvalArgs(Translate, args).value;
    if fn in AND_NAMES || fn in OR_NAMES {
      var n := if fn in AND_NAMES then |args| else 1;
      EvalArgsLength(args);
      assert ([VInt(n)] + vs)[1..] == vs;
      var tail := Render(vs, false).value;
      LexOfOperands(args, tail, ")" + rest);
      RenderDelimits(vs, ")" + rest);
      LexNumber(n, tail + (")" + rest));
      LexGateText(Itoa(n), Some([Number(n)]), tail, OperandTokens(args), rest);
    } else {
      var tail := Render(vs[1..], false).value;
      assert EvalArgs(Translate, args[1..]) == Success(vs[1..]);
      forall a | a in args[1..] ensures Pastable(a) { assert a in args; }
      LexOfOperands(args[1..], tail, ")" + rest);
      RenderDelimits(vs[1..], ")" + rest);
      var thr := ThresholdText(args[0], vs[0]);
      LexOfThreshold(args[0], vs[0], tail + (")" + rest));
      LexGateText(thr, ThresholdTokens(args[0]), tail, OperandTokens(args[1..]), rest);
    }
  }

  lemma {:induction false} EvalArgsLength(es: seq<Expr>)
    requires EvalArgs(Translate, es).Success?
    ensures |EvalArgs(Translate, es).value| == |es|
  {
    if es != [] {
      EvalArgsLength(es[1..]);
    }
  }

  lemma RenderDelimits(vs: seq<Value>, rest: string)
    requires Render(vs, false).Success? && Delimited(rest)
    ensures Delimited(Render(vs, false).value + rest)
  {
    if vs == [] {
      assert "" + rest == rest;
    }
  }

  function ThresholdText(e: Expr, v: Value): string {
    match v case VFloat(n) => Itoa(n) case VString(s) => s case _ => ""
  }

  lemma {:induction false} LexOfThreshold(e: Expr, v: Value, rest: string)
    requires Pastable(e) && Eval(Translate, e) == Success(v) && Delimited(rest)
    ensures ReadsAs(Lex(ThresholdText(e, v) + rest), ThresholdTokens(e), Lex(rest))
    ensures v.VFloat? || v.VString?
    decreases e, 1
  {
    match e
    case Num(n) => LexNumber(n, rest);
    case Str(s) =>
      LexPasted(s, rest);
    case Call(fn, args) =>
      GateValueIsText(fn, args);
      LexOfText(e, v.s, rest);
      GateTextHasBracket(v.s);
    case _ =>
  }

  lemma GateValueIsText(fn: string, args: seq<Expr>)
    ensures var r := Eval(Translate, Call(fn, args)); r.Success? ==> r.value.VString?
  {
  }

  lemma {:induction false} LexOfOperands(es: seq<Expr>, text: string, rest: string)
    requires (forall e :: e in es ==> Pastable(e)) && EvalArgs(Translate, es).Success?
    requires Render(EvalArgs(Translate, es).value, false) == Success(text) && Delimited(rest)
    ensures ReadsAs(Lex(text + rest), OperandTokens(es), Lex(rest))
    decreases es, 2
  {
    hide Lex;
    hide Submatch;
    if es == [] {
      assert text + rest == rest;
      PrependNothing(Lex(rest));
    } else {
      var vs := EvalArgs(Translate, es).value;
      assert EvalArgs(Translate, es[1..]) == Success(vs[1..]);
      var text' := Render(vs[1..], false).value;
      var more := text' + rest;
      var one := RenderString(vs[0].s);
      assert text + rest == ", " + (one + more);
      LexSeparator(one + more);
      RenderDelimits(vs[1..], rest);
      LexOfText(es[0], vs[0].s, more);
      LexOfOperands(es[1..], text', rest);
      ReadsAsBoth(Lex(text + rest), Some([Comma]), Lex(one + more), TextTokens(es[0]), Lex(more));
      ReadsAsBoth(Lex(text + rest), Joined(Some([Comma]), TextTokens(es[0])), Lex(more),
                  OperandTokens(es[1..]), Lex(rest));
    }
  }

  // ----- what the second and third passes let through

  predicate IsOutOfTree(e: Expr)
    decreases e, 0
  {
    e.Call? && e.fn == "outof" && |e.args| >= 2 && e.args[0].Num? && AreOperands(e.args[1..])
  }

  predicate IsOperand(e: Expr)
    decreases e, 1
  {
    (e.Str? && Submatch(e.s).Some?) || IsOutOfTree(e)
  }

  predicate AreOperands(es: seq<Expr>)
    decreases es, 0
  {
    es != [] ==> IsOperand(es[0]) && AreOperands(es[1..])
  }

  /** The strings a text contains are principals. */
  predicate NamesPrincipals(ts: seq<Token>) {
    forall i :: 0 <= i < |ts| && ts[i].Quoted? ==> Submatch(ts[i].text).Some?
  }

  /** The tree that the first pass proper prints: the context before every gate's arguments. */
  function WithContext(e: Expr): Expr
    decreases e, 0
  {
    if e.Call? then Call(e.fn, [Var("ID")] + WithContexts(e.args)) else e
  }

  function WithContexts(es: seq<Expr>): (r: seq<Expr>)
    ensures |r| == |es|
    decreases es, 0
  {
    if es == [] then [] else [WithContext(es[0])] + WithContexts(es[1..])
  }

  lemma NamedParts(a: seq<Token>, b: seq<Token>, c: seq<Token>)
    requires NamesPrincipals(a + (b + c))
    ensures NamesPrincipals(b) && NamesPrincipals(c)
  {
    var ts := a + (b + c);
    assert forall i :: 0 <= i < |b| ==> b[i] == ts[|a| + i];
    assert forall i :: 0 <= i < |c| ==> c[i] == ts[|a| + |b| + i];
  }

  predicate OnlyPrincipals(e: Expr)
    decreases e, 0
  {
    match e
    case Str(s) => Submatch(s).Some?
    case Call(_, args) => AllOnlyPrincipals(args)
    case _ => true
  }

  predicate AllOnlyPrincipals(es: seq<Expr>)
    decreases es, 0
  {
    es != [] ==> OnlyPrincipals(es[0]) && AllOnlyPrincipals(es[1..])
  }

  lemma {:induction false} NamesMeanPrincipals(e: Expr)
    requires NamesPrincipals(Tokens(e))
    ensures OnlyPrincipals(e)
    decreases e, 0
  {
    match e
    case Str(s) => assert Tokens(e)[0] == Quoted(s);
    case Call(fn, args) =>
      if args != [] {
        NamedParts([Ident(fn), LParen], Tokens(args[0]), TokensTail(args[1..]) + [RParen]);
        NamedParts([], TokensTail(args[1..]), [RParen]);
        NamesMeanPrincipals(args[0]);
        NamesMeanAllPrincipals(args[1..]);
      }
    case _ =>
  }

  lemma {:induction false} NamesMeanAllPrincipals(es: seq<Expr>)
    requires NamesPrincipals(TokensTail(es))
    ensures AllOnlyPrincipals(es)
    decreases es, 1
  {
    if es != [] {
      NamedParts([Comma], Tokens(es[0]), TokensTail(es[1..]));
      NamesMeanPrincipals(es[0]);
      NamesMeanAllPrincipals(es[1..]);
    }
  }

  /** On a tree whose strings are principals the first pass proper prints that
      tree, when it succeeds at all. */
  lemma {:induction false} AddsContextAnywhere(e: Expr, text: string)
    requires OnlyPrincipals(e) && Eval(AddContext, e) == Success(VString(text))
    ensures RenderString(text) == Print(WithContext(e))
    ensures e.Call? ==> RenderString(text) == text && e.fn == "outof"
    decreases e, 0
  {
    match e
    case Str(_) =>
    case Call(fn, args) =>
      hide Print;
      hide Render;
      var vs := EvalArgs(AddContext, args).value;
      AddsContexts(args, Render(vs, true).value);
      PrintWithContext(args);
      GateTextHasBracket(text);
    case _ =>
  }

  lemma PrintWithContext(args: seq<Expr>)
    ensures Print(WithContext(Call("outof", args))) == "outof(ID" + PrintTail(WithContexts(args)) + ")"
  {
    var tail := PrintTail(WithContexts(args));
    assert ([Var("ID")] + WithContexts(args))[1..] == WithContexts(args);
    assert "outof" + "(" + "ID" + tail + ")" == "outof(ID" + tail + ")";
  }

  lemma {:induction false} AddsContexts(es: seq<Expr>, text: string)
    requires AllOnlyPrincipals(es) && EvalArgs(AddContext, es).Success?
    requires Render(EvalArgs(AddContext, es).value, true) == Success(text)
    ensures text == PrintTail(WithContexts(es))
    decreases es, 0
  {
    if es != [] {
      var vs := EvalArgs(AddContext, es).value;
      assert EvalArgs(AddContext, es[1..]) == Success(vs[1..]);
      AddsContexts(es[1..], Render(vs[1..], true).value);
      if vs[0].VString? {
        AddsContextAnywhere(es[0], vs[0].s);
      }
      assert WithContexts(es)[0] == WithContext(es[0]) && WithContexts(es)[1..] == WithContexts(es[1..]);
    }
  }

  /** What that pass evaluates calls nothing but `outof` and has no other names. */
  lemma {:induction false} EvaluatedNamesGates(e: Expr)
    requires Eval(AddContext, e).Success?
    ensures NamesGates(Tokens(e))
    ensures OnlyPrincipals(e) ==> Printable(WithContext(e))
    decreases e, 0
  {
    match e
    case Str(s) =>
      if Submatch(s).Some? {
        MatchedChars(s);
      }
    case Call(fn, args) => EvaluatedArgumentsNameGates(args);
    case _ =>
  }

  lemma {:induction false} EvaluatedArgumentsNameGates(es: seq<Expr>)
    requires EvalArgs(AddContext, es).Success?
    ensures NamesGates(TokensTail(es)) && (es != [] ==> NamesGates(Tokens(es[0])) && NamesGates(TokensTail(es[1..])))
    ensures AllOnlyPrincipals(es) ==> forall e :: e in WithContexts(es) ==> Printable(e)
    decreases es, 0
  {
    if es != [] {
      EvaluatedNamesGates(es[0]);
      EvaluatedArgumentsNameGates(es[1..]);
    }
  }

  /** The gate denoted by a call the second pass reads, context and all. */
  function ContextGate(e: Expr): Option<Gate>
    decreases e, 0
  {
    match e
    case Str(s) =>
      (match Submatch(s)
       case None => None
       case Some(p) => Some(Leaf(p)))
    case Call(fn, args) =>
      if fn == "outof" && |args| > 2 && args[0] == Var("ID") && args[1].Num? then
        match ContextGates(args[2..]) { case None => None case Some(gs) => Some(AtLeast(args[1].n, gs)) }
      else None
    case _ => None
  }

  function ContextGates(es: seq<Expr>): (r: Option<seq<Gate>>)
    ensures r.Some? ==> |r.value| == |es|
    decreases es, 0
  {
    if es == [] then Some([])
    else
      match (ContextGate(es[0]), ContextGates(es[1..]))
      case (Some(g), Some(gs)) => Some([g] + gs)
      case _ => None
  }

  /** Each value comes from its own argument, and a rule from nothing but a gate. */
  predicate ComesFrom(v: Value, e: Expr) {
    match v
    case VPolicy(_) => e.Call? && ContextGate(e).Some?
    case VString(s) => e == Str(s)
    case VFloat(n) => e == Num(n)
    case VContext => e == Var("ID")
    case VInt(_) => false
  }

  /** The second pass makes a rule only of a tree of thresholds, gates and principals. */
  lemma {:induction false} AllocatesOnlyTrees(e: Expr, ids: seq<Principal>)
    ensures var r := Allocate(e, ids).0; r.Success? ==> ComesFrom(r.value, e)
    decreases e, 0
  {
    if e.Call? && Allocate(e, ids).0.Success? {
      AllocatedArguments(e.args, ids);
      var (r, ids') := AllocateArgs(e.args, ids);
      TreeOfArguments(e.args, r.value, ids');
    }
  }

  lemma TreeOfArguments(args: seq<Expr>, vs: seq<Value>, ids: seq<Principal>)
    requires |vs| == |args| && forall i :: 0 <= i < |args| ==> ComesFrom(vs[i], args[i])
    requires SecondPass(vs, ids).0.Success?
    ensures ContextGate(Call("outof", args)).Some?
    ensures SecondPass(vs, ids).0.value.VPolicy?
  {
    BuildsOnlyOperands(vs[2..], args[2..], ids);
  }

  lemma {:induction false} AllocatedArguments(es: seq<Expr>, ids: seq<Principal>)
    ensures var r := AllocateArgs(es, ids).0;
      r.Success? ==> |r.value| == |es| && forall i :: 0 <= i < |es| ==> ComesFrom(r.value[i], es[i])
    decreases es, 0
  {
    if es != [] {
      AllocatesOnlyTrees(es[0], ids);
      AllocatedArguments(es[1..], Allocate(es[0], ids).1);
    }
  }

  lemma {:induction false} BuildsOnlyOperands(vs: seq<Value>, es: seq<Expr>, ids: seq<Principal>)
    requires |vs| == |es| && forall i :: 0 <= i < |es| ==> ComesFrom(vs[i], es[i])
    requires Build(vs, ids).0.Success?
    ensures ContextGates(es).Some?
    decreases |vs|
  {
    if vs != [] {
      match vs[0]
      case VString(t) => BuildsOnlyOperands(vs[1..], es[1..], ids + [Submatch(t).value]);
      case VPolicy(_) => BuildsOnlyOperands(vs[1..], es[1..], ids);
      case _ =>
    }
  }

  lemma {:induction false} TreeUnderContext(e: Expr)
    requires ContextGate(WithContext(e)).Some?
    ensures IsOperand(e)
    decreases e, 1
  {
    if e.Call? {
      var es := WithContexts(e.args);
      var all := [Var("ID")] + es;
      assert all[1] == es[0] && all[2..] == es[1..];
      assert es[0] == WithContext(e.args[0]) && es[1..] == WithContexts(e.args[1..]);
      TreesUnderContext(e.args[1..]);
    }
  }

  lemma {:induction false} TreesUnderContext(es: seq<Expr>)
    requires ContextGates(WithContexts(es)).Some?
    ensures AreOperands(es)
    decreases es, 0
  {
    if es != [] {
      assert WithContexts(es)[0] == WithContext(es[0]) && WithContexts(es)[1..] == WithContexts(es[1..]);
      TreeUnderContext(es[0]);
      TreesUnderContext(es[1..]);
    }
  }

  // ----- which tokens such a tree has

  /** Which tokens may stand next to each other in a tree of gates. */
  predicate Adjacent(a: Token, b: Token) {
    match a
    case Ident(_) => b.LParen?
    case LParen => b.Number?
    case Number(_) => b.Comma?
    case Comma => b.Quoted? || b.Ident?
    case Quoted(_) => b.Comma? || b.RParen?
    case RParen => b.Comma? || b.RParen?
  }

  predicate Chained(ts: seq<Token>) { forall i :: 0 <= i < |ts| - 1 ==> Adjacent(ts[i], ts[i + 1]) }

  /** Brackets opened and not closed. */
  function Excess(ts: seq<Token>): int {
    if ts == [] then 0 else (if ts[0].LParen? then 1 else if ts[0].RParen? then -1 else 0) + Excess(ts[1..])
  }

  lemma {:induction false} ExcessOfBoth(a: seq<Token>, b: seq<Token>)
    ensures Excess(a + b) == Excess(a) + Excess(b)
  {
    if a == [] {
      assert a + b == b;
    } else {
      assert (a + b)[1..] == a[1..] + b;
      ExcessOfBoth(a[1..], b);
    }
  }

  lemma ChainedParts(a: seq<Token>, b: seq<Token>)
    ensures Chained(a + b) <==> Chained(a) && Chained(b) && (a != [] && b != [] ==> Adjacent(a[|a| - 1], b[0]))
  {
    var ts := a + b;
    if Chained(ts) {
      forall i | 0 <= i < |a| - 1 ensures Adjacent(a[i], a[i + 1]) {
        assert Adjacent(ts[i], ts[i + 1]);
      }
      forall i | 0 <= i < |b| - 1 ensures Adjacent(b[i], b[i + 1]) {
        assert Adjacent(ts[|a| + i], ts[|a| + i + 1]);
      }
      if a != [] && b != [] {
        assert Adjacent(ts[|a| - 1], ts[|a|]);
      }
    }
  }

  /** The tokens of an operand start and end as an operand may. */
  predicate OperandTokensOk(ts: seq<Token>) {
    && ts != [] && Chained(ts) && Excess(ts) == 0
    && (ts[0].Quoted? || ts[0].Ident?) && (ts[|ts| - 1].Quoted? || ts[|ts| - 1].RParen?)
    && !NoQuoted(ts)
  }

  predicate TailTokensOk(ts: seq<Token>) {
    && Chained(ts) && Excess(ts) == 0
    && (ts != [] ==> ts[0].Comma? && (ts[|ts| - 1].Quoted? || ts[|ts| - 1].RParen?) && !NoQuoted(ts))
  }

  lemma {:induction false} TreeTokens(e: Expr)
    requires IsOperand(e)
    ensures OperandTokensOk(Tokens(e))
    decreases e, 1
  {
    if e.Str? {
      assert Tokens(e)[0] == Quoted(e.s);
      assert Tokens(e)[1..] == [];
    } else {
      var n, tail := e.args[0].n, TokensTail(e.args[1..]);
      TailTokens(e.args[1..]);
      assert Tokens(e) == [Ident("outof"), LParen] + ([Number(n)] + (tail + [RParen]));
      GateTokens([Number(n)], tail);
    }
  }

  lemma GateTokens(head: seq<Token>, tail: seq<Token>)
    requires |head| == 1 && head[0].Number? && TailTokensOk(tail) && tail != []
    ensures OperandTokensOk([Ident("outof"), LParen] + (head + (tail + [RParen])))
  {
    var open := [Ident("outof"), LParen];
    var ts := open + (head + (tail + [RParen]));
    ChainedParts(tail, [RParen]);
    ChainedParts(head, tail + [RParen]);
    ChainedParts(open, head + (tail + [RParen]));
    ExcessOfGate(head, tail);
    var i :| 0 <= i < |tail| && tail[i].Quoted?;
    assert ts[3 + i] == tail[i];
    assert head[1..] == [];
  }

  lemma ExcessOfGate(head: seq<Token>, tail: seq<Token>)
    ensures Excess([Ident("outof"), LParen] + (head + (tail + [RParen]))) == Excess(head) + Excess(tail)
  {
    var open, close: seq<Token> := [Ident("outof"), LParen], [RParen];
    ExcessOfBoth(open, head + (tail + close));
    ExcessOfBoth(head, tail + close);
    ExcessOfBoth(tail, close);
    assert open[1..] == [LParen] && [LParen][1..] == [];
    assert close[1..] == [];
  }

  lemma {:induction false} TailTokens(es: seq<Expr>)
    requires AreOperands(es)
    ensures TailTokensOk(TokensTail(es)) && (es != [] ==> TokensTail(es) != [])
    decreases es, 0
  {
    if es != [] {
      TreeTokens(es[0]);
      TailTokens(es[1..]);
      TailStep(Tokens(es[0]), TokensTail(es[1..]));
    }
  }

  lemma TailStep(head: seq<Token>, rest: seq<Token>)
    requires OperandTokensOk(head) && TailTokensOk(rest)
    ensures TailTokensOk([Comma] + (head + rest))
  {
    hide Chained;
    hide Excess;
    var comma: seq<Token> := [Comma];
    SingleIsChained(comma);
    ExcessOfComma();
    ChainedParts(head, rest);
    ChainedParts(comma, head + rest);
    ExcessOfBoth(head, rest);
    ExcessOfBoth(comma, head + rest);
    var ts := comma + (head + rest);
    var i :| 0 <= i < |head| && head[i].Quoted?;
    assert ts[1 + i] == head[i];
  }

  // ----- pasted text in such a tree

  /** Text without strings cannot close a bracket, and in the place of an operand
      it must leave one open. */
  lemma {:induction false} PastedNeverCloses(prev: Token, ts: seq<Token>, next: Token, i: nat)
    requires NoQuoted(ts) && Chained([prev] + ts + [next]) && (prev.Comma? || prev.LParen?) && i < |ts|
    ensures !ts[i].RParen?
    decreases i
  {
    var all := [prev] + ts + [next];
    assert all[i + 1] == ts[i] && Adjacent(all[i], all[i + 1]);
    if i > 0 {
      assert all[i] == ts[i - 1];
      PastedNeverCloses(prev, ts, next, i - 1);
    } else {
      assert all[0] == prev;
    }
  }

  lemma {:induction false} NothingClosed(ts: seq<Token>)
    requires forall i :: 0 <= i < |ts| ==> !ts[i].RParen?
    ensures Excess(ts) >= 0
    ensures Excess(ts) == 0 ==> forall i :: 0 <= i < |ts| ==> !ts[i].LParen?
  {
    if ts != [] {
      forall i | 0 <= i < |ts[1..]| ensures !ts[1..][i].RParen? {
        assert ts[1..][i] == ts[i + 1];
      }
      NothingClosed(ts[1..]);
      if Excess(ts) == 0 {
        forall i | 0 <= i < |ts| ensures !ts[i].LParen? {
          if i > 0 {
            assert ts[i] == ts[1..][i - 1];
          }
        }
      }
    }
  }

  lemma PastedOperand(ts: seq<Token>, next: Token)
    requires NoQuoted(ts) && Chained([Comma] + ts + [next]) && (next.Comma? || next.RParen?)
    ensures Excess(ts) > 0
  {
    var all := [Comma] + ts + [next];
    forall i | 0 <= i < |ts| ensures !ts[i].RParen? {
      PastedNeverCloses(Comma, ts, next, i);
    }
    NothingClosed(ts);
    assert Adjacent(all[0], all[1]);
    assert Adjacent(all[1], all[2]);
    assert ts != [] && ts[0] == all[1];
    assert |ts| > 1 && ts[1] == all[2];
  }

  lemma PastedThreshold(ts: seq<Token>)
    requires NoQuoted(ts) && Chained([LParen] + ts + [Comma])
    ensures Excess(ts) >= 0
    ensures Excess(ts) == 0 ==> |ts| == 1 && ts[0].Number?
  {
    var all := [LParen] + ts + [Comma];
    forall i | 0 <= i < |ts| ensures !ts[i].RParen? {
      PastedNeverCloses(LParen, ts, Comma, i);
    }
    NothingClosed(ts);
    assert Adjacent(all[0], all[1]);
    assert ts != [] && ts[0] == all[1];
    if |ts| > 1 {
      assert Adjacent(all[1], all[2]) && all[2] == ts[1];
      assert Adjacent(all[2], all[3]);
      assert |ts| > 2 && all[3] == ts[2];
      assert Adjacent(all[3], all[4]);
      assert |ts| > 3 && all[4] == ts[3];
    }
  }

  // ----- only gate expressions print the tokens of a tree

  /** Unless every operand is a gate or a principal and every threshold a number,
      the text leaves a bracket open. */
  lemma {:induction false} OnlyGatesBalance(e: Expr, ts: seq<Token>, next: Token)
    requires QuoteFree(e) && Eval(Translate, e).Success? && Eval(Translate, e).value.VString?
    requires TextTokens(e) == Some(ts) && Chained([Comma] + ts + [next]) && (next.Comma? || next.RParen?)
    ensures Excess(ts) >= 0 && (Excess(ts) == 0 ==> ToGate(e).Some?)
    decreases e, 1
  {
    match e
    case Str(s) =>
      if Submatch(s).Some? {
        assert ts[1..] == [];
      } else {
        UnquotedHasNoStrings(s);
        PastedOperand(ts, next);
      }
    case Call(fn, args) =>
      ChainedParts([Comma] + ts, [next]);
      ChainedParts([Comma], ts);
      OnlyGatesBalanceCall(fn, args, ts);
    case _ =>
  }

  lemma {:induction false} OnlyGatesBalanceCall(fn: string, args: seq<Expr>, ts: seq<Token>)
    requires QuoteFree(Call(fn, args)) && Eval(Translate, Call(fn, args)).Success?
    requires TextTokens(Call(fn, args)) == Some(ts) && Chained(ts)
    ensures Excess(ts) >= 0 && (Excess(ts) == 0 ==> ToGate(Call(fn, args)).Some?)
    decreases args, 5
  {
    hide Chained;
    hide Lex;
    hide Itoa;
    hide Render;
    var vs := EvalArgs(Translate, args).value;
    EvalArgsLength(args);
    if fn in AND_NAMES || fn in OR_NAMES {
      var n := if fn in AND_NAMES then |args| else 1;
      assert ([VInt(n)] + vs)[1..] == vs;
      OnlyGatesBalanceJunction(n, args, ts);
    } else {
      OnlyGatesBalanceOutOf(args, ts);
    }
  }

  /** The operands of an AND or OR. */
  lemma {:induction false} OnlyGatesBalanceJunction(n: nat, args: seq<Expr>, ts: seq<Token>)
    requires args != [] && (forall a :: a in args ==> QuoteFree(a)) && EvalArgs(Translate, args).Success?
    requires Render(EvalArgs(Translate, args).value, false).Success?
    requires Bracketed(Some([Number(n)]), OperandTokens(args)) == Some(ts) && Chained(ts)
    ensures Excess(ts) >= 0 && (Excess(ts) == 0 ==> ToGates(args).Some?)
    decreases args, 4
  {
    hide Chained;
    hide Eval;
    hide EvalArgs;
    hide Render;
    hide ToGates;
    hide OperandTokens;
    var head, tail: seq<Token> := [Number(n)], OperandTokens(args).value;
    OperandsStartWithComma(args);
    GatePieces(head, tail, ts);
    OnlyGatesBalanceAll(args, tail);
    assert head[1..] == [];
  }

  /** The threshold and the operands of an OutOf. */
  lemma {:induction false} OnlyGatesBalanceOutOf(args: seq<Expr>, ts: seq<Token>)
    requires |args| > 1 && (forall a :: a in args ==> QuoteFree(a)) && EvalArgs(Translate, args).Success?
    requires Render(EvalArgs(Translate, args).value[1..], false).Success?
    requires Bracketed(ThresholdTokens(args[0]), OperandTokens(args[1..])) == Some(ts) && Chained(ts)
    ensures Excess(ts) >= 0
    ensures Excess(ts) == 0 ==> Numeral(args[0]).Some? && ToGates(args[1..]).Some?
    decreases args, 4
  {
    hide Chained;
    hide Eval;
    hide Render;
    hide ToGates;
    hide Numeral;
    hide OperandTokens;
    hide ThresholdTokens;
    var vs := EvalArgs(Translate, args).value;
    assert EvalArgs(Translate, args[1..]) == Success(vs[1..]);
    forall a | a in args[1..] ensures QuoteFree(a) { assert a in args; }
    var head, tail := ThresholdTokens(args[0]).value, OperandTokens(args[1..]).value;
    OperandsStartWithComma(args[1..]);
    GatePieces(head, tail, ts);
    OnlyGatesBalanceAll(args[1..], tail);
    OnlyNumbersBalance(args[0], head);
  }

  lemma OperandsStartWithComma(es: seq<Expr>)
    requires es != [] && OperandTokens(es).Some?
    ensures var ts := OperandTokens(es).value; ts != [] && ts[0].Comma?
  {
  }

  lemma GatePieces(head: seq<Token>, tail: seq<Token>, ts: seq<Token>)
    requires Bracketed(Some(head), Some(tail)) == Some(ts) && Chained(ts) && tail != [] && tail[0].Comma?
    ensures Chained([LParen] + head + [Comma]) && Chained(tail + [RParen])
    ensures Excess(ts) == Excess(head) + Excess(tail)
  {
    hide Chained;
    hide Excess;
    assert ts == [Ident("outof"), LParen] + (head + (tail + [RParen]));
    ExcessOfGate(head, tail);
    ChainedGate(head, tail);
  }

  lemma ChainedGate(head: seq<Token>, tail: seq<Token>)
    requires Chained([Ident("outof"), LParen] + (head + (tail + [RParen]))) && tail != [] && tail[0].Comma?
    ensures Chained([LParen] + head + [Comma]) && Chained(tail + [RParen])
  {
    hide Chained;
    hide Adjacent;
    var name: seq<Token> := [Ident("outof")];
    var open: seq<Token> := [LParen];
    var close: seq<Token> := [RParen];
    var comma: seq<Token> := [Comma];
    var left, right := open + head, tail + close;
    assert name + open == [Ident("outof"), LParen];
    assert (name + open) + (head + right) == name + (left + right);
    ChainedParts(name, left + right);
    ChainedParts(left, right);
    SingleIsChained(comma);
    ChainedParts(left, comma);
    assert right[0] == comma[0];
  }

  lemma {:induction false} OnlyGatesBalanceAll(es: seq<Expr>, ts: seq<Token>)
    requires es != [] && (forall e :: e in es ==> QuoteFree(e)) && EvalArgs(Translate, es).Success?
    requires Render(EvalArgs(Translate, es).value, false).Success?
    requires OperandTokens(es) == Some(ts) && Chained(ts + [RParen])
    ensures ts != [] && ts[0].Comma?
    ensures Excess(ts) >= 0 && (Excess(ts) == 0 ==> ToGates(es).Some?)
    decreases es, 2
  {
    var vs := EvalArgs(Translate, es).value;
    assert EvalArgs(Translate, es[1..]) == Success(vs[1..]);
    var one, rest := TextTokens(es[0]).value, OperandTokens(es[1..]).value;
    if es[1..] == [] {
      OperandPieces(one, [], ts);
      assert ToGates(es[1..]).Some?;
      OnlyGatesBalance(es[0], one, RParen);
    } else {
      OperandPieces(one, rest, ts);
      OnlyGatesBalance(es[0], one, Comma);
      OnlyGatesBalanceAll(es[1..], rest);
    }
  }

  lemma SingleIsChained(ts: seq<Token>)
    requires |ts| == 1
    ensures Chained(ts)
  {
  }

  lemma ExcessOfComma()
    ensures Excess([Comma]) == 0
  {
    var comma: seq<Token> := [Comma];
    assert comma[1..] == [];
  }

  lemma OperandPieces(one: seq<Token>, rest: seq<Token>, ts: seq<Token>)
    requires ts == ([Comma] + one) + rest && Chained(ts + [RParen]) && (rest != [] ==> rest[0].Comma?)
    ensures Chained([Comma] + one + [if rest == [] then RParen else Comma]) && Chained(rest + [RParen])
    ensures Excess(ts) == Excess(one) + Excess(rest)
  {
    hide Chained;
    hide Excess;
    var comma, close: seq<Token> := [Comma], [RParen];
    var left, right := comma + one, rest + close;
    assert ts + close == left + right;
    ChainedParts(left, right);
    var next: seq<Token> := [if rest == [] then RParen else Comma];
    SingleIsChained(next);
    ChainedParts(left, next);
    assert next[0] == right[0];
    ExcessOfBoth(left, rest);
    ExcessOfBoth(comma, one);
    ExcessOfComma();
  }

  lemma OnlyNumbersBalance(e: Expr, ts: seq<Token>)
    requires QuoteFree(e) && ThresholdTokens(e) == Some(ts) && Chained([LParen] + ts + [Comma])
    ensures Excess(ts) >= 0 && (Excess(ts) == 0 ==> Numeral(e).Some?)
  {
    match e
    case Num(_) => assert ts[1..] == [];
    case Str(s) =>
      UnquotedHasNoStrings(s);
      PastedThreshold(ts);
    case Call(fn, args) =>
      assert ts[0] == Ident("outof");
      NumberAfterBracket(ts);
    case _ =>
  }

  lemma NumberAfterBracket(ts: seq<Token>)
    requires Chained([LParen] + ts + [Comma])
    ensures ts != [] && ts[0].Number?
  {
    var all := [LParen] + ts + [Comma];
    assert Adjacent(all[0], all[1]);
  }

  // ----- how long the text of a threshold is

  lemma {:induction false} DigitsAreNoShorter(d: string)
    requires d != [] && forall i :: 0 <= i < |d| ==> IsDigit(d[i])
    ensures |d| >= |Itoa(ParseNat(d))| && (|d| == |Itoa(ParseNat(d))| ==> d == Itoa(ParseNat(d)))
  {
    var n := |d| - 1;
    var x := DigitValue(d[n]);
    assert Digit(x) == d[n];
    assert d == d[..n] + [d[n]];
    if n > 0 {
      DigitsAreNoShorter(d[..n]);
    } else {
      assert ParseNat(d[..0]) == 0;
    }
  }

  lemma ReadStep(s: string, p: char -> bool, k: nat)
    requires s != "" && Read(s, p).Some? && if s[0] == '\\' then k == 2 else p(s[0]) && k == 1
    ensures k <= |s| && Read(s, p) == Before(s[k - 1], Read(s[k..], p))
  {
  }

  lemma ReadEnds(s: string, p: char -> bool)
    requires s == "" || (s[0] != '\\' && !p(s[0]))
    ensures Read(s, p) == Some(("", s))
  {
  }

  /** What a run of digits was read from holds no quotes and is no shorter. */
  lemma {:induction false} ReadOfDigits(s: string)
    requires Read(s, IsDigit).Some? && AllDigits(Read(s, IsDigit).value.0) && Unquoted(Read(s, IsDigit).value.1)
    ensures Unquoted(s) && (|s| == |Read(s, IsDigit).value.0| ==> s == Read(s, IsDigit).value.0)
  {
    hide Read;
    if s == "" || (s[0] != '\\' && !IsDigit(s[0])) {
      ReadEnds(s, IsDigit);
    } else {
      var k := if s[0] == '\\' then 2 else 1;
      ReadStep(s, IsDigit, k);
      var text := Read(s[k..], IsDigit).value.0;
      DigitFirst(s[k - 1], text);
      ReadOfDigits(s[k..]);
      assert s == s[..k] + s[k..];
    }
  }

  lemma DigitFirst(c: char, text: string)
    requires AllDigits([c] + text)
    ensures IsDigit(c) && AllDigits(text)
  {
    var all := [c] + text;
    assert IsDigit(all[0]);
    forall i | 0 <= i < |text| ensures IsDigit(text[i]) {
      assert text[i] == all[i + 1];
    }
  }

  lemma {:induction false} BlankIsUnquoted(s: string)
    requires Lex(s) == Some([])
    ensures Unquoted(s)
    decreases |s|
  {
    if s != "" {
      BlankIsUnquoted(NextToken(s).value.1);
    }
  }

  /** Blanks, escapes and leading zeros make a threshold longer, and nothing makes it
      shorter; a quote in it would not be read as part of a number. */
  lemma {:induction false} NumberIsNoShorter(s: string, n: nat)
    requires Lex(s) == Some([Number(n)])
    ensures Unquoted(s)
    ensures |s| >= |Itoa(n)| && (|s| == |Itoa(n)| ==> s == Itoa(n))
    decreases |s|
  {
    hide Lex;
    hide Read;
    hide Itoa;
    LexStep(s);
    var (ts, rest) := NextToken(s).value;
    if IsSpace(s[0]) {
      PrependNothing(Lex(rest));
      NumberIsNoShorter(rest, n);
      assert s == [s[0]] + rest;
    } else {
      FirstOfBoth(ts, Lex(rest).value);
      BlankIsUnquoted(rest);
      DigitsToken(s, n, rest);
    }
  }

  lemma DigitsToken(s: string, n: nat, rest: string)
    requires s != "" && NextToken(s) == Some(([Number(n)], rest)) && Unquoted(rest)
    ensures Unquoted(s)
    ensures |s| >= |Itoa(n)| && (|s| == |Itoa(n)| ==> s == Itoa(n))
  {
    hide Read;
    hide Itoa;
    hide ParseNat;
    var text := Read(s[1..], IsDigit).value.0;
    ReadOfDigits(s[1..]);
    DigitsAreNoShorter([s[0]] + text);
    assert s == [s[0]] + s[1..];
  }

  lemma FirstOfBoth(a: seq<Token>, b: seq<Token>)
    requires |a| == 1
    ensures (a + b)[0] == a[0] && |a + b| == 1 + |b|
  {
  }

  lemma NumeralTokens(e: Expr)
    requires Numeral(e).Some?
    ensures ThresholdTokens(e) == Some([Number(Numeral(e).value)])
  {
    if e.Str? {
      var ts := Lex(e.s).value;
      assert ts == [Number(ts[0].value)];
    }
  }
}
