/** What quotes in a string operand can do: a string may hold them behind a
    backslash, and is then pasted with them into the text of the next pass. */
module PolicyEscapes {
  import opened Wrappers
  import opened PolicyText
  import opened PolicyDsl
  import opened PolicyGates
  import opened PolicyTokens
  import opened PolicyProofs

  /** The operands of a gate as the passes print them, without the first separator. */
  function OperandsText(gs: seq<Gate>): string
    requires gs != []
  {
    Print(Target(gs[0], false)) + PrintTail(TargetAll(gs[1..], false))
  }

  /** Any operands at all can stand in one string if their quotes are escaped: the
      policy is no gate expression, and compiles as if they stood there without it. */
  lemma EscapedOperandsCompile(gs: seq<Gate>)
    requires gs != [] && NamedAll(gs) && InhabitedAll(gs)
    ensures var policy, g := "or('" + Escaped(OperandsText(gs)) + "')", AnyOf(gs);
      && Parse(policy).Some? && ToGate(Parse(policy).value).None?
      && if ThresholdsFitAll(gs) then FromString(policy) == Success(Envelope(AllocationOrder(g), Compiled(g, 0)))
         else FromString(policy).Failure?
  {
    hide Lex;
    hide FromString;
    hide Target;
    var inner := OperandsText(gs);
    var policy, g := "or('" + Escaped(inner) + "')", AnyOf(gs);
    ReadsAsOneString(inner);
    NoPrincipal(gs);
    NotAGate(inner);
    TranslatesOneString(policy, inner);
    PrintsOperands(gs);
    TargetIsPrintable(g, false);
    ParsePrint(Target(g, false));
    CompilesFromText(policy, g);
  }

  lemma ReadsAsOneString(inner: string)
    ensures Parse("or('" + Escaped(inner) + "')") == Some(Call("or", [Str(inner)]))
  {
    hide Lex;
    hide Escaped;
    var quoted := "'" + Escaped(inner) + "'" + ")";
    var policy := "or('" + Escaped(inner) + "')";
    assert policy == "or" + "(" + quoted;
    LexOpen("or", quoted);
    LexEscaped(inner, ")");
    LexClose("");
    LexOfNothing();
    assert ")" + "" == ")";
    TokensOfOneString(inner);
    PrependTwice([Quoted(inner)], [RParen], Some([]));
    PrependTwice([Ident("or"), LParen], [Quoted(inner)] + [RParen], Some([]));
    var ts: seq<Token> := [Ident("or"), LParen] + ([Quoted(inner)] + [RParen]);
    assert ts + [] == ts;
    ParseByTokens(policy, Call("or", [Str(inner)]));
  }

  lemma TokensOfOneString(inner: string)
    ensures Tokens(Call("or", [Str(inner)])) == [Ident("or"), LParen] + ([Quoted(inner)] + [RParen])
  {
    assert [Str(inner)][1..] == [];
    assert Tokens(Str(inner)) == [Quoted(inner)];
    assert [] + [RParen] == [RParen];
  }

  lemma NotAGate(inner: string)
    requires Submatch(inner).None?
    ensures ToGate(Call("or", [Str(inner)])).None?
  {
    assert ToGate([Str(inner)][0]).None?;
  }

  lemma NoPrincipal(gs: seq<Gate>)
    requires gs != []
    ensures Submatch(OperandsText(gs)).None?
  {
    var inner := OperandsText(gs);
    var first := Print(Target(gs[0], false));
    assert forall i :: 0 <= i < |first| ==> inner[i] == first[i];
    assert if gs[0].Leaf? then first[0] == '\'' else first[5] == '(';
    if Submatch(inner).Some? {
      MatchedChars(inner);
    }
  }

  lemma TranslatesOneString(policy: string, inner: string)
    requires Parse(policy) == Some(Call("or", [Str(inner)])) && Submatch(inner).None?
    ensures RunPass(Translate, policy) == Success("outof(1, " + inner + ")")
  {
    hide Parse;
    hide Submatch;
    var args := [Str(inner)];
    assert args[1..] == [] && EvalArgs(Translate, args[1..]) == Success([]);
    assert Eval(Translate, args[0]) == Success(VString(inner));
    assert [VString(inner)] + [] == [VString(inner)];
    assert EvalArgs(Translate, args) == Success([VString(inner)]);
    var vs := [VInt(1)] + [VString(inner)];
    assert vs[1..] == [VString(inner)] && vs[1..][1..] == [];
    assert Render(vs[1..], false) == Success(", " + inner + "");
    assert Itoa(1) == "1";
    assert "outof(" + Itoa(1) + (", " + inner + "") + ")" == "outof(1, " + inner + ")";
  }

  lemma PrintsOperands(gs: seq<Gate>)
    requires gs != []
    ensures Print(Target(AnyOf(gs), false)) == "outof(1, " + OperandsText(gs) + ")"
  {
    hide Print;
    hide PrintTail;
    hide Target;
    var es := TargetAll(gs, false);
    TargetOfAny(gs);
    PrintCall("outof", Num(1), es);
    assert es[0] == Target(gs[0], false) && es[1..] == TargetAll(gs[1..], false);
    PrintTailSplit(es, "");
    PrintOne();
    var first, more := Print(es[0]), PrintTail(es[1..]);
    assert PrintTail(es) + "" == PrintTail(es) && more + "" == more;
    assert "outof" + "(" + "1" + (", " + (first + more)) + ")" == "outof(1, " + (first + more) + ")";
  }

  lemma TargetOfAny(gs: seq<Gate>)
    ensures Target(AnyOf(gs), false) == Call("outof", [Num(1)] + TargetAll(gs, false))
  {
  }

  lemma PrintOne()
    ensures Print(Num(1)) == "1"
  {
    assert Itoa(1) == "1";
  }

  /** So one string that names two principals makes a policy of either of them. */
  lemma EscapedQuotesCompile()
    ensures var policy := "or('\\'A.member\\', \\'B.member\\'')";
      && Parse(policy).Some? && ToGate(Parse(policy).value).None?
      && FromString(policy) == Success(Envelope(
           [Principal("A", Member), Principal("B", Member)],
           NOutOf(1, [SignedBy(0), SignedBy(1)])))
  {
    hide FromString;
    hide Parse;
    hide ToGate;
    hide PrincipalText;
    var a, b := Principal("A", Member), Principal("B", Member);
    NamesOfPair(a, b);
    EscapedPairCompiles(a, b);
    assert "or('" + ("\\'" + "A.member" + "\\', \\'" + "B.member" + "\\'") + "')"
        == "or('\\'A.member\\', \\'B.member\\'')";
  }

  lemma NamesOfPair(a: Principal, b: Principal)
    requires a == Principal("A", Member) && b == Principal("B", Member)
    ensures PrincipalText(a) == "A.member" && PrincipalText(b) == "B.member"
  {
  }

  lemma EscapedPairCompiles(a: Principal, b: Principal)
    requires ValidMsp(a.msp) && ValidMsp(b.msp)
    ensures var inner := "\\'" + PrincipalText(a) + "\\', \\'" + PrincipalText(b) + "\\'";
      var policy := "or('" + inner + "')";
      && Parse(policy).Some? && ToGate(Parse(policy).value).None?
      && FromString(policy) == Success(Envelope([a, b], NOutOf(1, [SignedBy(0), SignedBy(1)])))
  {
    hide FromString;
    hide Parse;
    hide ToGate;
    hide Escaped;
    hide PrincipalText;
    hide OperandsText;
    PrincipalIsPlain(a);
    PrincipalIsPlain(b);
    TextOfPair(a, b);
    EscapesOfPair(PrincipalText(a), PrincipalText(b));
    EscapedOperandsCompile([Leaf(a), Leaf(b)]);
    CompiledPair(a, b);
  }

  lemma PrincipalIsPlain(p: Principal)
    requires ValidMsp(p.msp)
    ensures forall i :: 0 <= i < |PrincipalText(p)| ==> IsPlain(PrincipalText(p)[i])
  {
    SubmatchComplete(p);
    MatchedChars(PrincipalText(p));
  }

  lemma TextOfPair(a: Principal, b: Principal)
    requires ValidMsp(a.msp) && ValidMsp(b.msp)
    ensures var gs := [Leaf(a), Leaf(b)];
      && NamedAll(gs) && InhabitedAll(gs) && ThresholdsFitAll(gs)
      && OperandsText(gs) == "'" + PrincipalText(a) + "', '" + PrincipalText(b) + "'"
  {
    hide PrincipalText;
    var none: seq<Gate> := [];
    var gs, rest := [Leaf(a), Leaf(b)], [Leaf(b)];
    assert gs[1..] == rest && rest[1..] == none;
    assert NamedAll(none) && InhabitedAll(none) && ThresholdsFitAll(none);
    assert NamedAll(rest) && InhabitedAll(rest) && ThresholdsFitAll(rest);
    var es := [Str(PrincipalText(b))];
    assert TargetAll(rest, false) == es;
    PrintTailSplit(es, "");
    assert PrintTail(es[1..]) == "";
    assert PrintTail(es) == ", '" + PrincipalText(b) + "'";
  }

  lemma EscapesOfPair(a: string, b: string)
    requires forall i :: 0 <= i < |a| ==> IsPlain(a[i])
    requires forall i :: 0 <= i < |b| ==> IsPlain(b[i])
    ensures Escaped("'" + a + "', '" + b + "'") == "\\'" + a + "\\', \\'" + b + "\\'"
  {
    hide Escaped;
    hide IsPlain;
    EscapedNothing();
    EscapedQuoted(b, "");
    var second := "'" + (b + ("'" + ""));
    EscapedComma(second);
    EscapedQuoted(a, ", " + second);
    PlainPair(a, b);
    EscapedPair(a, b);
  }

  lemma PlainPair(a: string, b: string)
    ensures "'" + a + "', '" + b + "'" == "'" + (a + ("'" + (", " + ("'" + (b + ("'" + ""))))))
  {
    Regrouped("'", a, ", ", b);
    assert "'" + ", " + "'" == "', '";
  }

  lemma EscapedPair(a: string, b: string)
    ensures "\\'" + a + "\\', \\'" + b + "\\'" == "\\'" + (a + ("\\'" + (", " + ("\\'" + (b + ("\\'" + ""))))))
  {
    Regrouped("\\'", a, ", ", b);
    assert "\\'" + ", " + "\\'" == "\\', \\'";
  }

  lemma Regrouped(q: string, a: string, comma: string, b: string)
    ensures q + a + (q + comma + q) + b + q == q + (a + (q + (comma + (q + (b + (q + ""))))))
  {
  }

  lemma EscapedQuoted(text: string, rest: string)
    requires forall i :: 0 <= i < |text| ==> IsPlain(text[i])
    ensures Escaped("'" + (text + ("'" + rest))) == "\\'" + (text + ("\\'" + Escaped(rest)))
  {
    hide Escaped;
    hide IsPlain;
    EscapedQuote(text + ("'" + rest));
    EscapedPlain(text, "'" + rest);
    EscapedQuote(rest);
  }

  lemma EscapedComma(rest: string)
    ensures Escaped(", " + rest) == ", " + Escaped(rest)
  {
    EscapedPlain(", ", rest);
  }

  lemma EscapedNothing()
    ensures Escaped("") == ""
  {
  }

  lemma {:induction false} EscapedPlain(plain: string, rest: string)
    requires forall i :: 0 <= i < |plain| ==> IsPlain(plain[i])
    ensures Escaped(plain + rest) == plain + Escaped(rest)
  {
    if plain == "" {
      assert plain + rest == rest;
    } else {
      assert (plain + rest)[1..] == plain[1..] + rest;
      EscapedPlain(plain[1..], rest);
    }
  }

  lemma EscapedQuote(rest: string)
    ensures Escaped("'" + rest) == "\\'" + Escaped(rest)
  {
    assert ("'" + rest)[1..] == rest;
  }

  lemma CompiledPair(a: Principal, b: Principal)
    ensures var g := AnyOf([Leaf(a), Leaf(b)]);
      AllocationOrder(g) == [a, b] && Compiled(g, 0) == NOutOf(1, [SignedBy(0), SignedBy(1)])
  {
    var none: seq<Gate> := [];
    var gs, rest := [Leaf(a), Leaf(b)], [Leaf(b)];
    assert gs[1..] == rest && rest[1..] == none;
    assert NestedOrder(none) == [] && DirectOrder(none) == [] && CompiledKids(none, 0, 2) == [];
    assert NestedOrder(rest) == [] && DirectOrder(rest) == [b] && CompiledKids(rest, 0, 1) == [SignedBy(1)];
    assert NestedOrder(gs) == [] && DirectOrder(gs) == [a, b];
  }
}
