/** The fragment of the govaluate expression syntax that the policy passes read
    and write: calls, decimal numbers, quoted strings, names, commas and blanks.
    A backslash escapes the character after it in strings, names and numbers, as
    the expression library documents. The passes hand each other text, so the module
    ends with the law that makes this sound: printing an expression and reading it
    back changes nothing; and with what a pasted piece of text is read as. */
module PolicyText {
  import opened Wrappers

  datatype Token =
    | Ident(name: string)
    | Number(value: nat)
    | Quoted(text: string)
    | LParen
    | RParen
    | Comma

  datatype Expr =
    | Call(fn: string, args: seq<Expr>)
    | Num(n: nat)
    | Str(s: string)
    | Var(name: string)

  // ----- characters

  predicate IsDigit(c: char) { '0' <= c <= '9' }

  predicate IsLetter(c: char) { 'a' <= c <= 'z' || 'A' <= c <= 'Z' }

  predicate IsIdentChar(c: char) { IsLetter(c) || IsDigit(c) || c == '_' }

  /** Tab, line feed, vertical tab, form feed and carriage return follow each other. */
  predicate IsSpace(c: char) { c == ' ' || '\t' <= c <= '\r' }

  predicate IsQuote(c: char) { c == '\'' || c == '"' }

  /** What may stand in a printed string as it is. */
  predicate IsPlain(c: char) { !IsQuote(c) && c != '\\' }

  predicate InString(c: char) { !IsQuote(c) }

  /** Reads characters satisfying `p`, and any character after a backslash, which is
      dropped: what was read, and what follows. A backslash at the very end is an error. */
  function Read(s: string, p: char -> bool): (r: Option<(string, string)>)
    ensures r.Some? ==> |r.value.0| + |r.value.1| <= |s| && r.value.1 == s[|s| - |r.value.1|..]
  {
    if s == "" then Some(("", ""))
    else if s[0] == '\\' then
      if |s| == 1 then None else Before(s[1], Read(s[2..], p))
    else if p(s[0]) then Before(s[0], Read(s[1..], p))
    else Some(("", s))
  }

  function Before(c: char, r: Option<(string, string)>): Option<(string, string)> {
    match r case None => None case Some((text, rest)) => Some(([c] + text, rest))
  }

  lemma {:induction false} ReadOfPlain(a: string, rest: string, p: char -> bool)
    requires forall i :: 0 <= i < |a| ==> p(a[i]) && a[i] != '\\'
    requires rest == "" || (!p(rest[0]) && rest[0] != '\\')
    ensures Read(a + rest, p) == Some((a, rest))
  {
    if a == "" {
      assert a + rest == rest;
    } else {
      assert (a + rest)[0] == a[0] && (a + rest)[1..] == a[1..] + rest;
      ReadOfPlain(a[1..], rest, p);
      assert [a[0]] + a[1..] == a;
    }
  }

  // ----- decimal numerals

  function Digit(d: nat): char
    requires d < 10
  {
    '0' + d as char
  }

  function Itoa(n: nat): (s: string)
    ensures s != [] && forall i :: 0 <= i < |s| ==> IsDigit(s[i])
  {
    if n < 10 then [Digit(n)] else Itoa(n / 10) + [Digit(n % 10)]
  }

  function DigitValue(c: char): nat
    requires IsDigit(c)
  {
    c as int - '0' as int
  }

  function ParseNat(s: string): nat
    requires forall i :: 0 <= i < |s| ==> IsDigit(s[i])
  {
    if s == [] then 0
    else 10 * ParseNat(s[..|s| - 1]) + DigitValue(s[|s| - 1])
  }

  lemma {:induction false} ParseItoa(n: nat)
    ensures ParseNat(Itoa(n)) == n
  {
    if n >= 10 {
      ParseItoa(n / 10);
      var s := Itoa(n);
      assert s[..|s| - 1] == Itoa(n / 10);
    }
  }

  // ----- reading

  function Prepend(ts: seq<Token>, r: Option<seq<Token>>): Option<seq<Token>> {
    match r
    case None => None
    case Some(us) => Some(ts + us)
  }

  predicate AllDigits(s: string) { forall i :: 0 <= i < |s| ==> IsDigit(s[i]) }

  /** The first token, if the text does not start with a blank, and the text after it. */
  function NextToken(s: string): (r: Option<(seq<Token>, string)>)
    requires s != ""
    ensures r.Some? ==> |r.value.1| < |s| && r.value.1 == s[|s| - |r.value.1|..]
  {
    if IsSpace(s[0]) then Some(([], s[1..]))
    else if s[0] == '(' then Some(([LParen], s[1..]))
    else if s[0] == ')' then Some(([RParen], s[1..]))
    else if s[0] == ',' then Some(([Comma], s[1..]))
    else if IsDigit(s[0]) then
      match Read(s[1..], IsDigit)
      case Some((text, rest)) => if AllDigits(text) then Some(([Number(ParseNat([s[0]] + text))], rest)) else None
      case None => None
    else if IsLetter(s[0]) then
      match Read(s[1..], IsIdentChar)
      case Some((text, rest)) => Some(([Ident([s[0]] + text)], rest))
      case None => None
    else if IsQuote(s[0]) then
      match Read(s[1..], InString)
      case Some((text, rest)) => if rest != "" then Some(([Quoted(text)], rest[1..])) else None
      case None => None
    else None
  }

  function Lex(s: string): Option<seq<Token>>
    decreases |s|
  {
    if s == "" then Some([])
    else
      match NextToken(s)
      case None => None
      case Some((ts, rest)) => Prepend(ts, Lex(rest))
  }

  /** Reads one expression and returns the tokens after it. */
  function ParseExpr(ts: seq<Token>): (r: Option<(Expr, seq<Token>)>)
    ensures r.Some? ==> |r.value.1| < |ts|
    decreases |ts|, 0
  {
    if ts == [] then None
    else match ts[0]
      case Number(n) => Some((Num(n), ts[1..]))
      case Quoted(t) => Some((Str(t), ts[1..]))
      case Ident(name) =>
        if |ts| > 1 && ts[1].LParen? then
          if |ts| > 2 && ts[2].RParen? then Some((Call(name, []), ts[3..]))
          else
            match ParseArgs(ts[2..])
            case None => None
            case Some((args, rest)) =>
              if rest != [] && rest[0].RParen? then Some((Call(name, args), rest[1..])) else None
        else Some((Var(name), ts[1..]))
      case _ => None
  }

  /** Reads one or more expressions separated by commas. */
  function ParseArgs(ts: seq<Token>): (r: Option<(seq<Expr>, seq<Token>)>)
    ensures r.Some? ==> |r.value.1| < |ts|
    decreases |ts|, 1
  {
    match ParseExpr(ts)
    case None => None
    case Some((e, rest)) =>
      if rest != [] && rest[0].Comma? then
        match ParseArgs(rest[1..])
        case None => None
        case Some((es, rest')) => Some(([e] + es, rest'))
      else Some(([e], rest))
  }

  function Parse(s: string): Option<Expr> {
    match Lex(s)
    case None => None
    case Some(ts) =>
      match ParseExpr(ts)
      case Some((e, rest)) => if rest == [] then Some(e) else None
      case None => None
  }

  // ----- writing

  function Print(e: Expr): string
    decreases e, 0
  {
    match e
    case Num(n) => Itoa(n)
    case Str(s) => "'" + s + "'"
    case Var(v) => v
    case Call(fn, args) =>
      if args == [] then fn + "()" else fn + "(" + Print(args[0]) + PrintTail(args[1..]) + ")"
  }

  function PrintTail(es: seq<Expr>): string
    decreases es, 0
  {
    if es == [] then "" else ", " + Print(es[0]) + PrintTail(es[1..])
  }

  predicate IsName(s: string) {
    s != [] && IsLetter(s[0]) && forall i :: 0 <= i < |s| ==> IsIdentChar(s[i])
  }

  predicate Printable(e: Expr) {
    match e
    case Num(_) => true
    case Str(s) => forall i :: 0 <= i < |s| ==> IsPlain(s[i])
    case Var(v) => IsName(v)
    case Call(fn, args) => IsName(fn) && forall a :: a in args ==> Printable(a)
  }

  // ----- the printed text reads back as the same expression

  function Tokens(e: Expr): (ts: seq<Token>)
    ensures ts != [] && !ts[0].RParen?
    decreases e, 0
  {
    match e
    case Num(n) => [Number(n)]
    case Str(s) => [Quoted(s)]
    case Var(v) => [Ident(v)]
    case Call(fn, args) =>
      if args == [] then [Ident(fn), LParen, RParen]
      else [Ident(fn), LParen] + (Tokens(args[0]) + (TokensTail(args[1..]) + [RParen]))
  }

  function TokensTail(es: seq<Expr>): seq<Token>
    decreases es, 0
  {
    if es == [] then [] else [Comma] + (Tokens(es[0]) + TokensTail(es[1..]))
  }

  /** What may follow a printed expression: nothing, a comma or a closing bracket. */
  predicate Delimited(rest: string) {
    rest == [] || rest[0] == ',' || rest[0] == ')'
  }

  lemma PrependTwice(ts: seq<Token>, us: seq<Token>, r: Option<seq<Token>>)
    ensures Prepend(ts, Prepend(us, r)) == Prepend(ts + us, r)
  {
    if r.Some? {
      assert ts + (us + r.value) == (ts + us) + r.value;
    }
  }

  lemma PrependNothing(r: Option<seq<Token>>)
    ensures Prepend([], r) == r
  {
    if r.Some? {
      assert [] + r.value == r.value;
    }
  }

  lemma PrintTailSplit(es: seq<Expr>, rest: string)
    requires es != []
    ensures PrintTail(es) + rest == ", " + (Print(es[0]) + (PrintTail(es[1..]) + rest))
  {
  }

  lemma LexSymbol(s: string)
    requires s != []
    ensures s[0] == '(' ==> Lex(s) == Prepend([LParen], Lex(s[1..]))
    ensures s[0] == ')' ==> Lex(s) == Prepend([RParen], Lex(s[1..]))
    ensures s[0] == ',' ==> Lex(s) == Prepend([Comma], Lex(s[1..]))
  {
  }

  lemma LexStep(s: string)
    ensures s == "" ==> Lex(s) == Some([])
    ensures s != "" && NextToken(s).Some? ==> Lex(s) == Prepend(NextToken(s).value.0, Lex(NextToken(s).value.1))
    ensures s != "" && NextToken(s).None? ==> Lex(s).None?
  {
  }

  lemma LexNumber(n: nat, rest: string)
    requires Delimited(rest)
    ensures Lex(Itoa(n) + rest) == Prepend([Number(n)], Lex(rest))
  {
    hide Read;
    hide Itoa;
    hide ParseNat;
    hide Lex;
    var a := Itoa(n);
    var t := a + rest;
    ReadOfPlain(a[1..], rest, IsDigit);
    ParseItoa(n);
    assert t[0] == a[0] && t[1..] == a[1..] + rest;
    assert [a[0]] + a[1..] == a;
    assert NextToken(t) == Some(([Number(n)], rest));
    LexStep(t);
  }

  /** A quoted text, given what stands between its quotes. */
  lemma LexString(raw: string, text: string, rest: string)
    requires Read(raw + ("'" + rest), InString) == Some((text, "'" + rest))
    ensures Lex("'" + raw + "'" + rest) == Prepend([Quoted(text)], Lex(rest))
  {
    hide Lex;
    hide Read;
    hide NextToken;
    var t, close := "'" + raw + "'" + rest, "'" + rest;
    assert t == "'" + (raw + close);
    assert t[1..] == raw + close && close[1..] == rest;
    NextString(t, raw, text, close);
    LexStep(t);
  }

  lemma NextString(t: string, raw: string, text: string, close: string)
    requires Read(raw + close, InString) == Some((text, close)) && close != ""
    requires t != "" && IsQuote(t[0]) && t[1..] == raw + close
    ensures NextToken(t) == Some(([Quoted(text)], close[1..]))
  {
    hide Read;
  }

  lemma LexQuoted(s: string, rest: string)
    requires forall i :: 0 <= i < |s| ==> IsPlain(s[i])
    ensures Lex("'" + s + "'" + rest) == Prepend([Quoted(s)], Lex(rest))
  {
    hide Read;
    hide Lex;
    ReadOfPlain(s, "'" + rest, InString);
    LexString(s, s, rest);
  }

  lemma LexName(v: string, rest: string)
    requires IsName(v)
    requires rest == "" || (!IsIdentChar(rest[0]) && rest[0] != '\\')
    ensures Lex(v + rest) == Prepend([Ident(v)], Lex(rest))
  {
    hide Lex;
    NextName(v, rest);
    LexStep(v + rest);
  }

  lemma NextName(v: string, rest: string)
    requires IsName(v)
    requires rest == "" || (!IsIdentChar(rest[0]) && rest[0] != '\\')
    ensures NextToken(v + rest) == Some(([Ident(v)], rest))
  {
    hide Read;
    var t := v + rest;
    ReadOfPlain(v[1..], rest, IsIdentChar);
    assert t[0] == v[0] && t[1..] == v[1..] + rest;
    assert [v[0]] + v[1..] == v;
  }

  /** The opening `name(` of a call. */
  lemma LexOpen(fn: string, body: string)
    requires IsName(fn)
    ensures Lex(fn + "(" + body) == Prepend([Ident(fn), LParen], Lex(body))
  {
    var t := "(" + body;
    assert fn + "(" + body == fn + t;
    LexName(fn, t);
    LexSymbol(t);
    assert t[1..] == body;
    PrependTwice([Ident(fn)], [LParen], Lex(body));
    assert [Ident(fn)] + [LParen] == [Ident(fn), LParen];
  }

  lemma LexClose(rest: string)
    ensures Lex(")" + rest) == Prepend([RParen], Lex(rest))
  {
    LexSymbol(")" + rest);
    assert (")" + rest)[1..] == rest;
  }

  /** The separator the passes print between arguments. */
  lemma LexSeparator(body: string)
    ensures Lex(", " + body) == Prepend([Comma], Lex(body))
  {
    var t := ", " + body;
    var u := " " + body;
    LexSymbol(t);
    assert t[1..] == u;
    assert u[0] == ' ' && u[1..] == body;
    assert NextToken(u) == Some(([], body));
    PrependNothing(Lex(body));
  }

  lemma {:induction false} LexPrint(e: Expr, rest: string)
    requires Printable(e) && Delimited(rest)
    ensures Lex(Print(e) + rest) == Prepend(Tokens(e), Lex(rest))
    decreases e, 0
  {
    match e
    case Num(n) => LexNumber(n, rest);
    case Str(s) => LexQuoted(s, rest);
    case Var(v) => LexName(v, rest);
    case Call(fn, args) =>
      if args == [] {
        LexEmptyCall(fn, rest);
      } else {
        LexCall(fn, args, rest);
      }
  }

  lemma LexEmptyCall(fn: string, rest: string)
    requires IsName(fn)
    ensures Lex(fn + "()" + rest) == Prepend([Ident(fn), LParen, RParen], Lex(rest))
  {
    assert fn + "()" + rest == fn + "(" + (")" + rest);
    LexOpen(fn, ")" + rest);
    LexClose(rest);
    PrependTwice([Ident(fn), LParen], [RParen], Lex(rest));
    assert [Ident(fn), LParen] + [RParen] == [Ident(fn), LParen, RParen];
  }

  lemma {:induction false} LexCall(fn: string, args: seq<Expr>, rest: string)
    requires Printable(Call(fn, args)) && args != []
    ensures Lex(Print(Call(fn, args)) + rest) == Prepend(Tokens(Call(fn, args)), Lex(rest))
    decreases args, 2
  {
    var close := ")" + rest;
    var tail := PrintTail(args[1..]) + close;
    var body := Print(args[0]) + tail;
    assert Print(Call(fn, args)) + rest == fn + "(" + body;
    LexOpen(fn, body);
    LexPrint(args[0], tail) by {
      assert PrintTail(args[1..]) == [] ==> tail == close;
    }
    forall a | a in args[1..] ensures Printable(a) { assert a in args; }
    LexPrintTail(args[1..], close);
    LexClose(rest);
    var t0, t1 := Tokens(args[0]), TokensTail(args[1..]);
    PrependTwice(t1, [RParen], Lex(rest));
    PrependTwice(t0, t1 + [RParen], Lex(rest));
    PrependTwice([Ident(fn), LParen], t0 + (t1 + [RParen]), Lex(rest));
  }

  lemma {:induction false} LexPrintTail(es: seq<Expr>, rest: string)
    requires (forall e :: e in es ==> Printable(e)) && Delimited(rest)
    ensures Lex(PrintTail(es) + rest) == Prepend(TokensTail(es), Lex(rest))
    decreases es, 1
  {
    if es == [] {
      assert PrintTail(es) + rest == rest;
      PrependNothing(Lex(rest));
    } else {
      var more := PrintTail(es[1..]) + rest;
      var body := Print(es[0]) + more;
      PrintTailSplit(es, rest);
      LexSeparator(body);
      LexPrint(es[0], more) by {
        assert PrintTail(es[1..]) == [] ==> more == rest;
      }
      LexPrintTail(es[1..], rest);
      PrependTwice(Tokens(es[0]), TokensTail(es[1..]), Lex(rest));
      PrependTwice([Comma], Tokens(es[0]) + TokensTail(es[1..]), Lex(rest));
    }
  }

  lemma {:induction false} ParseTokens(e: Expr, rest: seq<Token>)
    requires rest == [] || !rest[0].LParen?
    ensures ParseExpr(Tokens(e) + rest) == Some((e, rest))
    decreases e, 0
  {
    var ts := Tokens(e) + rest;
    match e
    case Num(_) =>
    case Str(_) =>
    case Var(_) =>
    case Call(fn, args) =>
      if args == [] {
        assert ts[3..] == rest;
      } else {
        var inner := Tokens(args[0]) + (TokensTail(args[1..]) + ([RParen] + rest));
        assert ts[2..] == inner;
        assert inner[0] == Tokens(args[0])[0];
        ParseArgsTokens(args, [RParen] + rest);
      }
  }

  /** One unfolding of ParseArgs after its first expression has been read. */
  lemma ParseArgsStep(ts: seq<Token>, e: Expr, more: seq<Token>)
    requires ParseExpr(ts) == Some((e, more))
    ensures more == [] || !more[0].Comma? ==> ParseArgs(ts) == Some(([e], more))
    ensures more != [] && more[0].Comma? && ParseArgs(more[1..]).Some? ==>
      var (es, rest) := ParseArgs(more[1..]).value;
      ParseArgs(ts) == Some(([e] + es, rest))
  {
  }

  lemma {:induction false} ParseArgsTokens(es: seq<Expr>, rest: seq<Token>)
    requires es != []
    requires rest == [] || !(rest[0].LParen? || rest[0].Comma?)
    ensures ParseArgs(Tokens(es[0]) + (TokensTail(es[1..]) + rest)) == Some((es, rest))
    decreases es, 1
  {
    hide ParseExpr;
    hide ParseArgs;
    hide Tokens;
    var more := TokensTail(es[1..]) + rest;
    ParseTokens(es[0], more);
    ParseArgsStep(Tokens(es[0]) + more, es[0], more);
    if |es| == 1 {
      assert more == rest && es == [es[0]];
    } else {
      var es' := es[1..];
      assert more[1..] == Tokens(es'[0]) + (TokensTail(es'[1..]) + rest);
      ParseArgsTokens(es', rest);
      assert [es[0]] + es' == es;
    }
  }

  /** Printing and reading are inverse: the text boundary between two passes
      neither loses nor invents structure. */
  lemma {:induction false} ParsePrint(e: Expr)
    requires Printable(e)
    ensures Parse(Print(e)) == Some(e)
  {
    LexPrint(e, "");
    assert Print(e) + "" == Print(e);
    ParseTokens(e, []);
    assert Tokens(e) + [] == Tokens(e);
  }

  // ----- text that is read as one part of a longer text

  function Joined(a: Option<seq<Token>>, b: Option<seq<Token>>): Option<seq<Token>> {
    if a.Some? then Prepend(a.value, b) else None
  }

  predicate Unquoted(t: string) { forall i :: 0 <= i < |t| ==> !IsQuote(t[i]) }

  predicate NamesGates(ts: seq<Token>) { forall i :: 0 <= i < |ts| && ts[i].Ident? ==> ts[i].name == "outof" }

  /** Text that the pass after the first cannot evaluate: unreadable, or with a name
      that is not a gate's. */
  predicate Spoiled(r: Option<seq<Token>>) { r.Some? ==> !NamesGates(r.value) }

  /** How text that begins with a pasted piece is read: the piece on its own and then
      the rest, or not usefully at all. */
  predicate ReadsAs(whole: Option<seq<Token>>, piece: Option<seq<Token>>, rest: Option<seq<Token>>) {
    if piece.Some? then whole == Prepend(piece.value, rest) else Spoiled(whole)
  }

  lemma SpoiledAfter(ts: seq<Token>, r: Option<seq<Token>>)
    requires Spoiled(r)
    ensures Spoiled(Prepend(ts, r))
  {
    if r.Some? {
      var i :| 0 <= i < |r.value| && r.value[i].Ident? && r.value[i].name != "outof";
      assert (ts + r.value)[|ts| + i] == r.value[i];
    }
  }

  /** A run that ends inside the piece ends there in the whole text, too; a backslash
      at the end of the piece takes the delimiter into the run. */
  lemma {:induction false} ReadOfPasted(t: string, rest: string, p: char -> bool)
    requires Delimited(rest)
    ensures match Read(t, p)
      case Some((text, left)) => left != "" || (!p(',') && !p(')')) ==> Read(t + rest, p) == Some((text, left + rest))
      case None => Read(t + rest, p).None? || (rest != "" && rest[0] in Read(t + rest, p).value.0)
  {
    if t == "" {
      assert t + rest == rest;
    } else if t[0] == '\\' {
      if |t| > 1 {
        assert (t + rest)[2..] == t[2..] + rest;
        ReadOfPasted(t[2..], rest, p);
      } else if rest != "" {
        assert (t + rest)[1] == rest[0];
      }
    } else if p(t[0]) {
      assert (t + rest)[1..] == t[1..] + rest;
      ReadOfPasted(t[1..], rest, p);
    }
  }

  lemma NextOfPasted(t: string, rest: string)
    requires t != "" && !IsQuote(t[0]) && Delimited(rest)
    ensures match NextToken(t)
      case Some((ts, left)) => NextToken(t + rest) == Some((ts, left + rest))
      case None =>
        var r := NextToken(t + rest);
        r.None? || (|r.value.0| == 1 && r.value.0[0].Ident? && (',' in r.value.0[0].name || ')' in r.value.0[0].name))
  {
    hide Read;
    hide ParseNat;
    assert (t + rest)[0] == t[0] && (t + rest)[1..] == t[1..] + rest;
    if IsDigit(t[0]) {
      ReadOfPasted(t[1..], rest, IsDigit);
    } else if IsLetter(t[0]) {
      ReadOfPasted(t[1..], rest, IsIdentChar);
    }
  }

  lemma NextOfPastedString(t: string, rest: string)
    requires t != "" && IsQuote(t[0]) && Delimited(rest) && NextToken(t).Some?
    ensures NextToken(t + rest) == Some((NextToken(t).value.0, NextToken(t).value.1 + rest))
  {
    hide Read;
    var more := t[1..];
    assert (t + rest)[0] == t[0] && (t + rest)[1..] == more + rest;
    var close := Read(more, InString).value.1;
    ReadOfPasted(more, rest, InString);
    assert (close + rest)[1..] == close[1..] + rest;
  }

  /** Text that is pasted whole: it can be read, or no quote of it can swallow more. */
  predicate StandsAlone(t: string) { Lex(t).Some? || Unquoted(t) }

  /** Such text is read on its own if it can be read at all, and otherwise spoils
      whatever follows. */
  lemma {:induction false} LexPasted(t: string, rest: string)
    requires StandsAlone(t) && Delimited(rest)
    ensures ReadsAs(Lex(t + rest), Lex(t), Lex(rest))
    decreases |t|
  {
    hide NextToken;
    if t == "" {
      assert t + rest == rest;
      PrependNothing(Lex(rest));
    } else {
      if IsQuote(t[0]) {
        NextOfPastedString(t, rest);
      } else {
        NextOfPasted(t, rest);
      }
      if NextToken(t).Some? {
        var (ts, left) := NextToken(t).value;
        LexPasted(left, rest);
        if Lex(left).Some? {
          PrependTwice(ts, Lex(left).value, Lex(rest));
        } else {
          SpoiledAfter(ts, Lex(left + rest));
        }
      } else if NextToken(t + rest).Some? {
        ForeignName(NextToken(t + rest).value.0, Lex(NextToken(t + rest).value.1));
      }
    }
  }

  lemma ForeignName(ts: seq<Token>, r: Option<seq<Token>>)
    requires |ts| == 1 && ts[0].Ident? && (',' in ts[0].name || ')' in ts[0].name)
    ensures Spoiled(Prepend(ts, r))
  {
    if r.Some? {
      assert (ts + r.value)[0] == ts[0];
    }
  }

  predicate NoQuoted(ts: seq<Token>) { forall i :: 0 <= i < |ts| ==> !ts[i].Quoted? }

  lemma {:induction false} UnquotedHasNoStrings(t: string)
    requires Unquoted(t) && Lex(t).Some?
    ensures NoQuoted(Lex(t).value)
    decreases |t|
  {
    if t != "" {
      UnquotedHasNoStrings(NextToken(t).value.1);
    }
  }

  /** What is read is exactly the tokens of the expression. */
  lemma {:induction false} ParseConsumesTokens(ts: seq<Token>)
    requires ParseExpr(ts).Some?
    ensures ts == Tokens(ParseExpr(ts).value.0) + ParseExpr(ts).value.1
    decreases |ts|, 0
  {
    if ts[0].Ident? && |ts| > 1 && ts[1].LParen? {
      if |ts| > 2 && ts[2].RParen? {
        assert ts == [ts[0], ts[1], ts[2]] + ts[3..];
      } else {
        ParseArgsConsumesTokens(ts[2..]);
        var (args, rest) := ParseArgs(ts[2..]).value;
        CallTokens(ts, args, rest);
      }
    } else {
      assert ts == [ts[0]] + ts[1..];
    }
  }

  lemma CallTokens(ts: seq<Token>, args: seq<Expr>, rest: seq<Token>)
    requires |ts| > 2 && ts[0].Ident? && ts[1].LParen? && rest != [] && rest[0].RParen? && args != []
    requires ts[2..] == Tokens(args[0]) + TokensTail(args[1..]) + rest
    ensures ts == Tokens(Call(ts[0].name, args)) + rest[1..]
  {
    var head, tail, last := Tokens(args[0]), TokensTail(args[1..]), rest[1..];
    var open, close := [Ident(ts[0].name), LParen], [RParen];
    assert ts == open + ts[2..];
    assert rest == close + last;
    assert head + tail + (close + last) == (head + (tail + close)) + last;
    assert open + ((head + (tail + close)) + last) == (open + (head + (tail + close))) + last;
  }

  lemma {:induction false} ParseArgsConsumesTokens(ts: seq<Token>)
    requires ParseArgs(ts).Some?
    ensures var (es, rest) := ParseArgs(ts).value;
      es != [] && ts == Tokens(es[0]) + TokensTail(es[1..]) + rest
    decreases |ts|, 1
  {
    hide Tokens;
    ParseConsumesTokens(ts);
    var (e, rest) := ParseExpr(ts).value;
    if rest != [] && rest[0].Comma? {
      ParseArgsConsumesTokens(rest[1..]);
      var (es, rest') := ParseArgs(rest[1..]).value;
      assert rest == [Comma] + rest[1..];
      assert ([e] + es)[1..] == es;
    } else {
      assert [e][1..] == [];
    }
  }

  /** Whatever text is read, its tokens are those of the expression read. */
  lemma ParseMeansTokens(s: string)
    requires Parse(s).Some?
    ensures Lex(s) == Some(Tokens(Parse(s).value))
  {
    ParseConsumesTokens(Lex(s).value);
    assert Tokens(Parse(s).value) + [] == Tokens(Parse(s).value);
  }

  lemma ParseByTokens(s: string, e: Expr)
    requires Lex(s) == Some(Tokens(e))
    ensures Parse(s) == Some(e)
  {
    ParseTokens(e, []);
    assert Tokens(e) + [] == Tokens(e);
  }

  // ----- any string can be written with escapes

  function EscapedChar(c: char): string { if IsPlain(c) then [c] else ['\\', c] }

  function Escaped(s: string): string { if s == "" then "" else EscapedChar(s[0]) + Escaped(s[1..]) }

  lemma ReadOfEscapedChar(c: char, more: string)
    ensures Read(EscapedChar(c) + more, InString) == Before(c, Read(more, InString))
  {
    if IsPlain(c) {
      assert ([c] + more)[1..] == more;
    } else {
      assert (['\\', c] + more)[2..] == more;
    }
  }

  lemma {:induction false} ReadOfEscaped(s: string, close: string)
    requires close != "" && close[0] == '\''
    ensures Read(Escaped(s) + close, InString) == Some((s, close))
  {
    if s == "" {
      assert Escaped(s) + close == close;
    } else {
      ReadOfEscaped(s[1..], close);
      ReadOfEscapedStep(s, Escaped(s[1..]), close);
    }
  }

  lemma ReadOfEscapedStep(s: string, tail: string, close: string)
    requires s != "" && tail == Escaped(s[1..]) && Read(tail + close, InString) == Some((s[1..], close))
    ensures Read(Escaped(s) + close, InString) == Some((s, close))
  {
    hide Read;
    hide EscapedChar;
    var head := EscapedChar(s[0]);
    assert (head + tail) + close == head + (tail + close);
    ReadOfEscapedChar(s[0], tail + close);
    assert [s[0]] + s[1..] == s;
  }

  /** So a quoted string may hold anything, quotes included. */
  lemma LexEscaped(s: string, rest: string)
    ensures Lex("'" + Escaped(s) + "'" + rest) == Prepend([Quoted(s)], Lex(rest))
  {
    hide Read;
    hide Lex;
    ReadOfEscaped(s, "'" + rest);
    LexString(Escaped(s), s, rest);
  }
}
