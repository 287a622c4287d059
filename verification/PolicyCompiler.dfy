/** The compiler in the form it is written in: loops that grow a text, and a
    context object whose counter and identity table the second pass updates in
    place. Every method is proved equal to its function in PolicyDsl. */
module PolicyCompiler {
  import opened Wrappers
  import opened PolicyText
  import Dsl = PolicyDsl
  import opened PolicyDsl

  method OutOf(args: seq<Value>) returns (r: Result<Value, PolicyError>)
    ensures r == Dsl.OutOf(args)
  {
    var toret := "outof(";
    if |args| < 2 {
      return Failure(TooFewArguments(|args|));
    }
    match args[0] {
      case VFloat(n) => toret := toret + Itoa(n);
      case VInt(n) => toret := toret + Itoa(n);
      case VString(n) => toret := toret + n;
      case _ => return Failure(UnexpectedType);
    }
    r := AppendArguments(toret, args[1..], false);
  }

  method FirstPass(args: seq<Value>) returns (r: Result<Value, PolicyError>)
    ensures r == Dsl.FirstPass(args)
  {
    r := AppendArguments("outof(ID", args, true);
  }

  /** The loop both text passes end with. */
  method AppendArguments(head: string, args: seq<Value>, numbers: bool) returns (r: Result<Value, PolicyError>)
    ensures r == Wrap(head, Render(args, numbers))
  {
    hide RenderOne;
    hide After;
    var toret := head;
    ghost var done := "";
    var i := 0;
    AfterNothing(Render(args, numbers));
    assert args[0..] == args;
    while i < |args|
      invariant 0 <= i <= |args|
      invariant toret == head + done
      invariant After(done, Render(args[i..], numbers)) == Render(args, numbers)
    {
      assert args[i..][1..] == args[i + 1..];
      var piece := RenderOne(args[i], numbers);
      if piece.Failure? {
        AfterFailure(done, Render(args[i..], numbers));
        return Failure(piece.error);
      }
      AfterTwice(done, piece.value, Render(args[i + 1..], numbers));
      toret, done := toret + piece.value, done + piece.value;
      i := i + 1;
    }
    AfterSuccess(done, "");
    assert done + "" == done;
    return Success(VString(toret + ")"));
  }

  lemma AfterSuccess(done: string, text: string)
    ensures After(done, Success(text)) == Success(done + text)
  {
  }

  lemma AfterFailure(done: string, r: Result<string, PolicyError>)
    ensures r.Failure? ==> After(done, r) == r
  {
  }

  lemma AfterNothing(r: Result<string, PolicyError>)
    ensures After("", r) == r
  {
    if r.Success? {
      assert "" + r.value == r.value;
    }
  }

  lemma AfterTwice(a: string, b: string, r: Result<string, PolicyError>)
    ensures After(a, After(b, r)) == After(a + b, r)
  {
    if r.Success? {
      assert a + (b + r.value) == (a + b) + r.value;
    }
  }

  method Apply(pass: Pass, fn: string, args: seq<Value>) returns (r: Result<Value, PolicyError>)
    ensures r == Dsl.Apply(pass, fn, args)
  {
    match pass {
      case Translate =>
        if fn in AND_NAMES {
          r := OutOf([VInt(|args|)] + args);
        } else if fn in OR_NAMES {
          r := OutOf([VInt(1)] + args);
        } else if fn in OUTOF_NAMES {
          r := OutOf(args);
        } else {
          r := Failure(UnknownFunction(fn));
        }
      case AddContext =>
        if fn == "outof" {
          r := FirstPass(args);
        } else {
          r := Failure(UnknownFunction(fn));
        }
    }
  }

  method Evaluate(pass: Pass, e: Expr) returns (r: Result<Value, PolicyError>)
    ensures r == Eval(pass, e)
    decreases e, 0
  {
    match e {
      case Num(n) => r := Success(VFloat(n));
      case Str(s) => r := Success(VString(s));
      case Var(v) => r := Failure(NoParameter(v));
      case Call(fn, args) =>
        var vs := EvaluateArgs(pass, args);
        match vs {
          case Failure(err) => r := Failure(err);
          case Success(values) => r := Apply(pass, fn, values);
        }
    }
  }

  method EvaluateArgs(pass: Pass, es: seq<Expr>) returns (r: Result<seq<Value>, PolicyError>)
    ensures r == EvalArgs(pass, es)
    decreases es, 0
  {
    if es == [] {
      return Success([]);
    }
    var v := Evaluate(pass, es[0]);
    if v.Failure? {
      return Failure(v.error);
    }
    var vs := EvaluateArgs(pass, es[1..]);
    match vs {
      case Failure(err) => r := Failure(err);
      case Success(values) => r := Success([v.value] + values);
    }
  }

  /** The object that policy text refers to as ID. */
  class Context {
    var IDNum: nat
    var principals: seq<Principal>

    ghost predicate Valid()
      reads this
    {
      IDNum == |principals|
    }

    constructor ()
      ensures Valid() && principals == []
    {
      IDNum := 0;
      principals := [];
    }

    method SecondPass(args: seq<Value>) returns (r: Result<Value, PolicyError>)
      requires Valid()
      modifies this
      ensures Valid()
      ensures (r, principals) == Dsl.SecondPass(args, old(principals))
    {
      if |args| < 3 {
        return Failure(TooFewArguments(|args|));
      }
      if !args[0].VContext? {
        return Failure(NotAContext);
      }
      if !args[1].VFloat? {
        return Failure(NotANumber);
      }
      var t := args[1].n;
      var n := |args| - 2;
      if t > n + 1 {
        return Failure(BadThreshold(t, n));
      }
      var policies: seq<Rule> := [];
      var rest := args[2..];
      var i := 0;
      PushNothing(Build(rest, principals));
      assert rest[0..] == rest;
      while i < |rest|
        invariant 0 <= i <= |rest|
        invariant Valid()
        invariant PushAll(policies, Build(rest[i..], principals)) == Build(rest, old(principals))
      {
        assert rest[i..][1..] == rest[i + 1..];
        match rest[i] {
          case VString(text) =>
            var subm := Submatch(text);
            if subm.None? {
              return Failure(BadPrincipal(text));
            }
            PushOne(policies, SignedBy(IDNum), Build(rest[i + 1..], principals + [subm.value]));
            principals := principals + [subm.value];
            policies := policies + [SignedBy(IDNum)];
            IDNum := IDNum + 1;
          case VPolicy(p) =>
            PushOne(policies, p, Build(rest[i + 1..], principals));
            policies := policies + [p];
          case _ =>
            return Failure(UnexpectedType);
        }
        i := i + 1;
      }
      assert policies + [] == policies;
      return Success(VPolicy(NOutOf(t, policies)));
    }

    method Evaluate(e: Expr) returns (r: Result<Value, PolicyError>)
      requires Valid()
      modifies this
      ensures Valid()
      ensures (r, principals) == Allocate(e, old(principals))
      decreases e, 0
    {
      match e {
        case Num(n) => r := Success(VFloat(n));
        case Str(s) => r := Success(VString(s));
        case Var(v) => r := if v == "ID" then Success(VContext) else Failure(NoParameter(v));
        case Call(fn, args) =>
          var vs := EvaluateArgs(args);
          match vs {
            case Failure(err) => r := Failure(err);
            case Success(values) =>
              if fn == "outof" {
                r := SecondPass(values);
              } else {
                r := Failure(UnknownFunction(fn));
              }
          }
      }
    }

    method EvaluateArgs(es: seq<Expr>) returns (r: Result<seq<Value>, PolicyError>)
      requires Valid()
      modifies this
      ensures Valid()
      ensures (r, principals) == AllocateArgs(es, old(principals))
      decreases es, 0
    {
      if es == [] {
        return Success([]);
      }
      var v := Evaluate(es[0]);
      if v.Failure? {
        return Failure(v.error);
      }
      var vs := EvaluateArgs(es[1..]);
      match vs {
        case Failure(err) => r := Failure(err);
        case Success(values) => r := Success([v.value] + values);
      }
    }
  }

  function PushAll(rs: seq<Rule>, rest: (Result<seq<Rule>, PolicyError>, seq<Principal>))
    : (Result<seq<Rule>, PolicyError>, seq<Principal>)
  {
    match rest.0
    case Failure(e) => (Failure(e), rest.1)
    case Success(more) => (Success(rs + more), rest.1)
  }

  lemma PushNothing(rest: (Result<seq<Rule>, PolicyError>, seq<Principal>))
    ensures PushAll([], rest) == rest
  {
    if rest.0.Success? {
      assert [] + rest.0.value == rest.0.value;
    }
  }

  lemma PushOne(rs: seq<Rule>, r: Rule, rest: (Result<seq<Rule>, PolicyError>, seq<Principal>))
    ensures PushAll(rs, PushRule(r, rest)) == PushAll(rs + [r], rest)
  {
    if rest.0.Success? {
      assert rs + ([r] + rest.0.value) == (rs + [r]) + rest.0.value;
    }
  }

  method FromString(policy: string) returns (r: Result<Envelope, PolicyError>)
    ensures r == Dsl.FromString(policy)
  {
    var intermediate := Parse(policy);
    if intermediate.None? {
      return Failure(Syntax(policy));
    }
    var res := Evaluate(Translate, intermediate.value);
    if res.Failure? {
      return Failure(res.error);
    }
    if !res.value.VString? {
      return Failure(InvalidPolicy);
    }
    var resStr := res.value.s;

    var exp := Parse(resStr);
    if exp.None? {
      return Failure(Syntax(resStr));
    }
    res := Evaluate(AddContext, exp.value);
    if res.Failure? {
      return Failure(res.error);
    }
    if !res.value.VString? {
      return Failure(InvalidPolicy);
    }
    resStr := res.value.s;

    var ctx := new Context();
    exp := Parse(resStr);
    if exp.None? {
      return Failure(Syntax(resStr));
    }
    res := ctx.Evaluate(exp.value);
    if res.Failure? {
      return Failure(res.error);
    }
    if !res.value.VPolicy? {
      return Failure(InvalidPolicy);
    }
    return Success(Envelope(ctx.principals, res.value.rule));
  }
}
