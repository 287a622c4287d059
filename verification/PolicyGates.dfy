/** The policy language as its users read it: gates over principals, when a gate
    holds, and which gates the compiler is to accept. */
module PolicyGates {
  import opened Wrappers
  import opened PolicyText
  import opened PolicyDsl

  datatype Gate =
    | Leaf(p: Principal)
    | AllOf(kids: seq<Gate>)
    | AnyOf(kids: seq<Gate>)
    | AtLeast(n: nat, kids: seq<Gate>)

  /** The gate a parsed policy denotes; None when it is not a gate expression. */
  function ToGate(e: Expr): Option<Gate>
    decreases e, 0
  {
    match e
    case Str(s) =>
      (match Submatch(s)
       case None => None
       case Some(p) => Some(Leaf(p)))
    case Call(fn, args) =>
      if fn in AND_NAMES then
        match ToGates(args) { case None => None case Some(gs) => Some(AllOf(gs)) }
      else if fn in OR_NAMES then
        match ToGates(args) { case None => None case Some(gs) => Some(AnyOf(gs)) }
      else if fn in OUTOF_NAMES && args != [] && Numeral(args[0]).Some? then
        match ToGates(args[1..]) { case None => None case Some(gs) => Some(AtLeast(Numeral(args[0]).value, gs)) }
      else None
    case _ => None
  }

  function ToGates(es: seq<Expr>): (r: Option<seq<Gate>>)
    ensures r.Some? ==> |r.value| == |es|
    decreases es, 0
  {
    if es == [] then Some([])
    else
      match (ToGate(es[0]), ToGates(es[1..]))
      case (Some(g), Some(gs)) => Some([g] + gs)
      case _ => None
  }

  /** A threshold is a number, or a quoted text that the next pass reads as one:
      blanks and leading zeros are allowed. */
  function Numeral(e: Expr): Option<nat> {
    match e
    case Num(n) => Some(n)
    case Str(s) =>
      (match Lex(s)
       case Some(ts) => if |ts| == 1 && ts[0].Number? then Some(ts[0].value) else None
       case None => None)
    case _ => None
  }

  predicate Holds(g: Gate, sat: set<Principal>)
    decreases g, 0
  {
    match g
    case Leaf(p) => p in sat
    case AllOf(kids) => forall k :: k in kids ==> Holds(k, sat)
    case AnyOf(kids) => exists k :: k in kids && Holds(k, sat)
    case AtLeast(n, kids) => CountHolding(kids, sat) >= n
  }

  function CountHolding(gs: seq<Gate>, sat: set<Principal>): nat
    decreases gs, 0
  {
    if gs == [] then 0 else (if Holds(gs[0], sat) then 1 else 0) + CountHolding(gs[1..], sat)
  }

  /** Which gate expressions the compiler must accept. */
  predicate Valid(g: Gate) { !g.Leaf? && Inhabited(g) && ThresholdsFit(g) }

  predicate Inhabited(g: Gate)
    decreases g, 0
  {
    g.Leaf? || (g.kids != [] && InhabitedAll(g.kids))
  }

  predicate InhabitedAll(gs: seq<Gate>)
    decreases gs, 0
  {
    gs != [] ==> Inhabited(gs[0]) && InhabitedAll(gs[1..])
  }

  predicate ThresholdsFit(g: Gate)
    decreases g, 0
  {
    g.Leaf? || (Threshold(g) <= |g.kids| + 1 && ThresholdsFitAll(g.kids))
  }

  predicate ThresholdsFitAll(gs: seq<Gate>)
    decreases gs, 0
  {
    gs != [] ==> ThresholdsFit(gs[0]) && ThresholdsFitAll(gs[1..])
  }

  function Threshold(g: Gate): nat
    requires !g.Leaf?
  {
    match g
    case AllOf(kids) => |kids|
    case AnyOf(_) => 1
    case AtLeast(n, _) => n
  }

  lemma {:induction false} CountBounds(gs: seq<Gate>, sat: set<Principal>)
    ensures CountHolding(gs, sat) >= |gs| <==> forall g :: g in gs ==> Holds(g, sat)
    ensures CountHolding(gs, sat) >= 1 <==> exists g :: g in gs && Holds(g, sat)
    ensures CountHolding(gs, sat) <= |gs|
  {
    if gs != [] {
      var rest := gs[1..];
      CountBounds(rest, sat);
      assert gs[0] in gs && forall g :: g in rest ==> g in gs;
      assert forall g :: g in gs ==> g == gs[0] || g in rest;
    }
  }

  // ----- when a gate can hold at all

  /** More signatures never make a gate fail. */
  lemma {:induction false} HoldsIsMonotone(g: Gate, sat: set<Principal>, more: set<Principal>)
    requires sat <= more && Holds(g, sat)
    ensures Holds(g, more)
    decreases g, 0
  {
    if !g.Leaf? {
      CountIsMonotone(g.kids, sat, more);
      CountBounds(g.kids, sat);
      CountBounds(g.kids, more);
    }
  }

  lemma {:induction false} CountIsMonotone(gs: seq<Gate>, sat: set<Principal>, more: set<Principal>)
    requires sat <= more
    ensures CountHolding(gs, sat) <= CountHolding(gs, more)
    decreases gs, 0
  {
    if gs != [] {
      if Holds(gs[0], sat) {
        HoldsIsMonotone(gs[0], sat, more);
      }
      CountIsMonotone(gs[1..], sat, more);
    }
  }

  function PrincipalsOf(g: Gate): set<Principal>
    decreases g, 0
  {
    if g.Leaf? then {g.p} else PrincipalsOfAll(g.kids)
  }

  function PrincipalsOfAll(gs: seq<Gate>): set<Principal>
    decreases gs, 0
  {
    if gs == [] then {} else PrincipalsOf(gs[0]) + PrincipalsOfAll(gs[1..])
  }

  /** Whether every gate that is needed asks for no more than can hold in it. */
  predicate CanHold(g: Gate)
    decreases g, 0
  {
    g.Leaf? || CountPossible(g.kids) >= Threshold(g)
  }

  function CountPossible(gs: seq<Gate>): (n: nat)
    ensures n <= |gs|
    decreases gs, 0
  {
    if gs == [] then 0 else (if CanHold(gs[0]) then 1 else 0) + CountPossible(gs[1..])
  }

  lemma {:induction false} HoldsOnlyIfItCan(g: Gate, sat: set<Principal>)
    requires Holds(g, sat)
    ensures CanHold(g)
    decreases g, 0
  {
    if !g.Leaf? {
      CountBounds(g.kids, sat);
      CountOnlyPossible(g.kids, sat);
    }
  }

  lemma {:induction false} CountOnlyPossible(gs: seq<Gate>, sat: set<Principal>)
    ensures CountHolding(gs, sat) <= CountPossible(gs)
    decreases gs, 0
  {
    if gs != [] {
      if Holds(gs[0], sat) {
        HoldsOnlyIfItCan(gs[0], sat);
      }
      CountOnlyPossible(gs[1..], sat);
    }
  }

  lemma {:induction false} HoldsWhenAllSign(g: Gate, sat: set<Principal>)
    requires CanHold(g) && PrincipalsOf(g) <= sat
    ensures Holds(g, sat)
    decreases g, 0
  {
    if !g.Leaf? {
      CountWhenAllSign(g.kids, sat);
      CountBounds(g.kids, sat);
    }
  }

  lemma {:induction false} CountWhenAllSign(gs: seq<Gate>, sat: set<Principal>)
    requires PrincipalsOfAll(gs) <= sat
    ensures CountPossible(gs) <= CountHolding(gs, sat)
    decreases gs, 0
  {
    if gs != [] {
      if CanHold(gs[0]) {
        HoldsWhenAllSign(gs[0], sat);
      }
      CountWhenAllSign(gs[1..], sat);
    }
  }

  /** A threshold of one more than the operands, which the compiler lets through,
      makes a gate that no set of principals satisfies. */
  lemma OverfullNeverHolds(kids: seq<Gate>, sat: set<Principal>)
    ensures !Holds(AtLeast(|kids| + 1, kids), sat)
  {
    CountBounds(kids, sat);
  }
}
