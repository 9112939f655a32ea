/**
  The rewriting of XPath expressions by `optimize_self` in xml/pugixml.cpp, and why it leaves their values
  unchanged.  Operators and functions other than the rewritten ones are any functions of the context node and
  of their arguments' values.
*/
module XPathOptimizer {
  import opened Dom
  import opened DocumentOrder
  import opened XPathAxes

  datatype Type = NumberType | StringType | BooleanType | NodesType

  /** Attributes count by their values. */
  datatype Value = Number(n: real) | String(s: string) | Boolean(b: bool) | Nodes(nodes: set<nat>) | Attributes(values: set<string>)

  datatype Test = AnyNode | Passing(nodes: set<nat>)

  /** `predicate_t`: how a predicate is evaluated. */
  datatype Kind = Default | Posinv | Constant | ConstantOne

  datatype Expr =
    | Position
    | Last
    | Literal(v: Value)
    | Variable(ty: Type, id: nat)
    | Call(f: nat, result: Type, arguments: Args)
    | Equal(left: Expr, right: Expr)
    | Union(left: Expr, right: Expr)
    | Root
    | Step(from: From, axis: Axis, test: Test, preds: Preds)
    | Filter(left: Expr, pred: Expr, kind: Kind)
    | AttributeStep(name: string)
    | CompareAttribute(name: string, right: Expr)

  datatype From = Here | Behind(e: Expr)

  datatype Args = NoArg | Arg(e: Expr, next: Args)

  datatype Preds = NoPred | Pred(e: Expr, kind: Kind, next: Preds)

  datatype Attr = Attr(name: string, value: string)

  /** A tree, the attributes of its nodes that XPath sees, variables, and the meaning of operators and functions. */
  datatype World = World(ns: Arena, t: Forest, attributes: seq<seq<Attr>>, variables: imap<nat, Value>,
                         functions: imap<(nat, nat, seq<Value>), Value>)

  ghost predicate Good(w: World) {
    IsTree(w.ns, w.t)
  }

  // ----- types -----

  function TypeOfValue(v: Value): Type {
    match v
    case Number(_) => NumberType
    case String(_) => StringType
    case Boolean(_) => BooleanType
    case _ => NodesType
  }

  /** `_rettype`. */
  function TypeOf(e: Expr): Type {
    match e
    case Position | Last => NumberType
    case Literal(v) => TypeOfValue(v)
    case Variable(ty, _) => ty
    case Call(_, ty, _) => ty
    case Equal(_, _) | CompareAttribute(_, _) => BooleanType
    case _ => NodesType
  }

  predicate IsNodeSet(e: Expr) {
    TypeOf(e) == NodesType && !e.AttributeStep?
  }

  /** What the expression parser lets through: paths start from node-sets, and so do filters and unions. */
  predicate Typed(e: Expr) {
    match e
    case Literal(v) => v.Number? || v.String?
    case Call(_, ty, arguments) => ty != NodesType && TypedArgs(arguments)
    case Equal(l, r) => Typed(l) && Typed(r)
    case Union(l, r) => Typed(l) && Typed(r) && IsNodeSet(l) && IsNodeSet(r)
    case Step(from, _, _, preds) => (from.Behind? ==> Typed(from.e) && IsNodeSet(from.e)) && TypedPreds(preds)
    case Filter(l, p, _) => Typed(l) && IsNodeSet(l) && Typed(p)
    case CompareAttribute(_, r) => Typed(r) && TypeOf(r) == StringType
    case _ => true
  }

  predicate TypedArgs(a: Args) {
    a.Arg? ==> Typed(a.e) && TypedArgs(a.next)
  }

  predicate TypedPreds(p: Preds) {
    p.Pred? ==> Typed(p.e) && TypedPreds(p.next)
  }

  // ----- values -----

  /** A value of the wanted type. */
  function Coerce(v: Value, ty: Type): (r: Value)
    ensures TypeOfValue(r) == ty
  {
    if TypeOfValue(v) == ty && !v.Attributes? then v
    else match ty
      case NumberType => Number(0.0)
      case StringType => String("")
      case BooleanType => Boolean(false)
      case NodesType => Nodes({})
  }

  /** `eval_boolean` of a value. */
  function Truth(v: Value): bool {
    match v
    case Number(n) => n != 0.0
    case String(s) => s != ""
    case Boolean(b) => b
    case Nodes(nodes) => nodes != {}
    case Attributes(values) => values != {}
  }

  ghost function Apply(w: World, f: nat, n: nat, values: seq<Value>): Value {
    if (f, n, values) in w.functions then w.functions[(f, n, values)] else Boolean(false)
  }

  /** The number of the function that compares values otherwise. */
  const EQUALS: nat := 0

  /** `compare_eq` of two numbers, and of attributes and a string; of other values as the world has it. */
  ghost function Compare(w: World, n: nat, l: Value, r: Value): bool {
    if l.Number? && r.Number? then l.n == r.n
    else if l.Attributes? && r.String? then r.s in l.values
    else Truth(Apply(w, EQUALS, n, [l, r]))
  }

  /** The nodes that a step leads to from one node, in the order of the axis. */
  ghost function StepList(w: World, axis: Axis, test: Test, c: nat): seq<nat>
    requires Good(w)
  {
    if c in Ids(w.t) && c < |w.ns| then Selected(StepQuery(w, axis, test, c, false)) else []
  }

  ghost function StepQuery(w: World, axis: Axis, test: Test, c: nat, once: bool): Query {
    Query(w.ns, w.t, axis, c, if test.AnyNode? then Ids(w.t) else test.nodes, once)
  }

  /** What `step_do` fetches: the first node is enough if the only predicate is `[1]`. */
  ghost function Fetched(w: World, axis: Axis, test: Test, preds: Preds, c: nat): seq<nat>
    requires Good(w)
  {
    if OnlyFirst(preds) && c in Ids(w.t) && c < |w.ns| then Selected(StepQuery(w, axis, test, c, true)) else StepList(w, axis, test, c)
  }

  predicate OnlyFirst(preds: Preds) {
    preds.Pred? && preds.next.NoPred? && preds.kind.ConstantOne?
  }

  /** `step_fill` of the attribute axis with a name test: with `once`, the first attribute of that name. */
  function FirstNamed(a: seq<Attr>, name: string): set<string> {
    if a == [] then {} else if a[0].name == name then {a[0].value} else FirstNamed(a[1..], name)
  }

  /** `xml_node::attribute`. */
  function HasValue(a: seq<Attr>, name: string, value: string): bool {
    if a == [] then false else if a[0].name == name then a[0].value == value else HasValue(a[1..], name, value)
  }

  function AttributesOf(w: World, n: nat): seq<Attr> {
    if n < |w.attributes| then w.attributes[n] else []
  }

  /** The value of an expression at a context node, as number `i` of `k` nodes. */
  ghost function Eval(w: World, e: Expr, n: nat, i: nat, k: nat): Value
    requires Good(w)
    decreases e, 0
  {
    match e
    case Position => Number(i as real)
    case Last => Number(k as real)
    case Literal(v) => v
    case Variable(ty, id) => Coerce(if id in w.variables then w.variables[id] else Boolean(false), ty)
    case Call(f, ty, arguments) => Coerce(Apply(w, f, n, EvalArgs(w, arguments, n, i, k)), ty)
    case Equal(l, r) => Boolean(Compare(w, n, Eval(w, l, n, i, k), Eval(w, r, n, i, k)))
    case Union(l, r) => Nodes(NodesOf(Eval(w, l, n, i, k)) + NodesOf(Eval(w, r, n, i, k)))
    case Root => Nodes({w.t.id})
    case Step(from, axis, test, preds) =>
      var contexts := if from.Here? then {n} else NodesOf(Eval(w, from.e, n, i, k));
      Nodes(set c, x | c in contexts && x in ApplyAll(w, Fetched(w, axis, test, preds, c), preds) :: x)
    case Filter(l, p, kind) =>
      Nodes(AsSet(ApplyPred(w, InOrder(w, NodesOf(Eval(w, l, n, i, k))), p, kind)))
    case AttributeStep(name) => Attributes(FirstNamed(AttributesOf(w, n), name))
    case CompareAttribute(name, r) =>
      var v := Eval(w, r, n, i, k);
      Boolean(v.String? && HasValue(AttributesOf(w, n), name, v.s))
  }

  ghost function EvalArgs(w: World, a: Args, n: nat, i: nat, k: nat): seq<Value>
    requires Good(w)
    decreases a, 0
  {
    if a.NoArg? then [] else [Eval(w, a.e, n, i, k)] + EvalArgs(w, a.next, n, i, k)
  }

  function NodesOf(v: Value): set<nat> {
    if v.Nodes? then v.nodes else {}
  }

  ghost function AsSet(l: seq<nat>): set<nat> {
    set x | x in l
  }

  /** A node-set sorted into document order. */
  ghost function InOrder(w: World, nodes: set<nat>): seq<nat> {
    Forward(Preorder(w.t), |Preorder(w.t)|, nodes)
  }

  /** `apply_predicates`. */
  ghost function ApplyAll(w: World, l: seq<nat>, preds: Preds): seq<nat>
    requires Good(w)
    decreases preds, 0
  {
    if preds.NoPred? then l else ApplyAll(w, ApplyPred(w, l, preds.e, preds.kind), preds.next)
  }

  /** `apply_predicate`, by the kind that the predicate was given. */
  ghost function ApplyPred(w: World, l: seq<nat>, e: Expr, kind: Kind): seq<nat>
    requires Good(w)
    decreases e, |l| + 2
  {
    if kind.Constant? || kind.ConstantOne? then
      var v := Eval(w, e, 0, 1, |l|);
      Pick(l, if v.Number? then v.n else 0.0)
    else Keep(w, l, e, 0)
  }

  /** `apply_predicate_number_const`. */
  ghost function Pick(l: seq<nat>, n: real): seq<nat> {
    if exists i: nat :: i < |l| && IsPlace(i, n) then
      var i: nat :| i < |l| && IsPlace(i, n);
      [l[i]]
    else []
  }

  predicate IsPlace(i: nat, n: real) {
    (i + 1) as real == n
  }

  /** `apply_predicate_number` and `apply_predicate_boolean`: node number `j + 1` and those behind it. */
  ghost function Keep(w: World, l: seq<nat>, e: Expr, j: nat): seq<nat>
    requires Good(w) && j <= |l|
    decreases e, |l| - j + 1
  {
    if j == |l| then []
    else (if Holds(w, e, l[j], j + 1, |l|) then [l[j]] else []) + Keep(w, l, e, j + 1)
  }

  /** Whether a predicate holds of a node: a number means a position. */
  ghost predicate Holds(w: World, e: Expr, x: nat, i: nat, k: nat)
    requires Good(w)
    decreases e, 1
  {
    var v := Eval(w, e, x, i, k);
    if TypeOf(e) == NumberType then v == Number(i as real) else Truth(v)
  }

  // ----- what values are, by section 3 of XPath 1.0 -----

  /** A predicate keeps the nodes of which it holds, each at its place in the list. */
  lemma {:induction false} PredicateSelects(w: World, l: seq<nat>, e: Expr, j: nat, x: nat)
    requires Good(w) && j <= |l|
    ensures x in Keep(w, l, e, j) <==> exists i: nat :: j <= i < |l| && l[i] == x && Holds(w, e, x, i + 1, |l|)
    decreases |l| - j
  {
    hide Good, Holds;
    if j < |l| {
      PredicateSelects(w, l, e, j + 1, x);
      if l[j] == x && Holds(w, e, x, j + 1, |l|) {
        assert j <= j < |l| && l[j] == x && Holds(w, e, x, j + 1, |l|);
      }
    }
  }

  /** It holds of a node if its number is the position, or if it is true. */
  lemma PredicateHolds(w: World, e: Expr, x: nat, i: nat, k: nat)
    requires Good(w)
    ensures TypeOf(e) == NumberType ==> (Holds(w, e, x, i, k) <==> Eval(w, e, x, i, k) == Number(i as real))
    ensures TypeOf(e) != NumberType ==> (Holds(w, e, x, i, k) <==> Truth(Eval(w, e, x, i, k)))
  {
    hide Good, Eval;
  }

  /** Truth: of a number if it is not zero, of a string or a set if it is not empty. */
  lemma TruthIs(v: Value)
    ensures v.Number? ==> (Truth(v) <==> v.n < 0.0 || v.n > 0.0)
    ensures v.String? ==> (Truth(v) <==> |v.s| > 0)
    ensures v.Boolean? ==> (Truth(v) <==> v.b)
    ensures v.Nodes? ==> (Truth(v) <==> exists x: nat :: x in v.nodes)
    ensures v.Attributes? ==> (Truth(v) <==> exists x: string :: x in v.values)
  {
  }

  /** The union of node-sets; equality of numbers, and of an attribute and a string. */
  lemma OperatorsAre(w: World, l: Expr, r: Expr, n: nat, i: nat, k: nat)
    requires Good(w)
    ensures forall x: nat :: x in NodesOf(Eval(w, Union(l, r), n, i, k)) <==>
              x in NodesOf(Eval(w, l, n, i, k)) || x in NodesOf(Eval(w, r, n, i, k))
    ensures Eval(w, l, n, i, k).Number? && Eval(w, r, n, i, k).Number? ==>
              Eval(w, Equal(l, r), n, i, k) == Boolean(Eval(w, l, n, i, k) == Eval(w, r, n, i, k))
    ensures Eval(w, l, n, i, k).Attributes? && Eval(w, r, n, i, k).String? ==>
              Eval(w, Equal(l, r), n, i, k) == Boolean(Eval(w, r, n, i, k).s in Eval(w, l, n, i, k).values)
  {
    hide Good, Apply;
  }

  /** A filter selects, of the nodes of its expression in document order, those of which its predicate holds. */
  lemma FilterIs(w: World, l: Expr, p: Expr, n: nat, i: nat, k: nat, x: nat)
    requires Good(w)
    ensures var nodes := InOrder(w, NodesOf(Eval(w, l, n, i, k)));
            x in NodesOf(Eval(w, Filter(l, p, Default), n, i, k)) <==>
              exists j: nat :: j < |nodes| && nodes[j] == x && Holds(w, p, x, j + 1, |nodes|)
  {
    hide Good, Holds, InOrder, Keep;
    var nodes := InOrder(w, NodesOf(Eval(w, l, n, i, k)));
    FilterKeeps(w, l, p, n, i, k, nodes, x);
    hide Eval;
    PredicateSelects(w, nodes, p, 0, x);
  }

  lemma FilterKeeps(w: World, l: Expr, p: Expr, n: nat, i: nat, k: nat, nodes: seq<nat>, x: nat)
    requires Good(w) && nodes == InOrder(w, NodesOf(Eval(w, l, n, i, k)))
    ensures x in NodesOf(Eval(w, Filter(l, p, Default), n, i, k)) <==> x in Keep(w, nodes, p, 0)
  {
    hide Good, Holds, InOrder, Keep;
  }

  /** The predicates `[position()]` and `[last()]` keep every node, and the last one. */
  lemma PositionAndLast(w: World, l: Expr, n: nat, i: nat, k: nat, x: nat)
    requires Good(w)
    ensures var nodes := InOrder(w, NodesOf(Eval(w, l, n, i, k)));
            && (x in NodesOf(Eval(w, Filter(l, Position, Default), n, i, k)) <==> x in nodes)
            && (x in NodesOf(Eval(w, Filter(l, Last, Default), n, i, k)) <==> nodes != [] && x == nodes[|nodes| - 1])
  {
    hide Good, InOrder;
    var nodes := InOrder(w, NodesOf(Eval(w, l, n, i, k)));
    FilterIs(w, l, Position, n, i, k, x);
    FilterIs(w, l, Last, n, i, k, x);
    forall j: nat | j < |nodes| ensures Holds(w, Position, nodes[j], j + 1, |nodes|) {
    }
    forall j: nat | j < |nodes| ensures Holds(w, Last, nodes[j], j + 1, |nodes|) <==> j == |nodes| - 1 {
    }
    if nodes != [] { assert Holds(w, Last, nodes[|nodes| - 1], |nodes| - 1 + 1, |nodes|); }
  }

  /** The root is the first node in document order. */
  lemma RootIsFirst(w: World, n: nat, i: nat, k: nat)
    requires Good(w)
    ensures Preorder(w.t) != [] && Eval(w, Root, n, i, k) == Nodes({Preorder(w.t)[0]})
  {
  }

  // ----- expressions that do not depend on the position -----

  predicate IsPosinv(e: Expr) {
    match e
    case Position | Last => false
    case Call(_, _, arguments) => ArePosinv(arguments)
    case Equal(l, r) => IsPosinv(l) && IsPosinv(r)
    case Union(l, r) => IsPosinv(l) && IsPosinv(r)
    case CompareAttribute(_, r) => IsPosinv(r)
    case _ => true
  }

  predicate ArePosinv(a: Args) {
    a.Arg? ==> IsPosinv(a.e) && ArePosinv(a.next)
  }

  /** `is_posinv_expr` is right: the value does not depend on the position or the size; that of a node-set never does. */
  lemma {:induction false} PosinvIsInvariant(w: World, e: Expr, n: nat, i: nat, k: nat, i': nat, k': nat)
    requires Good(w) && Typed(e) && (IsPosinv(e) || IsNodeSet(e))
    ensures Eval(w, e, n, i, k) == Eval(w, e, n, i', k')
    decreases e
  {
    hide Good, ApplyAll, ApplyPred, StepList, Fetched, InOrder, FirstNamed, HasValue, Apply, Coerce;
    match e
    case Call(_, _, arguments) => PosinvArgs(w, arguments, n, i, k, i', k');
    case Equal(l, r) =>
      PosinvIsInvariant(w, l, n, i, k, i', k');
      PosinvIsInvariant(w, r, n, i, k, i', k');
    case Union(l, r) =>
      PosinvIsInvariant(w, l, n, i, k, i', k');
      PosinvIsInvariant(w, r, n, i, k, i', k');
    case Step(from, _, _, _) =>
      if from.Behind? { PosinvIsInvariant(w, from.e, n, i, k, i', k'); }
    case Filter(l, _, _) => PosinvIsInvariant(w, l, n, i, k, i', k');
    case CompareAttribute(_, r) => PosinvIsInvariant(w, r, n, i, k, i', k');
    case _ =>
  }

  lemma {:induction false} PosinvArgs(w: World, a: Args, n: nat, i: nat, k: nat, i': nat, k': nat)
    requires Good(w) && TypedArgs(a) && ArePosinv(a)
    ensures EvalArgs(w, a, n, i, k) == EvalArgs(w, a, n, i', k')
    decreases a
  {
    if a.Arg? {
      PosinvIsInvariant(w, a.e, n, i, k, i', k');
      PosinvArgs(w, a.next, n, i, k, i', k');
    }
  }

  // ----- optimize_self -----

  /** `[position()=e]` becomes `[e]`. */
  function RewritePosition(e: Expr): Expr {
    if e.Equal? && e.left.Position? && TypeOf(e.right) == NumberType then e.right else e
  }

  /** How the predicate is to be evaluated. */
  function Classify(e: Expr): Kind {
    if e == Literal(Number(1.0)) then ConstantOne
    else if TypeOf(e) == NumberType && (e.Literal? || e.Variable? || e.Last?) then Constant
    else if TypeOf(e) != NumberType && IsPosinv(e) then Posinv
    else Default
  }

  /** `is_posinv_step`. */
  predicate AllPosinv(p: Preds) {
    p.Pred? ==> p.kind == Posinv && AllPosinv(p.next)
  }

  /** The axis that takes in the step `descendant-or-self::node()` before it. */
  function Merged(axis: Axis): Axis {
    if axis.Child? || axis.Descendant? then Descendant else DescendantOrSelf
  }

  predicate Merges(axis: Axis) {
    axis.Child? || axis.Self? || axis.Descendant? || axis.DescendantOrSelf?
  }

  predicate IsDoubleSlash(from: From) {
    from.Behind? && from.e.Step? && from.e.axis.DescendantOrSelf? && from.e.test.AnyNode? && from.e.preds.NoPred?
  }

  function MergeSteps(e: Expr): Expr
    requires e.Step?
  {
    if Merges(e.axis) && IsDoubleSlash(e.from) && AllPosinv(e.preds) then Step(e.from.e.from, Merged(e.axis), e.test, e.preds) else e
  }

  /** `@a = 'v'` becomes a direct lookup. */
  function RewriteAttribute(e: Expr): Expr
    requires e.Equal?
  {
    if e.left.AttributeStep? && (e.right.Literal? || e.right.Variable?) && TypeOf(e.right) == StringType
    then CompareAttribute(e.left.name, e.right) else e
  }

  /** `optimize`: the parts first. */
  function Optimize(e: Expr): Expr {
    match e
    case Call(f, ty, arguments) => Call(f, ty, OptimizeArgs(arguments))
    case Equal(l, r) => RewriteAttribute(Equal(Optimize(l), Optimize(r)))
    case Union(l, r) => Union(Optimize(l), Optimize(r))
    case Step(from, axis, test, preds) =>
      MergeSteps(Step(if from.Behind? then Behind(Optimize(from.e)) else Here, axis, test, OptimizePreds(preds)))
    case Filter(l, p, kind) =>
      var q := RewritePosition(Optimize(p));
      Filter(Optimize(l), q, Classify(q))
    case CompareAttribute(name, r) => CompareAttribute(name, Optimize(r))
    case _ => e
  }

  function OptimizeArgs(a: Args): Args {
    if a.NoArg? then NoArg else Arg(Optimize(a.e), OptimizeArgs(a.next))
  }

  function OptimizePreds(p: Preds): Preds {
    if p.NoPred? then NoPred
    else
      var q := RewritePosition(Optimize(p.e));
      Pred(q, Classify(q), OptimizePreds(p.next))
  }

  // ----- types are kept -----

  lemma {:induction false} OptimizedIsTyped(e: Expr)
    requires Typed(e)
    ensures Typed(Optimize(e)) && TypeOf(Optimize(e)) == TypeOf(e) && (IsNodeSet(e) ==> IsNodeSet(Optimize(e)))
    decreases e
  {
    match e
    case Call(_, _, arguments) => ArgsAreTyped(arguments);
    case Equal(l, r) =>
      OptimizedIsTyped(l);
      OptimizedIsTyped(r);
    case Union(l, r) =>
      OptimizedIsTyped(l);
      OptimizedIsTyped(r);
    case Step(from, _, _, preds) =>
      if from.Behind? { OptimizedIsTyped(from.e); }
      PredsAreTyped(preds);
    case Filter(l, p, _) =>
      OptimizedIsTyped(l);
      OptimizedIsTyped(p);
    case CompareAttribute(_, r) => OptimizedIsTyped(r);
    case _ =>
  }

  lemma {:induction false} ArgsAreTyped(a: Args)
    requires TypedArgs(a)
    ensures TypedArgs(OptimizeArgs(a))
    decreases a
  {
    if a.Arg? {
      OptimizedIsTyped(a.e);
      ArgsAreTyped(a.next);
    }
  }

  lemma {:induction false} PredsAreTyped(p: Preds)
    requires TypedPreds(p)
    ensures TypedPreds(OptimizePreds(p))
    decreases p
  {
    if p.Pred? {
      OptimizedIsTyped(p.e);
      PredsAreTyped(p.next);
    }
  }

  /** A value has the type of its expression. */
  lemma ValueHasType(w: World, e: Expr, n: nat, i: nat, k: nat)
    requires Good(w) && Typed(e)
    ensures TypeOfValue(Eval(w, e, n, i, k)) == TypeOf(e)
  {
    hide Good, ApplyAll, ApplyPred, StepList, Fetched, Apply, FirstNamed, HasValue;
  }

  // ----- predicates -----

  /** `[position()=e]` and `[e]` hold of the same nodes. */
  lemma RewrittenHolds(w: World, e: Expr, x: nat, i: nat, k: nat)
    requires Good(w) && Typed(e)
    ensures Holds(w, RewritePosition(e), x, i, k) <==> Holds(w, e, x, i, k)
  {
    hide Good;
    if e.Equal? && e.left.Position? && TypeOf(e.right) == NumberType {
      ValueHasType(w, e.right, x, i, k);
      var v := Eval(w, e.right, x, i, k);
      assert Eval(w, e.left, x, i, k) == Number(i as real);
      assert Eval(w, e, x, i, k) == Boolean(Compare(w, x, Number(i as real), v));
      assert Compare(w, x, Number(i as real), v) == (i as real == v.n);
    }
  }

  /** Predicates that hold of the same nodes keep the same nodes. */
  lemma {:induction false} KeepSame(w: World, l: seq<nat>, e: Expr, e': Expr, j: nat)
    requires Good(w) && j <= |l| && forall x: nat, i: nat, k: nat :: Holds(w, e', x, i, k) <==> Holds(w, e, x, i, k)
    ensures Keep(w, l, e', j) == Keep(w, l, e, j)
    decreases |l| - j
  {
    hide Good, Holds;
    if j < |l| { KeepSame(w, l, e, e', j + 1); }
  }

  /** A constant number picks the node in its place. */
  lemma {:induction false} KeepConstant(w: World, l: seq<nat>, e: Expr, j: nat, v: real)
    requires Good(w) && j <= |l| && forall x: nat, i: nat :: Holds(w, e, x, i, |l|) <==> i as real == v
    ensures Keep(w, l, e, j) == if exists i: nat :: j <= i < |l| && IsPlace(i, v) then Pick(l, v) else []
    decreases |l| - j
  {
    hide Good, Holds, Pick, IsPlace;
    if j < |l| {
      KeepConstant(w, l, e, j + 1, v);
      PlaceIs(j, v);
      if IsPlace(j, v) { OnePlace(l, j, v); }
    }
  }

  lemma PlaceIs(j: nat, v: real)
    ensures IsPlace(j, v) <==> (j + 1) as real == v
  {
  }

  lemma ConstantHolds(w: World, e: Expr, x: nat, i: nat, k: nat, v: real)
    requires Good(w) && TypeOf(e) == NumberType && Eval(w, e, x, i, k) == Number(v)
    ensures Holds(w, e, x, i, k) <==> i as real == v
  {
    hide Good, Eval;
  }

  lemma OnePlace(l: seq<nat>, i: nat, v: real)
    requires i < |l| && IsPlace(i, v)
    ensures Pick(l, v) == [l[i]] && forall j: nat :: IsPlace(j, v) <==> j == i
  {
  }

  /** Evaluating a predicate by its class gives what evaluating it node by node gives. */
  lemma ClassDoesNotMatter(w: World, l: seq<nat>, e: Expr)
    requires Good(w) && Typed(e)
    ensures ApplyPred(w, l, e, Classify(e)) == Keep(w, l, e, 0)
  {
    hide Good, Keep, Pick;
    if Classify(e).Constant? || Classify(e).ConstantOne? {
      var v := Eval(w, e, 0, 1, |l|);
      ValueHasType(w, e, 0, 1, |l|);
      forall x: nat, i: nat ensures Holds(w, e, x, i, |l|) <==> i as real == v.n {
        assert Eval(w, e, x, i, |l|) == Number(v.n);
        ConstantHolds(w, e, x, i, |l|, v.n);
      }
      KeepConstant(w, l, e, 0, v.n);
      PickNothing(l, v.n);
    }
  }

  lemma PickNothing(l: seq<nat>, v: real)
    ensures !(exists i: nat :: 0 <= i < |l| && IsPlace(i, v)) ==> Pick(l, v) == []
  {
  }

  // ----- predicates that do not depend on the position -----

  /** A predicate classified as independent of the position is, and one classified as `[1]` is that. */
  predicate Consistent(p: Preds) {
    p.Pred? ==>
      && (p.kind.Posinv? ==> TypeOf(p.e) != NumberType && IsPosinv(p.e))
      && (p.kind.ConstantOne? ==> p.e == Literal(Number(1.0)))
      && Consistent(p.next)
  }

  /** The predicate `[1]` picks the same node from the list that ends after its first node. */
  lemma FirstIsEnough(w: World, axis: Axis, test: Test, preds: Preds, c: nat)
    requires Good(w) && Consistent(preds)
    ensures ApplyAll(w, Fetched(w, axis, test, preds, c), preds) == ApplyAll(w, StepList(w, axis, test, c), preds)
  {
    hide IsTree, Ids, Selected, Keep;
    if OnlyFirst(preds) && c in Ids(w.t) && c < |w.ns| {
      var l := StepList(w, axis, test, c);
      OnceIsTheFirst(StepQuery(w, axis, test, c, false));
      PickOne(w, l, preds);
      PickOne(w, Fetched(w, axis, test, preds, c), preds);
    }
  }

  lemma PickOne(w: World, l: seq<nat>, preds: Preds)
    requires Good(w) && Consistent(preds) && OnlyFirst(preds)
    ensures ApplyAll(w, l, preds) == if l == [] then [] else [l[0]]
  {
    hide Good, Keep;
    NoPredicates(w, ApplyPred(w, l, preds.e, preds.kind));
    if l != [] { OnePlace(l, 0, 1.0); } else { PickNothing(l, 1.0); }
  }

  lemma FreshIsConsistent(p: Preds)
    requires FreshPreds(p)
    ensures Consistent(p)
  {
  }

  /** All predicates hold of a node, wherever it stands. */
  ghost predicate AllHold(w: World, p: Preds, x: nat)
    requires Good(w)
  {
    p.Pred? ==> Holds(w, p.e, x, 1, 1) && AllHold(w, p.next, x)
  }

  lemma PosinvHolds(w: World, e: Expr, x: nat, i: nat, k: nat)
    requires Good(w) && Typed(e) && IsPosinv(e) && TypeOf(e) != NumberType
    ensures Holds(w, e, x, i, k) <==> Holds(w, e, x, 1, 1)
  {
    hide Good, Eval;
    PosinvIsInvariant(w, e, x, i, k, 1, 1);
  }

  lemma {:induction false} KeepPosinv(w: World, l: seq<nat>, e: Expr, j: nat, x: nat)
    requires Good(w) && Typed(e) && IsPosinv(e) && TypeOf(e) != NumberType && j <= |l|
    ensures x in Keep(w, l, e, j) <==> x in l[j..] && Holds(w, e, x, 1, 1)
    decreases |l| - j
  {
    hide Good, Holds;
    if j < |l| {
      KeepPosinv(w, l, e, j + 1, x);
      PosinvHolds(w, e, l[j], j + 1, |l|);
      assert l[j..] == [l[j]] + l[j + 1..];
    }
  }

  /** Such predicates select the nodes they hold of, whatever the order of the list. */
  lemma {:induction false} PosinvSelects(w: World, l: seq<nat>, p: Preds, x: nat)
    requires Good(w) && TypedPreds(p) && AllPosinv(p) && Consistent(p)
    ensures x in ApplyAll(w, l, p) <==> x in l && AllHold(w, p, x)
    decreases p
  {
    hide Good, Holds, Keep;
    if p.Pred? {
      KeepPosinv(w, l, p.e, 0, x);
      assert l[0..] == l;
      PosinvSelects(w, Keep(w, l, p.e, 0), p.next, x);
    }
  }

  /** A filter whose predicate is independent of the position need not sort its nodes first. */
  lemma FilterIgnoresOrder(w: World, l: seq<nat>, l': seq<nat>, e: Expr)
    requires Good(w) && Typed(e) && Classify(e).Posinv? && AsSet(l) == AsSet(l')
    ensures AsSet(ApplyPred(w, l, e, Posinv)) == AsSet(ApplyPred(w, l', e, Posinv))
  {
    hide Good, Holds, Keep;
    forall x: nat ensures x in ApplyPred(w, l, e, Posinv) <==> x in ApplyPred(w, l', e, Posinv) {
      KeepPosinv(w, l, e, 0, x);
      KeepPosinv(w, l', e, 0, x);
      assert l[0..] == l && l'[0..] == l';
      assert x in l <==> x in AsSet(l);
      assert x in l' <==> x in AsSet(l');
    }
  }

  // ----- two steps in one -----

  /** The nodes on one of the merging axes of some node below a node. */
  lemma AxesCompose(ns: Arena, t: Forest, axis: Axis, c: nat, x: nat)
    requires Context(ns, t, c) && x in Ids(t) && x < |ns| && Merges(axis)
    ensures OnAxis(ns, t, Merged(axis), c, x) <==>
              exists m: nat :: m in Ids(t) && m < |ns| && OnAxis(ns, t, DescendantOrSelf, c, m) && OnAxis(ns, t, axis, m, x)
  {
    hide IsTree, Linked, Separate, Ids, Preorder, Pos, End, Depth;
    forall m: nat | m in Ids(t) && m < |ns| && OnAxis(ns, t, DescendantOrSelf, c, m) && OnAxis(ns, t, axis, m, x)
      ensures OnAxis(ns, t, Merged(axis), c, x)
    {
      Parent(ns, t, x);
      DifferentNodesDifferentPos(t, c, x);
      DifferentNodesDifferentPos(t, m, x);
    }
    if OnAxis(ns, t, Merged(axis), c, x) {
      if axis.Child? {
        Above(ns, t, c, x);
        Parent(ns, t, x);
        assert OnAxis(ns, t, DescendantOrSelf, c, ns[x].parent) && OnAxis(ns, t, axis, ns[x].parent, x);
      } else if axis.Self? {
        assert OnAxis(ns, t, DescendantOrSelf, c, x) && OnAxis(ns, t, axis, x, x);
      } else {
        assert OnAxis(ns, t, DescendantOrSelf, c, c) && OnAxis(ns, t, axis, c, x);
      }
    }
  }

  ghost predicate Passes(w: World, test: Test, x: nat) {
    test.AnyNode? || x in test.nodes
  }

  /** What a step leads to. */
  lemma StepListIs(w: World, axis: Axis, test: Test, c: nat, x: nat)
    requires Good(w)
    ensures x in StepList(w, axis, test, c) <==>
              && c in Ids(w.t) && c < |w.ns| && x in Ids(w.t) && x < |w.ns|
              && OnAxis(w.ns, w.t, axis, c, x) && Passes(w, test, x)
  {
    hide IsTree, Ids, OnAxis, Selected;
    if c in Ids(w.t) && c < |w.ns| {
      SelectedIsTheAxis(StepQuery(w, axis, test, c, false));
    }
  }

  ghost function ContextsOf(w: World, from: From, n: nat, i: nat, k: nat): set<nat>
    requires Good(w)
  {
    if from.Here? then {n} else NodesOf(Eval(w, from.e, n, i, k))
  }

  lemma StepIs(w: World, e: Expr, n: nat, i: nat, k: nat, x: nat)
    requires Good(w) && e.Step? && Consistent(e.preds)
    ensures x in NodesOf(Eval(w, e, n, i, k)) <==>
              exists c: nat :: c in ContextsOf(w, e.from, n, i, k) && x in ApplyAll(w, StepList(w, e.axis, e.test, c), e.preds)
  {
    hide Good, StepList, ApplyAll, Fetched, Consistent;
    forall c: nat
      ensures ApplyAll(w, Fetched(w, e.axis, e.test, e.preds, c), e.preds) == ApplyAll(w, StepList(w, e.axis, e.test, c), e.preds)
    {
      FirstIsEnough(w, e.axis, e.test, e.preds, c);
    }
  }

  /** A path `//` and the step behind it are one step, if the predicates do not depend on the position. */
  lemma MergeKeepsValue(w: World, e: Expr, n: nat, i: nat, k: nat)
    requires Good(w) && Typed(e) && e.Step? && Consistent(e.preds)
    ensures Eval(w, MergeSteps(e), n, i, k) == Eval(w, e, n, i, k)
  {
    hide Good, Eval, ApplyAll, StepList, AllHold;
    if Merges(e.axis) && IsDoubleSlash(e.from) && AllPosinv(e.preds) {
      var inner := e.from.e;
      forall x: nat ensures x in NodesOf(Eval(w, MergeSteps(e), n, i, k)) <==> x in NodesOf(Eval(w, e, n, i, k)) {
        MergeAt(w, e, n, i, k, x);
      }
      ValueIsNodes(w, e, n, i, k);
      ValueIsNodes(w, MergeSteps(e), n, i, k);
    }
  }

  lemma ValueIsNodes(w: World, e: Expr, n: nat, i: nat, k: nat)
    requires Good(w) && e.Step?
    ensures Eval(w, e, n, i, k) == Nodes(NodesOf(Eval(w, e, n, i, k)))
  {
    hide Good, StepList, ApplyAll, Fetched;
  }

  lemma MergeAt(w: World, e: Expr, n: nat, i: nat, k: nat, x: nat)
    requires Good(w) && Typed(e) && e.Step? && Merges(e.axis) && IsDoubleSlash(e.from) && AllPosinv(e.preds) && Consistent(e.preds)
    ensures x in NodesOf(Eval(w, MergeSteps(e), n, i, k)) <==> x in NodesOf(Eval(w, e, n, i, k))
  {
    hide Good, Eval, ApplyAll, StepList, AllHold, OnAxis, Ids, Typed;
    var inner, one := e.from.e, MergeSteps(e);
    TypedStep(e);
    StepIs(w, e, n, i, k, x);
    StepIs(w, one, n, i, k, x);
    forall c: nat ensures x in ApplyAll(w, StepList(w, one.axis, e.test, c), e.preds) <==>
        exists m: nat :: m in StepList(w, DescendantOrSelf, AnyNode, c) && x in ApplyAll(w, StepList(w, e.axis, e.test, m), e.preds)
    {
      MergeFrom(w, e.axis, e.test, e.preds, c, x);
    }
    forall m: nat ensures m in NodesOf(Eval(w, inner, n, i, k)) <==>
        exists c: nat :: c in ContextsOf(w, inner.from, n, i, k) && m in StepList(w, DescendantOrSelf, AnyNode, c)
    {
      StepIs(w, inner, n, i, k, m);
      forall c: nat ensures ApplyAll(w, StepList(w, inner.axis, inner.test, c), NoPred) == StepList(w, inner.axis, inner.test, c) {
        NoPredicates(w, StepList(w, inner.axis, inner.test, c));
      }
    }
  }

  lemma NoPredicates(w: World, l: seq<nat>)
    requires Good(w)
    ensures ApplyAll(w, l, NoPred) == l
  {
  }

  lemma TypedStep(e: Expr)
    requires Typed(e) && e.Step?
    ensures TypedPreds(e.preds)
  {
  }

  /** The merging of steps, for one context node. */
  lemma MergeFrom(w: World, axis: Axis, test: Test, preds: Preds, c: nat, x: nat)
    requires Good(w) && Merges(axis) && TypedPreds(preds) && AllPosinv(preds) && Consistent(preds)
    ensures x in ApplyAll(w, StepList(w, Merged(axis), test, c), preds) <==>
              exists m: nat :: m in StepList(w, DescendantOrSelf, AnyNode, c) && x in ApplyAll(w, StepList(w, axis, test, m), preds)
  {
    hide IsTree, ApplyAll, StepList, AllHold, OnAxis, Ids, TypedPreds, AllPosinv, Consistent;
    PosinvSelects(w, StepList(w, Merged(axis), test, c), preds, x);
    StepListIs(w, Merged(axis), test, c, x);
    forall m: nat
      ensures x in ApplyAll(w, StepList(w, axis, test, m), preds) <==> x in StepList(w, axis, test, m) && AllHold(w, preds, x)
      ensures x in StepList(w, axis, test, m) <==>
                && m in Ids(w.t) && m < |w.ns| && x in Ids(w.t) && x < |w.ns|
                && OnAxis(w.ns, w.t, axis, m, x) && Passes(w, test, x)
      ensures m in StepList(w, DescendantOrSelf, AnyNode, c) <==>
                && c in Ids(w.t) && c < |w.ns| && m in Ids(w.t) && m < |w.ns| && OnAxis(w.ns, w.t, DescendantOrSelf, c, m)
    {
      PosinvSelects(w, StepList(w, axis, test, m), preds, x);
      StepListIs(w, axis, test, m, x);
      StepListIs(w, DescendantOrSelf, AnyNode, c, m);
    }
    if c in Ids(w.t) && c < |w.ns| && x in Ids(w.t) && x < |w.ns| {
      AxesCompose(w.ns, w.t, axis, c, x);
    }
  }

  // ----- attributes -----

  lemma {:induction false} FirstNamedIs(a: seq<Attr>, name: string, value: string)
    ensures value in FirstNamed(a, name) <==> HasValue(a, name, value)
  {
    if a != [] { FirstNamedIs(a[1..], name, value); }
  }

  lemma AttributeKeepsValue(w: World, e: Expr, n: nat, i: nat, k: nat)
    requires Good(w) && Typed(e) && e.Equal?
    ensures Eval(w, RewriteAttribute(e), n, i, k) == Eval(w, e, n, i, k)
  {
    hide Good, FirstNamed, HasValue;
    if RewriteAttribute(e).CompareAttribute? {
      ValueHasType(w, e.right, n, i, k);
      FirstNamedIs(AttributesOf(w, n), e.left.name, Eval(w, e.right, n, i, k).s);
    }
  }

  // ----- the optimizer leaves all values unchanged -----

  /** As the parser builds it: nothing classified or rewritten yet. */
  predicate Fresh(e: Expr) {
    match e
    case Call(_, _, arguments) => FreshArgs(arguments)
    case Equal(l, r) => Fresh(l) && Fresh(r)
    case Union(l, r) => Fresh(l) && Fresh(r)
    case Step(from, _, _, preds) => (from.Behind? ==> Fresh(from.e)) && FreshPreds(preds)
    case Filter(l, p, kind) => Fresh(l) && Fresh(p) && kind.Default?
    case CompareAttribute(_, _) => false
    case _ => true
  }

  predicate FreshArgs(a: Args) {
    a.Arg? ==> Fresh(a.e) && FreshArgs(a.next)
  }

  predicate FreshPreds(p: Preds) {
    p.Pred? ==> Fresh(p.e) && p.kind.Default? && FreshPreds(p.next)
  }

  /** `optimize` preserves the value of every expression at every context node, position and size. */
  lemma {:induction false} OptimizeKeepsValue(w: World, e: Expr, n: nat, i: nat, k: nat)
    requires Good(w) && Typed(e) && Fresh(e)
    ensures Eval(w, Optimize(e), n, i, k) == Eval(w, e, n, i, k)
    decreases e, 1
  {
    hide Good, ApplyAll, ApplyPred, StepList, Fetched, InOrder, MergeSteps, RewriteAttribute, Apply, Compare, FirstNamed, HasValue, RewritePosition, Classify;
    OptimizedIsTyped(e);
    match e
    case Call(_, _, arguments) => ArgsKeepValues(w, arguments, n, i, k);
    case Equal(l, r) =>
      OptimizeKeepsValue(w, l, n, i, k);
      OptimizeKeepsValue(w, r, n, i, k);
      OptimizedIsTyped(l);
      OptimizedIsTyped(r);
      AttributeKeepsValue(w, Equal(Optimize(l), Optimize(r)), n, i, k);
    case Union(l, r) =>
      OptimizeKeepsValue(w, l, n, i, k);
      OptimizeKeepsValue(w, r, n, i, k);
    case Step(from, axis, test, preds) => StepKeepsValue(w, e, n, i, k);
    case Filter(l, p, kind) =>
      OptimizeKeepsValue(w, l, n, i, k);
      PredKeepsValue(w, InOrder(w, NodesOf(Eval(w, l, n, i, k))), p);
    case _ =>
  }

  lemma {:induction false} ArgsKeepValues(w: World, a: Args, n: nat, i: nat, k: nat)
    requires Good(w) && TypedArgs(a) && FreshArgs(a)
    ensures EvalArgs(w, OptimizeArgs(a), n, i, k) == EvalArgs(w, a, n, i, k)
    decreases a
  {
    hide Good, Eval;
    if a.Arg? {
      OptimizeKeepsValue(w, a.e, n, i, k);
      ArgsKeepValues(w, a.next, n, i, k);
    }
  }

  /** A predicate, rewritten and classified, keeps the nodes that it kept. */
  lemma {:induction false} PredKeepsValue(w: World, l: seq<nat>, e: Expr)
    requires Good(w) && Typed(e) && Fresh(e)
    ensures var q := RewritePosition(Optimize(e)); ApplyPred(w, l, q, Classify(q)) == ApplyPred(w, l, e, Default)
    decreases e, 2
  {
    hide Good, Eval, Keep, RewritePosition, Classify;
    OptimizedIsTyped(e);
    var q := RewritePosition(Optimize(e));
    RewrittenIsTyped(Optimize(e));
    ClassDoesNotMatter(w, l, q);
    forall x: nat, i: nat, k: nat ensures Holds(w, q, x, i, k) <==> Holds(w, e, x, i, k) {
      RewrittenHolds(w, Optimize(e), x, i, k);
      OptimizeKeepsValue(w, e, x, i, k);
    }
    hide Holds;
    KeepSame(w, l, e, q, 0);
  }

  lemma RewrittenIsTyped(e: Expr)
    requires Typed(e)
    ensures Typed(RewritePosition(e))
  {
  }

  lemma {:induction false} PredsKeepValue(w: World, l: seq<nat>, p: Preds)
    requires Good(w) && TypedPreds(p) && FreshPreds(p)
    ensures ApplyAll(w, l, OptimizePreds(p)) == ApplyAll(w, l, p) && Consistent(OptimizePreds(p))
    decreases p
  {
    hide Good, ApplyPred, RewritePosition;
    if p.Pred? {
      PredKeepsValue(w, l, p.e);
      PredsKeepValue(w, ApplyPred(w, l, p.e, p.kind), p.next);
    }
  }

  lemma {:induction false} StepKeepsValue(w: World, e: Expr, n: nat, i: nat, k: nat)
    requires Good(w) && Typed(e) && Fresh(e) && e.Step?
    ensures Eval(w, Optimize(e), n, i, k) == Eval(w, e, n, i, k)
    decreases e, 0
  {
    hide Good, Eval, ApplyAll, StepList, MergeSteps;
    var from := if e.from.Behind? then Behind(Optimize(e.from.e)) else Here;
    var parts := Step(from, e.axis, e.test, OptimizePreds(e.preds));
    if e.from.Behind? {
      OptimizeKeepsValue(w, e.from.e, n, i, k);
      OptimizedIsTyped(e.from.e);
    }
    PredsAreTyped(e.preds);
    PredsKeepValue(w, [], e.preds);
    FreshIsConsistent(e.preds);
    MergeKeepsValue(w, parts, n, i, k);
    forall c: nat ensures ApplyAll(w, StepList(w, e.axis, e.test, c), OptimizePreds(e.preds)) == ApplyAll(w, StepList(w, e.axis, e.test, c), e.preds) {
      PredsKeepValue(w, StepList(w, e.axis, e.test, c), e.preds);
    }
    forall x: nat ensures x in NodesOf(Eval(w, parts, n, i, k)) <==> x in NodesOf(Eval(w, e, n, i, k)) {
      StepIs(w, parts, n, i, k, x);
      StepIs(w, e, n, i, k, x);
    }
    ValueIsNodes(w, parts, n, i, k);
    ValueIsNodes(w, e, n, i, k);
  }
}
