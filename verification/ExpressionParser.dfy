/**
  The precedence-climbing parser of XPath expressions in xml/pugixml.cpp: `parse_path_or_unary_expression`,
  `binary_op_t::parse`, `parse_expression_rec`, `parse_expression` and `parse`.

  The tokens are the lexer's; a longer location path, a filter expression or a function call is one token
  (`Path` if its value is a node set, `Constant` otherwise), while a path that is a single name is the
  token `Name` that also spells the operators or, and, div and mod, and a path that is a single `*` is the
  token `Star` that also spells multiplication.
*/
module ExpressionParser {
  import opened Common

  datatype Op =
    | Or | And | Equal | NotEqual | Less | Greater | LessOrEqual | GreaterOrEqual
    | Add | Subtract | Multiply | Divide | Mod | Union

  datatype Token =
    | Path(id: nat) | Constant(id: nat) | Name(contents: string)
    | OpenBrace | CloseBrace
    | EqualSign | NotEqualSign | LessSign | GreaterSign | LessOrEqualSign | GreaterOrEqualSign
    | Plus | Minus | Star | Bar

  datatype Ast =
    | Leaf(token: Token)
    | Negate(arg: Ast)
    | Binary(op: Op, left: Ast, right: Ast)

  predicate IsNodeSet(e: Ast) {
    match e
    case Leaf(t) => t.Path? || t.Name? || t.Star?
    case Negate(_) => false
    case Binary(op, _, _) => op.Union?
  }

  /** `binary_op_t::parse`: which operator a token is, where an operator is expected. */
  function OperatorOf(t: Token): Option<Op> {
    match t
    case Name(c) =>
      if c == "or" then Some(Or) else if c == "and" then Some(And)
      else if c == "div" then Some(Divide) else if c == "mod" then Some(Mod) else None
    case EqualSign => Some(Equal)
    case NotEqualSign => Some(NotEqual)
    case LessSign => Some(Less)
    case GreaterSign => Some(Greater)
    case LessOrEqualSign => Some(LessOrEqual)
    case GreaterOrEqualSign => Some(GreaterOrEqual)
    case Plus => Some(Add)
    case Minus => Some(Subtract)
    case Star => Some(Multiply)
    case Bar => Some(Union)
    case _ => None
  }

  function Precedence(op: Op): nat {
    match op
    case Or => 1
    case And => 2
    case Equal | NotEqual => 3
    case Less | Greater | LessOrEqual | GreaterOrEqual => 4
    case Add | Subtract => 5
    case Multiply | Divide | Mod => 6
    case Union => 7
  }

  function OperatorAt(ts: seq<Token>, pos: nat): Option<Op> {
    if pos < |ts| then OperatorOf(ts[pos]) else None
  }

  /** The precedence of the operator at a position, 0 if there is none. */
  function PrecedenceAt(ts: seq<Token>, pos: nat): nat {
    match OperatorAt(ts, pos)
    case Some(op) => Precedence(op)
    case None => 0
  }

  // ----- the parser as functions on the tokens -----

  datatype Parsed = Error | Ok(tree: Ast, pos: nat)

  function ParseUnary(ts: seq<Token>, pos: nat): (r: Parsed)
    ensures r.Ok? ==> pos < r.pos <= |ts|
    decreases |ts| - pos, 0
  {
    if pos >= |ts| then Error else
    match ts[pos]
    case Path(_) => Ok(Leaf(ts[pos]), pos + 1)
    case Star => Ok(Leaf(ts[pos]), pos + 1)
    case Constant(_) => Ok(Leaf(ts[pos]), pos + 1)
    case Name(_) => if pos + 1 < |ts| && ts[pos + 1].OpenBrace? then Error else Ok(Leaf(ts[pos]), pos + 1)
    case OpenBrace =>
      (match ParseExpression(ts, pos + 1, 0)
       case Error => Error
       case Ok(n, p) => if p < |ts| && ts[p].CloseBrace? then Ok(n, p + 1) else Error)
    case Minus =>
      (match ParseExpression(ts, pos + 1, 7)
       case Error => Error
       case Ok(n, p) => Ok(Negate(n), p))
    case _ => Error
  }

  function ParseExpression(ts: seq<Token>, pos: nat, limit: nat): (r: Parsed)
    ensures r.Ok? ==> pos < r.pos <= |ts|
    decreases |ts| - pos, 3
  {
    match ParseUnary(ts, pos)
    case Error => Error
    case Ok(n, p) => Climb(ts, p, n, limit)
  }

  /** `parse_expression_rec`: extends `lhs` by operators of at least the precedence `limit`. */
  function Climb(ts: seq<Token>, pos: nat, lhs: Ast, limit: nat): (r: Parsed)
    requires pos <= |ts|
    ensures r.Ok? ==> pos <= r.pos <= |ts|
    ensures r.Ok? && OperatorAt(ts, pos).Some? && PrecedenceAt(ts, pos) >= limit ==> pos < r.pos
    decreases |ts| - pos, 1
  {
    match OperatorAt(ts, pos)
    case None => Ok(lhs, pos)
    case Some(op) =>
      if Precedence(op) < limit then Ok(lhs, pos) else
      match RightOperand(ts, pos + 1, op)
      case Error => Error
      case Ok(rhs, p) =>
        if op.Union? && !(IsNodeSet(lhs) && IsNodeSet(rhs)) then Error
        else Climb(ts, p, Binary(op, lhs, rhs), limit)
  }

  function RightOperand(ts: seq<Token>, pos: nat, op: Op): (r: Parsed)
    ensures r.Ok? ==> pos < r.pos <= |ts|
    decreases |ts| - pos, 4
  {
    match ParseUnary(ts, pos)
    case Error => Error
    case Ok(n, p) => Tighter(ts, p, n, op)
  }

  /** The inner loop: a right operand takes the operators that bind tighter than `op`. */
  function Tighter(ts: seq<Token>, pos: nat, rhs: Ast, op: Op): (r: Parsed)
    requires pos <= |ts|
    ensures r.Ok? ==> pos <= r.pos <= |ts|
    decreases |ts| - pos, 2
  {
    if PrecedenceAt(ts, pos) > Precedence(op) then
      match Climb(ts, pos, rhs, PrecedenceAt(ts, pos))
      case Error => Error
      case Ok(n, p) => Tighter(ts, p, n, op)
    else Ok(rhs, pos)
  }

  function Parse(ts: seq<Token>): Option<Ast> {
    match ParseExpression(ts, 0, 0)
    case Error => None
    case Ok(n, p) => if p == |ts| then Some(n) else None
  }

  // ----- the program: a token stream with a cursor, and loops -----

  class Parser {
    const tokens: seq<Token>
    var pos: nat

    constructor (query: seq<Token>)
      ensures tokens == query && pos == 0
    {
      tokens := query;
      pos := 0;
    }

    method ParsePathOrUnaryExpression() returns (n: Option<Ast>)
      modifies this
      ensures n == Tree(ParseUnary(tokens, old(pos)))
      ensures n.Some? ==> pos == ParseUnary(tokens, old(pos)).pos
      decreases |tokens| - pos, 0
    {
      if pos >= |tokens| { return None; }
      match tokens[pos]
      case Path(_) =>
        n := Some(Leaf(tokens[pos]));
        pos := pos + 1;
      case Star =>
        n := Some(Leaf(tokens[pos]));
        pos := pos + 1;
      case Constant(_) =>
        n := Some(Leaf(tokens[pos]));
        pos := pos + 1;
      case Name(_) =>
        if pos + 1 < |tokens| && tokens[pos + 1].OpenBrace? { return None; }
        n := Some(Leaf(tokens[pos]));
        pos := pos + 1;
      case OpenBrace =>
        pos := pos + 1;
        n := ParseWithLimit(0);
        if n.None? { return None; }
        if pos >= |tokens| || !tokens[pos].CloseBrace? { return None; }
        pos := pos + 1;
      case Minus =>
        pos := pos + 1;
        n := ParseWithLimit(7);
        if n.None? { return None; }
        n := Some(Negate(n.value));
      case _ =>
        n := None;
    }

    method ParseWithLimit(limit: nat) returns (n: Option<Ast>)
      modifies this
      ensures n == Tree(ParseExpression(tokens, old(pos), limit))
      ensures n.Some? ==> pos == ParseExpression(tokens, old(pos), limit).pos
      decreases |tokens| - pos, 3
    {
      n := ParsePathOrUnaryExpression();
      if n.Some? {
        n := ParseExpressionRec(n.value, limit);
      }
    }

    method ParseExpressionRec(left: Ast, limit: nat) returns (n: Option<Ast>)
      requires pos <= |tokens|
      modifies this
      ensures n == Tree(Climb(tokens, old(pos), left, limit))
      ensures n.Some? ==> pos == Climb(tokens, old(pos), left, limit).pos
      decreases |tokens| - pos, 1
    {
      var lhs := left;
      var op := OperatorAt(tokens, pos);
      while op.Some? && Precedence(op.value) >= limit
        invariant old(pos) <= pos <= |tokens| && op == OperatorAt(tokens, pos)
        invariant Climb(tokens, pos, lhs, limit) == Climb(tokens, old(pos), left, limit)
        decreases |tokens| - pos
      {
        pos := pos + 1;
        var rhs := ParseRightOperand(op.value);
        if rhs.None? { return None; }
        if op.value.Union? && (!IsNodeSet(lhs) || !IsNodeSet(rhs.value)) { return None; }
        lhs := Binary(op.value, lhs, rhs.value);
        op := OperatorAt(tokens, pos);
      }
      n := Some(lhs);
    }

    /** The inner loop of `parse_expression_rec`. */
    method ParseRightOperand(op: Op) returns (rhs: Option<Ast>)
      modifies this
      ensures rhs == Tree(RightOperand(tokens, old(pos), op))
      ensures rhs.Some? ==> pos == RightOperand(tokens, old(pos), op).pos
      decreases |tokens| - pos, 4
    {
      rhs := ParsePathOrUnaryExpression();
      if rhs.None? { return None; }
      var nextop := OperatorAt(tokens, pos);
      while nextop.Some? && Precedence(nextop.value) > Precedence(op)
        invariant old(pos) < pos <= |tokens| && nextop == OperatorAt(tokens, pos) && rhs.Some?
        invariant Tighter(tokens, pos, rhs.value, op) == RightOperand(tokens, old(pos), op)
        decreases |tokens| - pos
      {
        rhs := ParseExpressionRec(rhs.value, Precedence(nextop.value));
        if rhs.None? { return None; }
        nextop := OperatorAt(tokens, pos);
      }
    }

    method ParseQuery() returns (n: Option<Ast>)
      requires pos == 0
      modifies this
      ensures n == Parse(tokens)
    {
      n := ParseWithLimit(0);
      if n.Some? && pos != |tokens| { n := None; }
    }
  }

  function Tree(r: Parsed): Option<Ast> {
    match r
    case Error => None
    case Ok(n, _) => Some(n)
  }

  // ----- the layered grammar of section 3 of XPath 1.0 -----

  /** A derivation: the expression with its braces. */
  datatype Cst =
    | Operand(token: Token)
    | Braces(inner: Cst)
    | Unary(arg: Cst)
    | Infix(left: Cst, sign: Token, right: Cst)

  /**
    The operator signs of the productions, with their layers: 1 OrExpr, 2 AndExpr, 3 EqualityExpr, 4 RelationalExpr,
    5 AdditiveExpr, 6 MultiplicativeExpr, 8 UnionExpr; 7 UnaryExpr and 9 PathExpr have none between operands.
   */
  function SignOf(layer: nat, t: Token): Option<Op> {
    match t
    case Name(word) =>
      if layer == 1 && word == "or" then Some(Or)
      else if layer == 2 && word == "and" then Some(And)
      else if layer == 6 && word == "div" then Some(Divide)
      else if layer == 6 && word == "mod" then Some(Mod)
      else None
    case EqualSign => if layer == 3 then Some(Equal) else None
    case NotEqualSign => if layer == 3 then Some(NotEqual) else None
    case LessSign => if layer == 4 then Some(Less) else None
    case GreaterSign => if layer == 4 then Some(Greater) else None
    case LessOrEqualSign => if layer == 4 then Some(LessOrEqual) else None
    case GreaterOrEqualSign => if layer == 4 then Some(GreaterOrEqual) else None
    case Plus => if layer == 5 then Some(Add) else None
    case Minus => if layer == 5 then Some(Subtract) else None
    case Star => if layer == 6 then Some(Multiply) else None
    case Bar => if layer == 8 then Some(Union) else None
    case _ => None
  }

  /** The layer that has a sign, 0 if none has. */
  function LayerOf(t: Token): nat {
    match t
    case Name(word) => if word == "or" then 1 else if word == "and" then 2 else if word == "div" || word == "mod" then 6 else 0
    case EqualSign | NotEqualSign => 3
    case LessSign | GreaterSign | LessOrEqualSign | GreaterOrEqualSign => 4
    case Plus | Minus => 5
    case Star => 6
    case Bar => 8
    case _ => 0
  }

  predicate IsOperandToken(t: Token) {
    t.Path? || t.Constant? || t.Name? || t.Star?
  }

  predicate TypesOk(op: Op, l: Cst, r: Cst) {
    op.Union? ==> IsNodeSet(Abstract(l)) && IsNodeSet(Abstract(r))
  }

  /** The grammar's productions: each layer is the next one, or its own operators, left-associative. */
  predicate Derives(layer: nat, c: Cst)
    requires 1 <= layer <= 9
    decreases c, 9 - layer
  {
    || (layer < 9 && Derives(layer + 1, c))
    || (layer == 9 && c.Operand? && IsOperandToken(c.token))
    || (layer == 9 && c.Braces? && Derives(1, c.inner))
    || (layer == 7 && c.Unary? && Derives(7, c.arg))
    || (c.Infix? && layer < 9 &&
        SignOf(layer, c.sign).Some? && (layer == 8 ==> IsNodeSet(Abstract(c.left)) && IsNodeSet(Abstract(c.right)))
        && Derives(layer, c.left) && Derives(layer + 1, c.right))
  }

  /** The tokens a derivation spells out. */
  function Yield(c: Cst): seq<Token> {
    match c
    case Operand(t) => [t]
    case Braces(i) => [OpenBrace] + Yield(i) + [CloseBrace]
    case Unary(a) => [Minus] + Yield(a)
    case Infix(l, t, r) => Yield(l) + [t] + Yield(r)
  }

  /** The tree a derivation stands for: braces leave no trace. */
  function Abstract(c: Cst): Ast {
    match c
    case Operand(t) => Leaf(t)
    case Braces(i) => Abstract(i)
    case Unary(a) => Negate(Abstract(a))
    case Infix(l, t, r) =>
      Binary((match SignOf(LayerOf(t), t) case Some(op) => op case None => Or), Abstract(l), Abstract(r))
  }

  // ----- the parser's table and the productions -----

  /** The layer of an operator by its precedence: the unary minus stands between the union and the others. */
  function Layer(op: Op): nat {
    if op.Union? then 8 else Precedence(op)
  }

  /** The parser's table has exactly the signs of the productions, at their layers. */
  lemma TableIsGrammar(layer: nat, t: Token, op: Op)
    requires 1 <= layer <= 9
    ensures SignOf(layer, t) == Some(op) <==> OperatorOf(t) == Some(op) && Layer(op) == layer
    ensures OperatorOf(t) == Some(op) ==> LayerOf(t) == Layer(op) && SignOf(LayerOf(t), t) == Some(op)
  {
    if OperatorOf(t) == Some(op) { TableToSign(t, op); }
    SignToTable(layer, t);
    hide SignOf, LayerOf, OperatorOf, Layer;
  }

  lemma TableToSign(t: Token, op: Op)
    requires OperatorOf(t) == Some(op)
    ensures SignOf(Layer(op), t) == Some(op) && LayerOf(t) == Layer(op)
  {
  }

  lemma SignToTable(layer: nat, t: Token)
    ensures SignOf(layer, t).Some? ==> OperatorOf(t) == SignOf(layer, t) && Layer(SignOf(layer, t).value) == layer
  {
  }

  /** The operator of a derivation. */
  lemma AbstractInfix(l: Cst, t: Token, r: Cst, op: Op)
    requires OperatorOf(t) == Some(op)
    ensures Abstract(Infix(l, t, r)) == Binary(op, Abstract(l), Abstract(r))
  {
    TableToSign(t, op);
    hide SignOf, LayerOf, OperatorOf, Layer;
  }

  /** The highest layer a derivation belongs to. */
  function TopLayer(c: Cst): nat {
    match c
    case Operand(_) => 9
    case Braces(_) => 9
    case Unary(_) => 7
    case Infix(_, t, _) => (match OperatorOf(t) case Some(op) => Layer(op) case None => 0)
  }

  predicate Proper(c: Cst) {
    match c
    case Operand(t) => IsOperandToken(t)
    case Braces(i) => Proper(i)
    case Unary(a) => Proper(a) && TopLayer(a) >= 7
    case Infix(l, t, r) =>
      match OperatorOf(t)
      case None => false
      case Some(op) => TypesOk(op, l, r) && Proper(l) && Proper(r) && TopLayer(l) >= Layer(op) && TopLayer(r) > Layer(op)
  }

  lemma {:induction false} LayersAgree(layer: nat, c: Cst)
    requires 1 <= layer <= 9
    ensures Derives(layer, c) <==> Proper(c) && TopLayer(c) >= layer
    decreases c, 9 - layer
  {
    hide SignOf, LayerOf, OperatorOf, Abstract, Precedence;
    if layer < 9 { LayersAgree(layer + 1, c); }
    match c
    case Operand(_) =>
    case Braces(i) =>
      LayersAgree(1, i);
      if Proper(i) { ProperLayer(i); }
    case Unary(a) => LayersAgree(7, a);
    case Infix(l, t, r) =>
      if layer < 9 { LayersAgree(layer, l); LayersAgree(layer + 1, r); }
      hide Layer;
      SignDecides(layer, t, c);
  }

  lemma SignDecides(layer: nat, t: Token, c: Cst)
    requires 1 <= layer <= 9
    ensures SignOf(layer, t).Some? <==> OperatorOf(t).Some? && Layer(OperatorOf(t).value) == layer
    ensures SignOf(layer, t).Some? ==> (layer == 8 <==> OperatorOf(t).value.Union?)
    ensures OperatorOf(t).Some? ==> 1 <= Layer(OperatorOf(t).value) <= 8
  {
    match OperatorOf(t)
    case Some(op) => TableIsGrammar(layer, t, op);
    case None => if SignOf(layer, t).Some? { TableIsGrammar(layer, t, SignOf(layer, t).value); }
  }

  lemma ProperLayer(c: Cst)
    requires Proper(c)
    ensures 1 <= TopLayer(c) <= 9
  {
  }

  // ----- completeness: the parser finds the tree of every derivation -----

  predicate Spells(ts: seq<Token>, p: nat, q: nat, c: Cst) {
    p <= q <= |ts| && ts[p..q] == Yield(c)
  }

  /** The precedence below which operators cannot split what `c` derives. */
  function Tightness(c: Cst): nat {
    match c
    case Operand(_) => 8
    case Braces(_) => 8
    case Unary(_) => 6
    case Infix(_, t, _) => (match OperatorOf(t) case Some(op) => Precedence(op) case None => 0)
  }

  /** What follows position `q` neither is a brace nor binds tighter than `limit`. */
  predicate Stops(ts: seq<Token>, q: nat, limit: nat) {
    PrecedenceAt(ts, q) <= limit && !(q < |ts| && ts[q].OpenBrace?)
  }

  lemma SplitInfix(ts: seq<Token>, p: nat, q: nat, c: Cst) returns (m: nat)
    requires c.Infix? && Spells(ts, p, q, c)
    ensures p <= m < q && Spells(ts, p, m, c.left) && ts[m] == c.sign && Spells(ts, m + 1, q, c.right)
  {
    m := p + |Yield(c.left)|;
    var y := Yield(c);
    assert ts[p..m] == ts[p..q][..m - p] == y[..m - p];
    assert ts[m] == ts[p..q][m - p];
    assert ts[m + 1..q] == ts[p..q][m + 1 - p..];
    assert y[m + 1 - p..] == Yield(c.right);
  }

  lemma SplitBraces(ts: seq<Token>, p: nat, q: nat, c: Cst)
    requires c.Braces? && Spells(ts, p, q, c)
    ensures p + 1 < q && ts[p] == OpenBrace && Spells(ts, p + 1, q - 1, c.inner) && ts[q - 1] == CloseBrace
  {
    var i := Yield(c.inner);
    var y := [OpenBrace] + i + [CloseBrace];
    assert ts[p] == ts[p..q][0] && ts[q - 1] == ts[p..q][q - 1 - p];
    forall k: nat | k < |i| ensures ts[p + 1..q - 1][k] == i[k] {
      assert ts[p..q][k + 1] == y[k + 1];
    }
  }

  lemma SplitUnary(ts: seq<Token>, p: nat, q: nat, c: Cst)
    requires c.Unary? && Spells(ts, p, q, c)
    ensures p < q && ts[p] == Minus && Spells(ts, p + 1, q, c.arg)
  {
    assert ts[p] == ts[p..q][0];
    assert ts[p + 1..q] == ts[p..q][1..];
    assert Yield(c)[1..] == Yield(c.arg);
  }

  /** A unary or primary derivation is parsed whole by `ParseUnary`. */
  lemma {:induction false} UnaryComplete(ts: seq<Token>, p: nat, q: nat, c: Cst)
    requires Proper(c) && !c.Infix? && Spells(ts, p, q, c) && Stops(ts, q, Tightness(c))
    ensures ParseUnary(ts, p) == Ok(Abstract(c), q)
    decreases c, 0
  {
    match c
    case Operand(t) =>
      assert ts[p] == ts[p..q][0];
    case Braces(i) =>
      SplitBraces(ts, p, q, c);
      ExpressionComplete(ts, p + 1, q - 1, i, 0);
    case Unary(a) =>
      SplitUnary(ts, p, q, c);
      ExpressionComplete(ts, p + 1, q, a, 7);
  }

  /** After the tokens of `c` the parser has exactly the tree of `c` as its left operand. */
  lemma {:induction false} ExpressionComplete(ts: seq<Token>, p: nat, q: nat, c: Cst, limit: nat)
    requires Proper(c) && Spells(ts, p, q, c) && Stops(ts, q, Tightness(c)) && limit <= 7
    requires c.Infix? ==> Tightness(c) >= limit
    ensures ParseExpression(ts, p, limit) == Climb(ts, q, Abstract(c), limit)
    decreases c, 1
  {
    hide Yield, ParseUnary, Climb, RightOperand, Tighter, Stops, Proper, TopLayer, Tightness;
    if c.Infix? {
      var m := SplitInfix(ts, p, q, c);
      InfixParts(ts, q, c);
      LeftStops(ts, m, c);
      ExpressionComplete(ts, p, m, c.left, limit);
      RightComplete(ts, m + 1, q, c.right, OperatorOf(c.sign).value);
      RightStops(ts, m, q, c);
      ClimbStep(ts, m, q, c, limit);
    } else {
      UnaryComplete(ts, p, q, c);
    }
  }

  lemma InfixParts(ts: seq<Token>, q: nat, c: Cst)
    requires Proper(c) && c.Infix? && Stops(ts, q, Tightness(c))
    ensures Proper(c.left) && Proper(c.right) && OperatorOf(c.sign).Some? && Stops(ts, q, Tightness(c.right))
    ensures TopLayer(c.left) >= TopLayer(c) && TopLayer(c.right) > Layer(OperatorOf(c.sign).value)
  {
    hide OperatorOf, Abstract, IsNodeSet;
  }

  lemma LeftStops(ts: seq<Token>, m: nat, c: Cst)
    requires Proper(c) && c.Infix? && m < |ts| && ts[m] == c.sign
    ensures Stops(ts, m, Tightness(c.left)) && (c.left.Infix? ==> Tightness(c.left) >= Tightness(c))
  {
    hide SignOf, LayerOf, Abstract, IsNodeSet, Yield, Derives;
  }

  lemma RightStops(ts: seq<Token>, m: nat, q: nat, c: Cst)
    requires Proper(c) && c.Infix? && m < q <= |ts| && Stops(ts, q, Tightness(c))
    requires RightOperand(ts, m + 1, OperatorOf(c.sign).value)
             == Tighter(ts, q, Abstract(c.right), OperatorOf(c.sign).value)
    ensures RightOperand(ts, m + 1, OperatorOf(c.sign).value) == Ok(Abstract(c.right), q)
  {
  }

  /** One round of the outer loop. */
  lemma ClimbStep(ts: seq<Token>, m: nat, q: nat, c: Cst, limit: nat)
    requires Proper(c) && c.Infix? && m < q <= |ts| && ts[m] == c.sign && Tightness(c) >= limit
    requires RightOperand(ts, m + 1, OperatorOf(c.sign).value) == Ok(Abstract(c.right), q)
    ensures Climb(ts, m, Abstract(c.left), limit) == Climb(ts, q, Abstract(c), limit)
  {
    assert OperatorAt(ts, m) == OperatorOf(c.sign);
    AbstractInfix(c.left, c.sign, c.right, OperatorOf(c.sign).value);
    hide Abstract, OperatorOf, RightOperand, Tighter, ParseUnary, ParseExpression;
  }

  /** The same for the inner loop, whose left operand is a right operand of `op`. */
  lemma {:induction false} RightComplete(ts: seq<Token>, p: nat, q: nat, c: Cst, op: Op)
    requires Proper(c) && Spells(ts, p, q, c) && Stops(ts, q, Tightness(c)) && TopLayer(c) > Layer(op)
    ensures RightOperand(ts, p, op) == Tighter(ts, q, Abstract(c), op)
    decreases c, 1
  {
    hide Yield, ParseUnary, ParseExpression, Climb, Tighter, Stops, Proper, TopLayer, Tightness;
    if c.Infix? {
      var m := SplitInfix(ts, p, q, c);
      InfixParts(ts, q, c);
      LeftStops(ts, m, c);
      RightComplete(ts, p, m, c.left, op);
      RightComplete(ts, m + 1, q, c.right, OperatorOf(c.sign).value);
      RightRound(ts, m, q, c, op);
    } else {
      UnaryComplete(ts, p, q, c);
    }
  }

  lemma RightRound(ts: seq<Token>, m: nat, q: nat, c: Cst, op: Op)
    requires Proper(c) && c.Infix? && m < q <= |ts| && ts[m] == c.sign && Stops(ts, q, Tightness(c))
    requires TopLayer(c) > Layer(op)
    requires RightOperand(ts, m + 1, OperatorOf(c.sign).value)
             == Tighter(ts, q, Abstract(c.right), OperatorOf(c.sign).value)
    ensures Tighter(ts, m, Abstract(c.left), op) == Tighter(ts, q, Abstract(c), op)
  {
    RightStops(ts, m, q, c);
    ClimbStep(ts, m, q, c, Tightness(c));
    TighterStep(ts, m, q, Abstract(c.left), Abstract(c), op);
  }

  /** One round of the inner loop: it hands the operator to `Climb`, which may go on past `q` just as the loop would. */
  lemma TighterStep(ts: seq<Token>, m: nat, q: nat, lhs: Ast, e: Ast, op: Op)
    requires m < q <= |ts| && Precedence(op) < PrecedenceAt(ts, m) && PrecedenceAt(ts, q) <= PrecedenceAt(ts, m)
    requires Climb(ts, m, lhs, PrecedenceAt(ts, m)) == Climb(ts, q, e, PrecedenceAt(ts, m))
    ensures Tighter(ts, m, lhs, op) == Tighter(ts, q, e, op)
  {
    TighterUnfold(ts, m, lhs, op);
    if PrecedenceAt(ts, q) < PrecedenceAt(ts, m) {
      ClimbStops(ts, q, e, PrecedenceAt(ts, m));
    } else {
      TighterUnfold(ts, q, e, op);
    }
  }

  lemma ClimbStops(ts: seq<Token>, q: nat, lhs: Ast, limit: nat)
    requires q <= |ts| && PrecedenceAt(ts, q) < limit
    ensures Climb(ts, q, lhs, limit) == Ok(lhs, q)
  {
  }

  lemma TighterUnfold(ts: seq<Token>, pos: nat, rhs: Ast, op: Op)
    requires pos <= |ts|
    ensures var k := PrecedenceAt(ts, pos);
            Tighter(ts, pos, rhs, op)
            == if k <= Precedence(op) then Ok(rhs, pos)
               else match Climb(ts, pos, rhs, k) case Error => Error case Ok(n, p) => Tighter(ts, p, n, op)
  {
  }

  /** The parser accepts whatever the grammar derives, and builds the derivation's tree. */
  lemma ParseComplete(c: Cst)
    requires Derives(1, c)
    ensures Parse(Yield(c)) == Some(Abstract(c))
  {
    var ts := Yield(c);
    LayersAgree(1, c);
    assert ts[0..|ts|] == ts;
    ExpressionComplete(ts, 0, |ts|, c, 0);
  }

  // ----- soundness: what the parser builds has a derivation, and it stops only where no operator follows -----

  ghost predicate IsDerivationOf(ts: seq<Token>, p: nat, q: nat, c: Cst, e: Ast) {
    Proper(c) && Spells(ts, p, q, c) && Abstract(c) == e
  }

  /** `c` may be the left operand of whatever operator comes next. */
  ghost predicate Extensible(ts: seq<Token>, q: nat, c: Cst) {
    PrecedenceAt(ts, q) <= Tightness(c)
  }

  lemma {:induction false} UnarySound(ts: seq<Token>, p: nat) returns (c: Cst)
    requires ParseUnary(ts, p).Ok?
    ensures var r := ParseUnary(ts, p);
            IsDerivationOf(ts, p, r.pos, c, r.tree) && !c.Infix? && Extensible(ts, r.pos, c)
    decreases |ts| - p, 0
  {
    hide Yield, Spells, ParseExpression, Climb, RightOperand, Tighter;
    var r := ParseUnary(ts, p);
    if ts[p].OpenBrace? {
      var i := ExpressionSound(ts, p + 1, 0);
      c := Braces(i);
      BracesSpell(ts, p, r.pos, i);
    } else if ts[p].Minus? {
      var a := ExpressionSound(ts, p + 1, 7);
      c := Unary(a);
      UnarySpells(ts, p, r.pos, a);
    } else {
      c := Operand(ts[p]);
      OperandSpells(ts, p);
    }
  }

  lemma BracesSpell(ts: seq<Token>, p: nat, q: nat, i: Cst)
    requires p + 1 < q <= |ts| && ts[p] == OpenBrace && Spells(ts, p + 1, q - 1, i) && ts[q - 1] == CloseBrace
    ensures Spells(ts, p, q, Braces(i))
  {
    assert ts[p..q] == [ts[p]] + ts[p + 1..q - 1] + [ts[q - 1]];
  }

  lemma UnarySpells(ts: seq<Token>, p: nat, q: nat, a: Cst)
    requires p < |ts| && ts[p] == Minus && Spells(ts, p + 1, q, a)
    ensures Spells(ts, p, q, Unary(a))
  {
    assert ts[p..q] == [ts[p]] + ts[p + 1..q];
  }

  lemma OperandSpells(ts: seq<Token>, p: nat)
    requires p < |ts|
    ensures Spells(ts, p, p + 1, Operand(ts[p]))
  {
    assert ts[p..p + 1] == [ts[p]];
  }

  lemma {:induction false} ExpressionSound(ts: seq<Token>, p: nat, limit: nat) returns (c: Cst)
    requires ParseExpression(ts, p, limit).Ok?
    ensures var r := ParseExpression(ts, p, limit);
            && IsDerivationOf(ts, p, r.pos, c, r.tree)
            && (c.Infix? ==> Tightness(c) >= limit)
            && (limit > 0 ==> PrecedenceAt(ts, r.pos) < limit)
            && (OperatorAt(ts, r.pos).Some? ==> PrecedenceAt(ts, r.pos) < limit)
    decreases |ts| - p, 3
  {
    var u := UnarySound(ts, p);
    var r := ParseUnary(ts, p);
    c := ClimbSound(ts, p, r.pos, u, limit);
  }

  lemma {:induction false} ClimbSound(ts: seq<Token>, p: nat, q: nat, l: Cst, limit: nat) returns (c: Cst)
    requires Proper(l) && Spells(ts, p, q, l) && Extensible(ts, q, l) && Climb(ts, q, Abstract(l), limit).Ok?
    ensures var r := Climb(ts, q, Abstract(l), limit);
            && IsDerivationOf(ts, p, r.pos, c, r.tree)
            && (c == l || (c.Infix? && Tightness(c) >= limit))
            && Extensible(ts, r.pos, c)
            && (limit > 0 ==> PrecedenceAt(ts, r.pos) < limit)
            && (OperatorAt(ts, r.pos).Some? ==> PrecedenceAt(ts, r.pos) < limit)
    decreases |ts| - q, 1
  {
    hide Yield, Proper, Spells, ParseUnary, ParseExpression, RightOperand, Tighter, Abstract, OperatorOf, IsNodeSet;
    SpellsWithin(ts, p, q, l);
    match OperatorAt(ts, q)
    case None => c := l;
    case Some(op) =>
      if Precedence(op) < limit {
        c := l;
      } else {
        var rhs := RightSound(ts, q + 1, op);
        var r := RightOperand(ts, q + 1, op);
        var next := Infix(l, ts[q], rhs);
        InfixProper(ts, q, l, op, rhs);
        AbstractInfix(l, ts[q], rhs, op);
        InfixSpells(ts, p, q, r.pos, l, rhs);
        c := ClimbSound(ts, p, r.pos, next, limit);
      }
  }

  lemma SpellsWithin(ts: seq<Token>, p: nat, q: nat, c: Cst)
    requires Spells(ts, p, q, c)
    ensures p <= q <= |ts|
  {
  }

  lemma InfixSpells(ts: seq<Token>, p: nat, q: nat, r: nat, left: Cst, right: Cst)
    requires q < |ts| && Spells(ts, p, q, left) && Spells(ts, q + 1, r, right)
    ensures Spells(ts, p, r, Infix(left, ts[q], right))
  {
    assert ts[p..r] == ts[p..q] + [ts[q]] + ts[q + 1..r];
  }

  lemma InfixProper(ts: seq<Token>, q: nat, l: Cst, op: Op, r: Cst)
    requires q < |ts| && OperatorOf(ts[q]) == Some(op) && Extensible(ts, q, l) && TypesOk(op, l, r)
    requires Proper(l) && Proper(r) && (r.Infix? ==> Tightness(r) > Precedence(op))
    ensures Proper(Infix(l, ts[q], r))
  {
    hide SignOf, LayerOf, Yield, Derives;
  }

  lemma {:induction false} RightSound(ts: seq<Token>, p: nat, op: Op) returns (c: Cst)
    requires RightOperand(ts, p, op).Ok?
    ensures var r := RightOperand(ts, p, op);
            && IsDerivationOf(ts, p, r.pos, c, r.tree)
            && (c.Infix? ==> Tightness(c) > Precedence(op))
            && PrecedenceAt(ts, r.pos) <= Precedence(op)
    decreases |ts| - p, 4
  {
    var u := UnarySound(ts, p);
    c := TighterSound(ts, p, ParseUnary(ts, p).pos, u, op);
  }

  lemma {:induction false} TighterSound(ts: seq<Token>, p: nat, q: nat, l: Cst, op: Op) returns (c: Cst)
    requires Proper(l) && Spells(ts, p, q, l) && Extensible(ts, q, l) && Tighter(ts, q, Abstract(l), op).Ok?
    requires l.Infix? ==> Tightness(l) > Precedence(op)
    ensures var r := Tighter(ts, q, Abstract(l), op);
            && IsDerivationOf(ts, p, r.pos, c, r.tree)
            && (c.Infix? ==> Tightness(c) > Precedence(op))
            && PrecedenceAt(ts, r.pos) <= Precedence(op)
    decreases |ts| - q, 2
  {
    var k := PrecedenceAt(ts, q);
    if k > Precedence(op) {
      var d := ClimbSound(ts, p, q, l, k);
      c := TighterSound(ts, p, Climb(ts, q, Abstract(l), k).pos, d, op);
    } else {
      c := l;
    }
  }

  /** Whatever the parser accepts has a derivation in the grammar, and the tree built is that derivation's. */
  lemma ParseSound(ts: seq<Token>) returns (c: Cst)
    requires Parse(ts).Some?
    ensures Derives(1, c) && Yield(c) == ts && Abstract(c) == Parse(ts).value
  {
    c := ExpressionSound(ts, 0, 0);
    assert ts[0..|ts|] == ts;
    ProperLayer(c);
    LayersAgree(1, c);
  }

  /** The parser accepts exactly the grammar's sentences. */
  lemma ParserIsTheGrammar(ts: seq<Token>)
    ensures Parse(ts).Some? <==> exists c :: Derives(1, c) && Yield(c) == ts
  {
    if Parse(ts).Some? {
      var c := ParseSound(ts);
    } else if c :| Derives(1, c) && Yield(c) == ts {
      ParseComplete(c);
    }
  }

  /** Two derivations of the same tokens stand for the same tree: the grammar is unambiguous. */
  lemma OneTreePerSentence(c: Cst, d: Cst)
    requires Derives(1, c) && Derives(1, d) && Yield(c) == Yield(d)
    ensures Abstract(c) == Abstract(d)
  {
    ParseComplete(c);
    ParseComplete(d);
  }
}
