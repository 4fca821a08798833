/** The PhySL abstract syntax tree, without source tags, and the small
    questions the rewriter asks of it (placeholder?  identifier?  which
    expression hides behind redundant parentheses?). */
module Ast {
  import opened Basics

  /** The operator tokens of `optoken`; `op_unknown` never reaches the
      precedence table and is left out. */
  datatype Op =
    | Comma
    | Assign | PlusAssign | MinusAssign | TimesAssign | DivideAssign | ModAssign
    | BitAndAssign | BitXorAssign | BitOrAssign | ShiftLeftAssign | ShiftRightAssign
    | LogicalOr
    | LogicalAnd
    | BitOr
    | BitXor
    | BitAnd
    | Equal | NotEqual
    | Less | LessEqual | Greater | GreaterEqual
    | ShiftLeft | ShiftRight
    | Plus | Minus
    | Times | Divide | Mod
    | Positive | Negative | PreIncr | PreDecr | Compl | Not
    | PostIncr | PostDecr

  const MAX_PRECEDENCE := 14

  function Precedence(op: Op): (p: nat)
    ensures 1 <= p <= MAX_PRECEDENCE
  {
    match op
    case Comma => 1
    case Assign | PlusAssign | MinusAssign | TimesAssign | DivideAssign | ModAssign
       | BitAndAssign | BitXorAssign | BitOrAssign | ShiftLeftAssign | ShiftRightAssign => 2
    case LogicalOr => 3
    case LogicalAnd => 4
    case BitOr => 5
    case BitXor => 6
    case BitAnd => 7
    case Equal | NotEqual => 8
    case Less | LessEqual | Greater | GreaterEqual => 9
    case ShiftLeft | ShiftRight => 10
    case Plus | Minus => 11
    case Times | Divide | Mod => 12
    case Positive | Negative | PreIncr | PreDecr | Compl | Not => 13
    case PostIncr | PostDecr => 14
  }

  /** Unary tokens are exactly those that bind tighter than every binary one. */
  predicate IsUnaryOp(op: Op) {
    Precedence(op) >= 13
  }

  datatype Literal = BoolLit(b: bool) | DoubleLit(x: real) | IntLit(i: int) | ByteLit(n: nat)

  datatype Primary =
    | NilPrimary
    | Lit(value: Literal)
    | Id(name: string)
    | Str(text: string)
    | Paren(e: Expr)
    | Apply(call: Call)
    | List(es: seq<Expr>)

  datatype Operand = NilOperand | Prim(p: Primary) | Un(u: Unary)

  datatype Unary = Unary(op: Op, arg: Operand)

  datatype Operation = Operation(op: Op, arg: Operand)

  /** A flat list: operator precedence alone decides how it groups. */
  datatype Expr = Expr(first: Operand, rest: seq<Operation>)

  datatype Call = Call(name: string, attr: string, args: seq<Expr>)

  /** The conversions `expression(ast)` that wrap a smaller node. */
  function OfOperand(o: Operand): Expr { Expr(o, []) }

  function OfPrimary(p: Primary): Expr { Expr(Prim(p), []) }

  function OfId(name: string): Expr { OfPrimary(Id(name)) }

  lemma ArgSmaller(op: Operation)
    ensures op.arg < op
  {}

  // ---------------------------------------------------------------------
  // Names

  /** `_` followed by a digit, or `__` followed by a digit. */
  predicate IsPlaceholderName(s: string) {
    |s| >= 2 && s[0] == '_' &&
    (IsDigit(s[1]) || (|s| > 2 && s[1] == '_' && IsDigit(s[2])))
  }

  predicate IsEllipsisName(s: string) {
    |s| > 2 && s[0] == '_' && s[1] == '_' && IsDigit(s[2])
  }

  /** A placeholder starts with one underscore or two, and then a digit; an ellipsis
      with two. */
  lemma NameShapes(s: string)
    ensures IsPlaceholderName(s) <==> exists d, t :: IsDigit(d) && (s == "_" + [d] + t || s == "__" + [d] + t)
    ensures IsEllipsisName(s) <==> exists d, t :: IsDigit(d) && s == "__" + [d] + t
  {
    if |s| >= 2 && s[0] == '_' && IsDigit(s[1]) { assert s == "_" + [s[1]] + s[2..]; }
    if IsEllipsisName(s) { assert s == "__" + [s[2]] + s[3..]; }
  }

  // ---------------------------------------------------------------------
  // Looking through redundant parentheses

  /** The operand left when parentheses around a single operand are peeled off. */
  function Core(o: Operand): (c: Operand)
    ensures c == o || c < o
    ensures c.Prim? && c.p.Paren? ==> c.p.e.rest != []
  {
    if o.Prim? && o.p.Paren? && o.p.e.rest == [] then Core(o.p.e.first) else o
  }

  /** A string literal spelled like a placeholder counts as one. */
  predicate IsPlaceholder(o: Operand) {
    match Core(o)
    case Prim(Id(n)) => IsPlaceholderName(n)
    case Prim(Str(s)) => IsPlaceholderName(s)
    case _ => false
  }

  predicate IsEllipsis(o: Operand) {
    match Core(o)
    case Prim(Id(n)) => IsEllipsisName(n)
    case Prim(Str(s)) => IsEllipsisName(s)
    case _ => false
  }

  function PlaceholderId(o: Operand): string {
    match Core(o)
    case Prim(Id(n)) => n
    case Prim(Str(s)) => s
    case _ => ""
  }

  /** String literals have no identifier name. */
  function IdentifierName(o: Operand): string {
    match Core(o)
    case Prim(Id(n)) => n
    case _ => ""
  }

  predicate IsIdentifier(o: Operand) {
    Core(o).Prim? && Core(o).p.Id? && Core(o).p.name != ""
  }

  predicate ExprIsPlaceholder(e: Expr) { e.rest == [] && IsPlaceholder(e.first) }

  predicate ExprIsEllipsis(e: Expr) { e.rest == [] && IsEllipsis(e.first) }

  predicate ExprIsIdentifier(e: Expr) { e.rest == [] && IsIdentifier(e.first) }

  function ExprName(e: Expr): string {
    if e.rest == [] then IdentifierName(e.first) else ""
  }

  function ExprPlaceholderId(e: Expr): string {
    if e.rest == [] then PlaceholderId(e.first) else ""
  }

  /** `extract_expression`: the innermost expression behind redundant parentheses. */
  function Extract(e: Expr): (r: Expr)
    ensures r == e || r < e
    ensures r.rest == [] ==> !(r.first.Prim? && r.first.p.Paren?)
  {
    if e.rest == [] && e.first.Prim? && e.first.p.Paren? then Extract(e.first.p.e) else e
  }

  /** An operand that is a parenthesised list of two or more operands. */
  predicate IsCompound(o: Operand) {
    Core(o).Prim? && Core(o).p.Paren?
  }
}
