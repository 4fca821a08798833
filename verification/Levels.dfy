/** The levels of precedence, loosest first, and what they do to two operators in a row. */
module Levels {
  import opened Ast
  import opened Grouping

  predicate OnLevel(op: Op, k: nat) {
    match k
    case 1 => op.Comma?
    case 2 =>
      || op.Assign? || op.PlusAssign? || op.MinusAssign? || op.TimesAssign? || op.DivideAssign? || op.ModAssign?
      || op.BitAndAssign? || op.BitXorAssign? || op.BitOrAssign? || op.ShiftLeftAssign? || op.ShiftRightAssign?
    case 3 => op.LogicalOr?
    case 4 => op.LogicalAnd?
    case 5 => op.BitOr?
    case 6 => op.BitXor?
    case 7 => op.BitAnd?
    case 8 => op.Equal? || op.NotEqual?
    case 9 => op.Less? || op.LessEqual? || op.Greater? || op.GreaterEqual?
    case 10 => op.ShiftLeft? || op.ShiftRight?
    case 11 => op.Plus? || op.Minus?
    case 12 => op.Times? || op.Divide? || op.Mod?
    case 13 => op.Positive? || op.Negative? || op.PreIncr? || op.PreDecr? || op.Compl? || op.Not?
    case 14 => op.PostIncr? || op.PostDecr?
    case _ => false
  }

  /** Every operator stands on exactly one level, the one its precedence says. */
  lemma LevelOf(op: Op, k: nat)
    ensures OnLevel(op, k) <==> Precedence(op) == k
  {
    LevelHas(op);
  }

  lemma LevelHas(op: Op)
    ensures OnLevel(op, Precedence(op))
  {}

  /** Unary tokens are those of the last two levels. */
  lemma UnaryLevels(op: Op)
    ensures IsUnaryOp(op) <==> OnLevel(op, 13) || OnLevel(op, 14)
  {
    LevelOf(op, 13);
    LevelOf(op, 14);
  }

  /** Main result: of two operators in a row the second one is applied first exactly
      when its level is the later one. */
  lemma TwoOperators<T>(f: (Op, T, T) -> T, x: T, a: Item<T>, b: Item<T>, j: nat, k: nat)
    requires OnLevel(a.op, j) && OnLevel(b.op, k)
    ensures Group(f, x, [a] + [b])
         == if k > j then f(a.op, x, f(b.op, a.val, b.val)) else f(b.op, f(a.op, x, a.val), b.val)
  {
    LevelOf(a.op, j);
    LevelOf(b.op, k);
    One(f, x, a);
    One(f, a.val, b);
    if k > j {
      GroupHead(f, x, a, [b]);
    } else {
      GroupPrefix(f, x, [a], [b]);
      One(f, f(a.op, x, a.val), b);
    }
  }

  lemma One<T>(f: (Op, T, T) -> T, x: T, a: Item<T>)
    ensures Group(f, x, [a]) == f(a.op, x, a.val)
  {
    assert [a] == [a] + [];
    GroupHead(f, x, a, []);
  }
}
