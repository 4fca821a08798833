# Phylanx: the expression rewriter, tiled data and small codecs, verified

Phylanx compiles PhySL programs into expression trees, rewrites them, and runs
them on data that is cut into tiles and spread over localities.  This project
models the parts of it that are algorithms, in the form the C++ code has (loops
over iterators are loops, classes are classes, recursion over the tree is
recursion), and proves what they are for.

**The rewriter** (`Ast` to `WrongRewrites`).  A PhySL expression is a flat list:
one operand, then pairs of an operator and an operand.  Operator precedence
alone says what it means.  `Grouping.Group` is the one definition of that
meaning; evaluation, postfix order and the token lists of a traversal are all
instances of it.  One lemma, `Grouping.Collapse`, carries everything else: a
maximal run of operators tighter than the one before it may be collapsed to a
single operand.  On top of it:

- traversing an expression emits a postfix program that a stack machine runs to
  exactly one value, the value of the list's unique precedence tree;
- the nested precedence climbing of the matcher, with two shared iterators and
  a multimap, terminates and computes a plain left-to-right walk, ellipses and
  placeholders on either side included;
- `MatchShape.FacedExpr` says, from subject and pattern alone, what each
  placeholder faces; a match gives the pattern the subject's value where, and in
  an injective model only where, the placeholders have the values of what they
  face; the loop that substitutes
  one name at a time is simultaneous substitution; simplifying keeps the value
  and settles after two passes; so rewriting with valid rules keeps the value, at
  any depth, for lists of rules;
- matching also succeeds where it should: a pattern matches something exactly when
  it is `Live`, every instance of it then matches, and rewriting turns the instance
  of a rule's left side into that of its right side; whatever the rule, the result
  has the value read off the subject with every outermost match replaced.

Values are taken in an arbitrary model: operators, literals, calls and lists
are uninterpreted, calls are pure.

**Distributed data** (`Tiling`, `Strips`, `Retile`, `PartCache`, `ByteCounter`).  When end
points alone show that spans cover an axis, and when tiles cover a box; the
retiling of a vector rebuilds exactly the wanted slice; the cache of part ids
that gives its lock up while it waits, and the byte counter updated by
completion callbacks, as state machines over every interleaving.

**Ranges, slices and codecs** (`Ranges`, `Slices`, `Base64`, `Annotation`).  Iterators,
closed-form sizes and index lists enumerate the same numbers under truncating
division; base 64 decoding inverts section 4 of RFC 4648; the
`name/generation` text of annotations reads back.

## Where the code does not do what one might expect

Each of these is proved, and so is the exact condition.

- `extract_subexpression` steps over operators that follow a parenthesised
  operand without keeping them (`match_ast.hpp:401-416`).  `Outcome.lost` records
  them; they are lost exactly when some placeholder of the pattern faces a
  parenthesised list before a tighter operator (`MatchShape.LosesNothing`).
  `WrongRewrites.RewritingCanLoseAnOperator` turns 25 into 7 with a rule of
  ordinary arithmetic.
- What a repeated placeholder is bound to is never compared
  (`WrongRewrites.RepeatedNamesAreNotCompared`).
- For both together, and for every pattern, linear or not: a match preserves
  meaning if and only if it is `Faithful`, that is, every occurrence of a
  placeholder faces what its name was first bound to, up to parentheses and
  grouping, lost operators included (`MatchExact.MatchExactness`).  With
  consistent bindings, and so for linear patterns, that is the same as losing
  nothing (`MatchExact.ConsistentExactness`); in general neither implies the other
  (`WrongRewrites.LossCanBeHarmless`, `WrongRewrites.RepeatedNamesAreNotCompared`),
  and bindings may differ and still be harmless (`WrongRewrites.ParenthesesAreHarmless`).
- Rewriting with a linear rule whose sides weigh the same, for some choice of the
  weights of operators, calls, names and literals, preserves meaning if and only
  if every match on the way is faithful, at any depth and for lists of rules
  (`TransformExact.TransformExactness`, `TransformExact.RulesExactness`): what is
  lost in one place is not made up for in another.
- One pass of `simplify` can leave parentheses that a second pass removes
  (`SimplifySound.OnePassIsNotEnough`); it is enough if and only if no operand in
  operator position is a unary expression in two or more pairs of parentheses
  (`SimplifySound.OnePassIsEnough`).
- An ellipsis takes all that is left and never moves on, so whatever stands after
  it in an argument list is not compared (`Ellipses.EllipsisArgs`); `A + __1` does
  not match `A` alone (`Placeholders.SizesMustAgree`).
- A pattern with a placeholder before a tighter operator matches nothing, nor does
  one with a literal: exactly the live patterns match
  (`MatchComplete.LiveMatchesSomething`).
- Nothing clips a slice to the elements there are (`Slices.StopsAreNotClipped`);
  it stays within them exactly when its ends do (`Slices.EndsDecide`).
- `range::size` is one short for negative steps that do not divide the distance,
  and only then (`Ranges.RangeSizeIsCount`).
- `slicing_size` and `extract_slicing(...).size()` differ on lists of one entry
  below -1, and on `[nil]` (`Ranges.SizesAgree`).
- A negative generation is not read back (`Annotation.NameRoundTrip`).
- Validating every axis by itself leaves holes (`Tiling.AxesAloneLeaveHoles`).
  Tiles fill the box if and only if every corner lies in some tile, a corner
  being one of finitely many cells (`Tiling.CornersDecide`); validated axes and one
  of the tiled predicates are enough (`Tiling.EveryCellHasATile`).
- A retiling target that reaches beyond the vector is not rejected; the cells
  beyond it keep whatever they held, modelled as `Unset` (`Retile.Retile1d`).

## Vocabulary of the rewriting theorems

`Fits(e, Subject)`: no placeholder names (as identifiers, string literals or
function names), no empty function names, no call attributes; calls are rebuilt
without their attribute (`transform_ast.cpp:189`, `:324`, `:502`).
`Fits(e, Pattern)`: no ellipses, no string literal spelled like a placeholder, no
attributes; placeholders may be repeated and may stand in function position.
`Valid(m, rule)`: both sides have the same value in the model `m`, whatever the
placeholders stand for.  `Safe(e, rule)`: every match that rewriting makes is
`Faithful`; it is decidable, and implied by `Linear(rule.lhs)` and
`TightFree(e, Compounds)`: no parenthesised list before a tighter operator.

## Model

| member | source | states |
|---|---|---|
| Ast.Extract | phylanx/ast/match_ast.hpp:486-508 | peeling parentheses stops at an expression that is not a single parenthesised one |
| Ast.Core | phylanx/ast/match_ast.hpp:418-453 | the operand seen through redundant parentheses; it is a list only if the list has an operator |
| Ast.NameShapes | phylanx/ast/detail/is_placeholder.hpp:30-50 | a placeholder is one underscore or two and a digit, and then anything; an ellipsis has two |
| Grouping.Lowest | src/ast/node.cpp:27-102 | finds the rightmost operator of lowest precedence, the one a left-associative list applies last |
| Grouping.GroupPrefix | phylanx/ast/traverse.hpp:281-305 | a prefix at least as tight as what follows may be grouped first |
| Grouping.Collapse | phylanx/ast/match_ast.hpp:378-456 | the grouping lemma: a maximal run tighter than the operator before it may be replaced by its value, anywhere in the list |
| PrecedenceTree.TreeExists | phylanx/ast/node.hpp:586-699 | every flat list has a tree whose tighter operators sit deeper and whose equal ones associate to the left |
| PrecedenceTree.TreeUnique | phylanx/ast/node.hpp:586-699 | and only one |
| PrecedenceTree.TreeValue | phylanx/ast/node.hpp:586-699 | whose value is the value of the list |
| Levels.LevelOf | src/ast/node.cpp:27-95 | every operator stands on exactly one of fourteen levels, which are listed in order |
| Levels.UnaryLevels | src/ast/node.cpp:83-93 | unary tokens are those of the two tightest levels |
| Levels.TwoOperators | src/ast/node.cpp:27-95 | of two operators in a row the second is applied first if and only if its level is the tighter one |
| Semantics.EvalCore | phylanx/ast/match_ast.hpp:418-453 | parentheses around one operand do not change its value |
| Semantics.EvalExtract | phylanx/ast/match_ast.hpp:501-508 | nor does `extract_expression` change the value of an expression |
| Traverse.TraverseExpression | phylanx/ast/traverse.hpp:271-308 | precedence climbing emits the grouped tokens of exactly the operations it consumes, stops at the first looser one, and each nested call's minimum lies above its caller's, so nesting never exceeds the precedence levels |
| Traverse.TraverseTighter | phylanx/ast/traverse.hpp:292-298 | the inner loop consumes the maximal tighter run and emits its grouping |
| Traverse.TraverseExpr | phylanx/ast/traverse.hpp:311-329 | a whole expression: the list is consumed to its end and comes out in postfix order |
| Traverse.TraverseOperand | phylanx/ast/traverse.hpp:246-266 | unary operators come after their operand; calls visit name, attribute if any, and arguments in order |
| Traverse.TraverseArgs | phylanx/ast/traverse.hpp:358-374 | the elements of a list, in order |
| Traverse.PostfixEvaluates | phylanx/ast/traverse.hpp:311-329 | running the emitted tokens on any stack leaves exactly one more value: the value of the expression |
| Visits.VisitsInOrder | phylanx/ast/traverse.hpp:271-308 | operands of a flat list are visited once each in source order, operators once each |
| Visits.VisitsAll | phylanx/ast/traverse.hpp:246-374 | a whole expression, calls and nested lists included: its leaves are visited in the order they stand, all its operators exactly once |
| MatchLoops.SkipRun | phylanx/ast/match_ast.hpp:401-416 | the loop that steps over a run stops exactly where the run ends |
| MatchLoops.AppendRun | phylanx/ast/match_ast.hpp:378-390 | the loop that appends a run keeps all of it and moves the iterator past it |
| MatchLoops.ExtractSubexpression | phylanx/ast/match_ast.hpp:378-456 | through any number of parentheses: the value of the run as the source computes it, lost operators included, and the iterator past it |
| MatchLoops.TryExpression | phylanx/ast/match_ast.hpp:511-607 | nested precedence climbing over two shared iterators and a multimap equals one plain walk; terminates and stays in bounds for every input, ellipses included |
| MatchLoops.MatchPair | phylanx/ast/match_ast.hpp:575-597 | operands first, then everything tighter that follows, operators last: the same as comparing pair by pair |
| MatchLoops.TakeFromSubject | phylanx/ast/match_ast.hpp:552-573 | a pattern placeholder takes a maximal run of the subject; both iterators move, or matching ends |
| MatchLoops.TakeFromPattern | phylanx/ast/match_ast.hpp:531-551 | the same the other way round |
| MatchLoops.TryExpr | phylanx/ast/match_ast.hpp:610-648 | matching two expressions fills the multimap with exactly the bindings of the specification, in its order |
| MatchLoops.TryOperand | phylanx/ast/match_ast.hpp:306-346 | operands and unary expressions |
| MatchLoops.TryPrimary | phylanx/ast/match_ast.hpp:228-292 | primary expressions; literals never match literals |
| MatchLoops.TryId | phylanx/ast/match_ast.hpp:214-225 | identifiers match when equal or when one is a placeholder |
| MatchLoops.TryCall | phylanx/ast/match_ast.hpp:663-716 | calls: an ellipsis stays while the other argument list advances |
| MatchLoops.TryLists | phylanx/ast/match_ast.hpp:731-750 | lists of equal length, element by element |
| MatchComplete.MatchedIsLive | phylanx/ast/match_ast.hpp:83-87 | nil, literals, unnamed functions and placeholders before a tighter operator match nothing |
| MatchComplete.InstanceMatches | phylanx/ast/match_ast.hpp:610-716 | every instance of a live pattern matches it, calls, lists, unary operands and function placeholders included, and loses nothing |
| MatchComplete.LiveMatchesSomething | phylanx/ast/match_ast.hpp:610-716 | a pattern matches some subject if and only if it is live |
| Instances.InstanceBinds | phylanx/ast/match_ast.hpp:34-80 | matching an instance binds every placeholder to something of the value, or name, it was filled with |
| Instances.InstanceIsRewritten | src/ast/transform_ast.cpp:506-539 | rewriting an instance of the left side gives, in every model, the value of the same instance of the right side |
| Ellipses.ArgsMatchInPairs | phylanx/ast/match_ast.hpp:663-716 | without ellipses, arguments match if and only if they are as many and match one for one, and bind in that order |
| Ellipses.EllipsisArgs | phylanx/ast/match_ast.hpp:673-713 | arguments match patterns followed by an ellipsis if and only if they are at least as many and the first ones match; each of the others is bound to the ellipsis, in order; what follows the ellipsis does not matter |
| Ellipses.EllipsisCall | phylanx/ast/match_ast.hpp:663-716 | the same for calls, whatever their attributes |
| Ellipses.SubjectEllipsisTakesAll | phylanx/ast/match_ast.hpp:677-685 | an ellipsis in the subject takes every argument of the pattern |
| Ellipses.EllipsisWalk | phylanx/ast/match_ast.hpp:552-573 | an ellipsis after an operator takes one run after the other if and only if no other operator is as loose; what follows it must be another ellipsis |
| Ellipses.EllipsisEnds | phylanx/ast/match_ast.hpp:599-606 | in a list that has begun it also takes nothing at all |
| Ellipses.EllipsisName | phylanx/ast/match_ast.hpp:49-53 | it binds under the name of a placeholder: `__1` binds `_1` |
| Placeholders.ExprMirrors | phylanx/ast/match_ast.hpp:610-625 | whichever side is a placeholder gets the other |
| Placeholders.WalkMirrors | phylanx/ast/match_ast.hpp:531-573 | placeholders among the subject's operations take runs of the pattern just so |
| Placeholders.SubjectSideWins | phylanx/ast/match_ast.hpp:46-60 | of two placeholders the subject's is bound |
| Placeholders.StringsArePlaceholders | phylanx/ast/detail/is_placeholder.hpp:30-54 | a string literal spelled like a placeholder takes an expression like one |
| Placeholders.NilIsNotTaken | phylanx/ast/match_ast.hpp:83-87 | nil is taken as a whole expression, but not as an operand |
| Placeholders.SizesMustAgree | phylanx/ast/match_ast.hpp:637-641 | a single operand and a list of two or more never match, not even with an ellipsis |
| MatchShape.RunKeepsAll | phylanx/ast/match_ast.hpp:401-416 | without a tighter operator after a parenthesised list, the stepping loop steps over nothing, and what is left is such a list again |
| MatchShape.ExprShape | phylanx/ast/match_ast.hpp:34-80 | the bindings are the pattern's placeholders one for one in order, each bound to what it faces less what is stepped over, and nothing else is lost |
| MatchShape.LosesNothing | phylanx/ast/match_ast.hpp:401-416 | a match loses operators if and only if some placeholder faces a parenthesised list before a tighter operator, which is read off subject and pattern |
| MatchSound.CollapseRun | phylanx/ast/match_ast.hpp:552-573 | grouping the run a placeholder faces before the rest does not change the value of the list |
| MatchSound.RegroupedKeeps | phylanx/ast/match_ast.hpp:511-607 | nor does doing so for all placeholders of a matched pattern |
| MatchSound.GroupInjective | phylanx/ast/node.hpp:586-699 | in an injective model a flat list can be read off its value |
| MatchSound.WalkExact | phylanx/ast/match_ast.hpp:511-607 | after a successful walk the pattern's operations have the values of the regrouped ones if, and in an injective model only if, placeholders agree with what they face |
| MatchSound.ExprExact | phylanx/ast/match_ast.hpp:610-648 | the same for expressions, in every model and every environment |
| FreeModel.ExprFactors | phylanx/ast/node.hpp:586-699 | every model is an image of the model of terms, so what has one value there has one value everywhere |
| MatchExact.LinearIsConsistent | phylanx/ast/match_ast.hpp:34-80 | a pattern that names no placeholder twice binds consistently |
| MatchExact.MatchPreserves | phylanx/ast/match_ast.hpp:610-648 | substituting the recorded bindings into the pattern gives the subject's value in every model, if the match is faithful |
| MatchExact.MatchExactness | phylanx/ast/match_ast.hpp:610-648 | if and only if it is, for every pattern, repeated placeholders included |
| MatchExact.ConsistentExactness | phylanx/ast/match_ast.hpp:401-416 | with consistent bindings, faithful means that nothing was lost, which means that no placeholder faces a parenthesised list before a tighter operator |
| Weighing.ExprExcess | phylanx/ast/match_ast.hpp:511-607 | whatever operators, calls and leaves weigh, the subject outweighs the matched pattern by what its placeholders face in excess of what they stand for |
| Weighing.MatchLoses | phylanx/ast/match_ast.hpp:511-607 | with consistent bindings, by exactly the lost operations |
| Rewrite.ApplyBindings | src/ast/transform_ast.cpp:530-535 | the loop over the multimap substitutes one binding after the other |
| Rewrite.ApplyRule | src/ast/transform_ast.cpp:506-539 | match at the root, or else recurse; then simplify |
| Rewrite.ApplyRules | src/ast/transform_ast.cpp:556-571 | each rule on the result of the one before |
| Rewrite.ApplyRulesToAll | src/ast/transform_ast.cpp:573-585 | each expression of a program by itself, in order |
| RewriteSound.InsertSorted | phylanx/ast/match_ast.hpp:38-41 | the multimap stays ordered by name |
| RewriteSound.NameLessIsLexical | phylanx/ast/match_ast.hpp:38-41 | that order is the one of dictionaries |
| RewriteSound.NameLessIsTotal | phylanx/ast/match_ast.hpp:38-41 | and total |
| RewriteSound.InsertAllKeepsFirst | phylanx/ast/match_ast.hpp:38-41 | whatever is inserted, the binding of a name found first is the one inserted first |
| RewriteSound.SubstTwice | src/ast/transform_ast.cpp:85-190 | two substitutions of placeholders by placeholder-free pieces are one, the earlier taking precedence |
| RewriteSound.TransduceIsSimultaneous | src/ast/transform_ast.cpp:530-535 | the one-name-at-a-time loop is simultaneous substitution by first bindings |
| RewriteSound.SubstEval | src/ast/transform_ast.cpp:85-190 | evaluating the result is evaluating the replacement in the extended environment |
| RewriteSound.SubstFits | src/ast/transform_ast.cpp:85-190 | a template with all its placeholders bound becomes a subject |
| SimplifySound.SimplifyKeeps | src/ast/transform_ast.cpp:356-503 | simplifying keeps value and vocabulary and never grows an expression |
| SimplifySound.SimplifySettles | src/ast/transform_ast.cpp:356-503 | a third pass never changes anything |
| SimplifySound.OnePassIsEnough | src/ast/transform_ast.cpp:375-503 | one pass is enough if and only if nothing in operator position is a unary expression in two or more pairs of parentheses, at any depth |
| SimplifySound.OnePassIsNotEnough | src/ast/transform_ast.cpp:375-459 | such an operand keeps a pair for the second pass |
| LeanForms.SimplifyIsLean | src/ast/transform_ast.cpp:356-503 | one pass removes every pair of parentheses around a single primary expression, and every call attribute, at any depth |
| LeanForms.TransformIsLean | src/ast/transform_ast.cpp:506-539 | so does rewriting, whether or not the rule matches |
| LeanForms.SubstIsLean | src/ast/transform_ast.cpp:85-190 | substitution adds parentheses only where they are needed |
| LeanForms.TwoPassesAreBare | src/ast/transform_ast.cpp:418-459 | two passes leave parentheses only around lists, and around a unary expression that stands alone |
| LeanForms.BareIsSettled | src/ast/transform_ast.cpp:356-503 | and those are never removed |
| TransformSound.TightFreeIsSafe | phylanx/ast/match_ast.hpp:401-416 | the structural condition under which every match of a linear rule is faithful, at any depth |
| TransformSound.RootValue | src/ast/transform_ast.cpp:506-539 | a rule applied at the root yields the value of its right side under the match, lost operators or not |
| TransformSound.TransformPreserves | src/ast/transform_ast.cpp:506-539 | a valid rule preserves the value of a safe subject, wherever in the tree it matches |
| TransformSound.TightFreePreserves | src/ast/transform_ast.cpp:506-539 | in particular for linear rules and subjects without a tighter operator after a parenthesised list |
| TransformSound.RulesPreserve | src/ast/transform_ast.cpp:556-571 | a list of valid, closed rules preserves the value |
| TransformDepth.RewrittenIsRuled | src/ast/transform_ast.cpp:252-326 | for any rule, valid or not: the result has the value of the subject in which every outermost match, at any depth, has the value of the right side, and nothing else is changed |
| TightRules.TransformTight | src/ast/transform_ast.cpp:506-539 | rules with neither a placeholder nor parentheses before a tighter operator keep parentheses away from tighter operators |
| TightRules.TightRunIsSafe | src/ast/transform_ast.cpp:556-571 | so a list of such rules is safe on every subject without parentheses before a tighter operator, with no intermediate result to look at |
| TightRules.TightRulesPreserve | src/ast/transform_ast.cpp:556-571 | and preserves the value, on conditions about subject and rules alone |
| TransformExact.WeightIsConserved | src/ast/transform_ast.cpp:506-539 | for a linear rule neutral in some weighing: the result and what all matches lost weigh together what the subject weighs |
| TransformExact.DropsNothing | phylanx/ast/match_ast.hpp:401-416 | nothing is lost if and only if every match made is faithful |
| TransformExact.TransformExactness | src/ast/transform_ast.cpp:506-539 | rewriting with such a rule keeps the value in every model of the rule if and only if every match it makes, at any depth, is faithful |
| TransformExact.RulesConserve | src/ast/transform_ast.cpp:556-571 | conservation over a list of rules |
| TransformExact.RulesExactness | src/ast/transform_ast.cpp:556-571 | the same if-and-only-if for a list of rules, in every model of all of them |
| WrongRewrites.RewritingCanLoseAnOperator | phylanx/ast/match_ast.hpp:401-416 | `A + (B * C) * D` under `_1 + _2 : _2 + _1`, a valid rule: 25 becomes 7 |
| WrongRewrites.AddIsNeutral | src/ast/transform_ast.cpp:506-539 | `_1 + _2 : add(_1, _2)` is neutral wherever the call weighs what the operator weighs |
| WrongRewrites.AddLosesAnOperator | phylanx/ast/match_ast.hpp:401-416 | so on the same subject this rule too changes the meaning |
| WrongRewrites.TwiceExact | phylanx/ast/match_ast.hpp:34-80 | `_1 + _1` keeps meaning if and only if both operands have the same value as terms |
| WrongRewrites.RepeatedNamesAreNotCompared | phylanx/ast/match_ast.hpp:34-80 | `_1 + _1` matches `A + B` and reads `A + A`; it is faithful if and only if `A` is `B` |
| WrongRewrites.ParenthesesAreHarmless | phylanx/ast/match_ast.hpp:34-80 | `A + (A)`: bindings that differ, and yet faithful |
| WrongRewrites.LossCanBeHarmless | phylanx/ast/match_ast.hpp:401-416 | `(E * Y) + E * Y`: an operator is lost, and yet faithful |
| Tiling.MinElement | src/execution_tree/meta_annotation.cpp:37-44 | the scan for the least start among valid spans; the first span counts in any case |
| Tiling.MaxElement | src/execution_tree/meta_annotation.cpp:54-62 | the scan for the greatest stop |
| Tiling.AnySpanHas | src/execution_tree/meta_annotation.cpp:70-75 | whether some span has a given index |
| Tiling.ValidateDimension | src/execution_tree/meta_annotation.cpp:33-83 | accepts, or names which of the two end-point conditions fails, as judged on the spans of the axis |
| Tiling.AcceptedCovers | src/execution_tree/meta_annotation.cpp:33-83 | acceptance implies that every index from zero to the largest stop lies in some span, empty tiles or not |
| Tiling.AcceptedExactly | src/execution_tree/meta_annotation.cpp:33-83 | for non-empty spans in range: accepted if and only if their union is an interval from zero |
| Tiling.AcceptedWithEmptySpans | src/execution_tree/meta_annotation.cpp:33-83 | with empty spans anywhere among them: accepted if and only if the union is an interval from zero and no empty span stops outside it (and, if all are empty, the first starts at zero) |
| Tiling.Dimension | phylanx/execution_tree/tiling_annotations.hpp:93-104 | counts the valid spans of a tile |
| Tiling.DimTiled | src/execution_tree/localities_annotation.cpp:290-303 | whether every non-empty tile spans the whole axis |
| Tiling.AllOthersFull | src/execution_tree/localities_annotation.cpp:531-632 | full tiles along all axes but one, measured against the whole extents |
| Tiling.IsTiled | src/execution_tree/localities_annotation.cpp:531-632 | row, column and page queries on any tiles: the first tile with a valid span decides how many axes count; a throw for other numbers of axes and for all-empty tiles |
| Strips.StripsAreTiled | src/execution_tree/localities_annotation.cpp:531-632 | a box cut across one axis is tiled along the axis a query is named after (columns fastest, then rows, then pages) if and only if that is the axis, or there is no cut |
| Strips.AskStrips | src/execution_tree/localities_annotation.cpp:531-632 | so the three queries tell strips apart; pages of a two-dimensional box throw |
| Tiling.CornersDecide | src/execution_tree/meta_annotation.cpp:33-83 | for boxes of any number of axes: every cell has a tile if and only if every corner has one, a corner's coordinates being zero or the stop of some tile |
| Tiling.EveryCellHasATile | src/execution_tree/localities_annotation.cpp:531-632 | axes validated and tiles differing along one axis only: every cell of the box is in some tile |
| Tiling.AxesAloneLeaveHoles | src/execution_tree/meta_annotation.cpp:33-83 | per-axis validation alone does not give that |
| Retile.Intersect | phylanx/execution_tree/tiling_annotations.hpp:46-57 | the common indices, or none; the out-parameter is written only then |
| Retile.RetileCalculation | phylanx/util/index_calculation_helper.hpp:41-56 | source and target ranges are in bounds, carry the same global indices, and cover all common ones |
| Retile.CalculationsAgree | phylanx/util/index_calculation_helper.hpp:29-39 | the local calculation gives the intersection and its offsets where the spans overlap, and a size of zero or less elsewhere |
| Retile.CopyPart | phylanx/util/distributed_vector.hpp:87-90 | a subvector assignment writes the given cells and no others |
| Retile.CopyLocal | src/plugins/dist_matrixops/retile_annotations.cpp:419-427 | the part that is already here lands in place |
| Retile.FetchRemote | src/plugins/dist_matrixops/retile_annotations.cpp:429-454 | after the gathering loop every index that some tile has is in place, and no other cell is written |
| Retile.Retile1d | src/plugins/dist_matrixops/retile_annotations.cpp:404-459 | over validated tiles the new part is the wanted slice of the whole vector, element by element |
| PartCache.AdvanceKeeps | phylanx/util/distributed_vector.hpp:353-391 | no step stores a wrong id, changes an entry, or breaks the lock |
| PartCache.RunKeeps | phylanx/util/distributed_vector.hpp:336-391 | the invariant holds in every reachable state |
| PartCache.CacheIsRight | phylanx/util/distributed_vector.hpp:353-391 | every cached id is the registered one; nobody holds the lock while waiting for the name service; one holder at a time |
| PartCache.CacheIsStable | phylanx/util/distributed_vector.hpp:384-388 | an entry once present never changes |
| PartCache.CallersAgree | phylanx/util/distributed_vector.hpp:353-391 | all callers for a site, at any times, get the same id, the registered one |
| PartCache.ThrowsOutOfRange | phylanx/util/distributed_vector.hpp:361-367 | a finished call threw if and only if the site is out of range |
| PartCache.SomebodyMoves | phylanx/util/distributed_vector.hpp:369-383 | no deadlock: while a call is unfinished and its site registered, some thread can step |
| PartCache.StepsAreBounded | phylanx/util/distributed_vector.hpp:353-391 | in every run, whatever the other threads do in between, a call takes at most six steps of its own |
| PartCache.CachedIsNotAskedFor | phylanx/util/distributed_vector.hpp:369-371 | once a site is cached, a call that starts afterwards never waits for the name service |
| ByteCounter.StepKeeps | phylanx/util/distributed_vector.hpp:277-289 | each step of a callback keeps counter, lock and completed fetches in agreement |
| ByteCounter.NoUpdateIsLost | phylanx/util/distributed_vector.hpp:313-329 | in every interleaving the counter is its start plus the bytes of all added fetches, modulo 2^64 in the signed range, and exactly that while it fits |
| ByteCounter.AllBytes | phylanx/util/distributed_vector.hpp:277-289 | when all fetches have succeeded, what was added is the sum of their sizes |
| ByteCounter.BytesCanBeAdded | phylanx/util/distributed_vector.hpp:277-289 | a fetch that has its result can always add its bytes when the lock is free |
| ByteCounter.SomebodyMoves | phylanx/util/distributed_vector.hpp:277-289 | while some fetch is not done, some step can be taken |
| Ranges.CountIsBefore | src/util/slicing_helpers.cpp:58-75 | the counted numbers are exactly those before the stop |
| Ranges.TruncatedDivision | src/ir/ranges.cpp:251-253 | quotient and remainder as the source language has them: the remainder has the sign of the dividend |
| Ranges.SliceSizeIsCount | phylanx/ir/ranges.hpp:123-136 | the closed form of a slice counts its numbers |
| Ranges.RangeSizeIsCount | src/ir/ranges.cpp:338-361 | `range::size` counts them if and only if the step is positive or divides the distance; otherwise it is one short |
| Ranges.EndsFit | src/ir/ranges.cpp:239-257 | `end` and `rbegin` lie on the progression, one past and at its last number |
| Ranges.Copy | src/ir/ranges.cpp:478-488 | iterating from `begin` meets `end` exactly and yields the arithmetic progression |
| Ranges.CopyReversed | src/ir/ranges.cpp:275-321 | from `rbegin` to `rend`: the exact reverse |
| Ranges.CreateListSlice | src/util/slicing_helpers.cpp:53-78 | lists the same numbers; nothing for a zero step or one that points away |
| Ranges.ExtractSlicing | src/util/slicing_helpers.cpp:125-241 | start, stop, step and the single-value flag for lists of any length, with defaults by the sign of the step, counting from the end, and the throw on too many entries |
| Ranges.SlicingSize | src/util/slicing_helpers.cpp:244-340 | the size computed without building the indices |
| Ranges.SizesAgree | src/util/slicing_helpers.cpp:125-340 | both agree on every list except exactly the one-entry lists below -1, and `[nil]` unless everything is one element |
| Slices.SelectIndices | phylanx/execution_tree/primitives/slice_node_data_1d.hpp:50-88 | the selected indices: one for a single value, a throw for a zero step, the listed ones otherwise |
| Slices.NilTakesAll | src/util/slicing_helpers.cpp:160-232 | nil start and stop select exactly the progression of indices from the first one, or from the last one for a negative step |
| Slices.AllIndices | src/util/slicing_helpers.cpp:144-198 | every index in order for step one, all of them backwards for step minus one; the empty list and a single nil as well |
| Slices.NilStep | src/util/slicing_helpers.cpp:172-174 | a nil step is one |
| Slices.NilStart | src/util/slicing_helpers.cpp:200-207 | a nil start is the first index in the direction of the step |
| Slices.GivenEntries | src/util/slicing_helpers.cpp:200-232 | entries that are not negative select the numbers from the start on, by the step, before the stop |
| Slices.FromTheEnd | src/util/slicing_helpers.cpp:204-222 | a negative start or stop counts from the end |
| Slices.SingleEntry | src/util/slicing_helpers.cpp:200-207 | a single entry selects a single element, from the end when negative |
| Slices.SingleIsOne | phylanx/ir/ranges.hpp:86-136 | stop, step and size of a single value describe just that one |
| Slices.SizeIsLength | src/util/slicing_helpers.cpp:244-340 | the computed size is the number of selected indices |
| Slices.EndsDecide | src/util/slicing_helpers.cpp:53-78 | the selected indices exist if and only if the first and the last do |
| Slices.StopsAreNotClipped | src/util/slicing_helpers.cpp:214-222 | a stop beyond the end selects indices that do not exist |
| Base64.Flush | examples/interpreter/physl.cpp:88-98 | a buffered group of `i` characters is decoded in place and gives `i - 1` bytes, whatever the rest of the buffer holds (`:103-115` for the last one) |
| Base64.Decode | examples/interpreter/physl.cpp:72-118 | the bytes of the leading run of alphabet characters |
| Base64.Alphabet | examples/interpreter/physl.cpp:63-65 | the alphabet is that of Table 1 of RFC 4648 |
| Base64.SplitIsOneNumber | examples/interpreter/physl.cpp:91-95 | three bytes and their four sextets are the same number, most significant first |
| Base64.DecodedLength | examples/interpreter/physl.cpp:72-118 | `k` such characters give `6 k / 8` bytes, rounded down, on any input |
| Base64.DecodeInvertsEncode | examples/interpreter/physl.cpp:72-118 | inverts the encoding of section 4 of RFC 4648 for every byte string, whatever its length modulo three |
| Annotation.NameRoundTrip | src/execution_tree/annotation.cpp:502-515 | a generated name reads back, slashes and all, if and only if the generation is not negative |
| Annotation.ParseSplits | src/execution_tree/annotation.cpp:502-510 | a text is split at its last slash if a digit follows, into the name before it and the number that starts after it; otherwise both parts stay |
| Annotation.NoSlashNoGeneration | src/execution_tree/annotation.cpp:502-510 | a text without a slash is left alone, and its next generation is one |
| Annotation.DecimalDigits | src/execution_tree/annotation.cpp:512-515 | generations are written in decimal |
| Annotation.LeadingStops | src/execution_tree/annotation.cpp:507 | and read up to the first character that is no digit |
| Annotation.Information.ExtractFromName | src/execution_tree/annotation.cpp:502-510 | moves a trailing generation out of the name, or leaves both alone; a number too large fails |
| Annotation.Annotation.Find | src/execution_tree/annotation.cpp:67-88 | the first entry of a key |
| Annotation.Annotation.HasKey | src/execution_tree/annotation.cpp:100-118 | whether there is one |
| Annotation.Annotation.ReplaceAnnotation | src/execution_tree/annotation.cpp:319-352 | every entry of the key is replaced in its place, all others stay; a missing key fails and changes nothing |
| Annotation.Annotation.IncrementGeneration | src/execution_tree/annotation.cpp:362-382 | raises the generation in the name entry; fails without changing anything when there is none |
| Annotation.NextName | src/execution_tree/annotation.cpp:376-381 | the name with the next generation, or nothing when there is none |
| Annotation.IncrementsAddUp | src/execution_tree/annotation.cpp:362-382 | `n` increments raise the generation by exactly `n` and leave every other entry unchanged and in place |

## Left out

- MatchExact.MatchExactness: says nothing about patterns with ellipses, whose match does not determine a subject.
- TransformExact.TransformExactness: is about linear rules whose sides weigh the same in some weighing; for other rules TransformPreserves gives one direction, because a rule like `_1 : 0` makes every loss invisible.
- PartCache.StepsAreBounded: does not model who is scheduled; progress is stated as a possible step, not as fairness.
- MatchComplete.InstanceMatches: leaves out fillings by nil, which match only where the placeholder is a whole expression.
- Visitors that stop early: `traverse_expression` ignores the result of its nested call, so a visitor that returns false there can loop; the model's visitor never stops.
- Assertions: the bound checked in `precedence_of`, which is one lower than the table, and the zero start checked in `detail::dimension`; `op_unknown`, which has no entry in the table.
- The exception of `substr(1)` for a string literal spelled like an ellipsis, whose identifier name is empty; the model keeps the empty name.
- Signed 64-bit overflow in spans, ranges and generations: integers are unbounded there; a generation at the maximum fails to increment.
- Ranges whose step points away from the stop, except in `create_list_slice`.
- Base 64: characters are taken as ASCII, and what an uninitialised buffer holds is arbitrary within a byte.
- `get_part_id` returns a reference that is read after the lock is released; the model returns the id.
- The local part's registration and caching in the constructor are one step; the name service answers only for registered sites, at any later time.
- `distributed_matrix`, `distributed_tensor` and `distributed_object` repeat the vector's protocol.
- Reading tiles from annotations, the scan for row or column vectors, and the arithmetic that chooses a target tiling: the target of a retiling is any non-empty span.
- `annotation::operator==`, `add_annotation` and nested annotations as keys.
- Source tags, the grammar, printing and serialization; array literals are scalars in the model.
- Side effects of PhySL primitives: calls are pure and uninterpreted.
