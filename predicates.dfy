/**
 * A small predicate expression tree standing for the `Expression<Func<T, bool>>`
 * values the condition list builds: the constants `Predicate.True<T>()` and
 * `Predicate.False<T>()`, one leaf per item (`ConditionItem.ToPredicate()`),
 * and the `And`/`Or` combinators. What a leaf means for a record is opaque:
 * `Eval` takes it as a parameter `sat`, the per-item predicate already applied
 * to the record being filtered.
 */
module Predicates {

  datatype Pred<X> =
    | True
    | False
    | Leaf(item: X)
    | And(left: Pred<X>, right: Pred<X>)
    | Or(left: Pred<X>, right: Pred<X>)

  /** The truth value of a predicate once every leaf has a truth value. */
  function Eval<X>(p: Pred<X>, sat: X -> bool): bool
  {
    match p
    case True => true
    case False => false
    case Leaf(x) => sat(x)
    case And(l, r) => Eval(l, sat) && Eval(r, sat)
    case Or(l, r) => Eval(l, sat) || Eval(r, sat)
  }

  /** The leaves of a predicate, left to right. */
  function Leaves<X>(p: Pred<X>): seq<X>
  {
    match p
    case True => []
    case False => []
    case Leaf(x) => [x]
    case And(l, r) => Leaves(l) + Leaves(r)
    case Or(l, r) => Leaves(l) + Leaves(r)
  }

  /** The binary combinator a fold uses. */
  datatype Combinator = AndAlso | OrElse

  function Combine<X>(c: Combinator, l: Pred<X>, r: Pred<X>): Pred<X>
  {
    match c
    case AndAlso => And(l, r)
    case OrElse => Or(l, r)
  }

  /**
   * A left comb for combinator `c`: a single leaf, or `c` applied to a
   * left comb and a leaf. This is the shape of a left-associative fold of
   * leaves, `((x0 c x1) c x2) c ...`.
   */
  predicate IsLeftComb<X>(p: Pred<X>, c: Combinator)
  {
    match p
    case Leaf(_) => true
    case And(l, r) => c == AndAlso && r.Leaf? && IsLeftComb(l, c)
    case Or(l, r) => c == OrElse && r.Leaf? && IsLeftComb(l, c)
    case _ => false
  }

  /** The leaves of a list of predicates, concatenated in order. */
  function AllLeaves<X>(s: seq<Pred<X>>): seq<X>
  {
    if s == [] then [] else Leaves(s[0]) + AllLeaves(s[1..])
  }

  /**
   * `Enumerable.Aggregate(func)` continued from an accumulator: each element
   * in turn is combined onto the right of what has been folded so far. Every
   * leaf is kept exactly once, in order, and leaves folded onto a left comb
   * give a left comb.
   */
  function AggregateFrom<X>(acc: Pred<X>, s: seq<Pred<X>>, c: Combinator): (r: Pred<X>)
    ensures Leaves(r) == Leaves(acc) + AllLeaves(s)
    ensures IsLeftComb(acc, c) && (forall i :: 0 <= i < |s| ==> s[i].Leaf?) ==> IsLeftComb(r, c)
    decreases |s|
  {
    if s == [] then acc
    else
      assert Leaves(Combine(c, acc, s[0])) == Leaves(acc) + Leaves(s[0]);
      assert forall i :: 1 <= i < |s| ==> s[i] == s[1..][i - 1];
      AggregateFrom(Combine(c, acc, s[0]), s[1..], c)
  }

  /**
   * `Enumerable.Aggregate(func)` without a seed: the first element seeds the
   * fold. The result's leaves are all the elements' leaves in order, and a
   * fold of leaves is a left comb.
   */
  function Aggregate<X>(s: seq<Pred<X>>, c: Combinator): (r: Pred<X>)
    requires |s| > 0
    ensures Leaves(r) == AllLeaves(s)
    ensures (forall i :: 0 <= i < |s| ==> s[i].Leaf?) ==> IsLeftComb(r, c)
  {
    assert forall i :: 1 <= i < |s| ==> s[i] == s[1..][i - 1];
    AggregateFrom(s[0], s[1..], c)
  }

  /** An AND fold holds exactly when the accumulator and every element hold. */
  lemma {:induction false} EvalAggregateFromAnd<X>(acc: Pred<X>, s: seq<Pred<X>>, sat: X -> bool)
    ensures Eval(AggregateFrom(acc, s, AndAlso), sat) <==>
            Eval(acc, sat) && forall i :: 0 <= i < |s| ==> Eval(s[i], sat)
    decreases |s|
  {
    if s != [] {
      EvalAggregateFromAnd(And(acc, s[0]), s[1..], sat);
      assert forall i :: 1 <= i < |s| ==> s[i] == s[1..][i - 1];
    }
  }

  /** An OR fold holds exactly when the accumulator or some element holds. */
  lemma {:induction false} EvalAggregateFromOr<X>(acc: Pred<X>, s: seq<Pred<X>>, sat: X -> bool)
    ensures Eval(AggregateFrom(acc, s, OrElse), sat) <==>
            Eval(acc, sat) || exists i :: 0 <= i < |s| && Eval(s[i], sat)
    decreases |s|
  {
    if s != [] {
      EvalAggregateFromOr(Or(acc, s[0]), s[1..], sat);
      assert forall i :: 1 <= i < |s| ==> s[i] == s[1..][i - 1];
      if exists i :: 1 <= i < |s| && Eval(s[i], sat) {
        var i :| 1 <= i < |s| && Eval(s[i], sat);
        assert Eval(s[1..][i - 1], sat);
      }
    }
  }

  /** A left comb has at least one leaf. */
  lemma {:induction false} LeftCombHasLeaves<X>(p: Pred<X>, c: Combinator)
    requires IsLeftComb(p, c)
    ensures |Leaves(p)| >= 1
  {
    match p
    case Leaf(_) =>
    case And(l, _) => LeftCombHasLeaves(l, c);
    case Or(l, _) => LeftCombHasLeaves(l, c);
  }

  /**
   * A left comb is determined by its combinator and its leaves: this is the
   * reference against which the two conversions of a condition list are stated.
   */
  lemma {:induction false} LeftCombUnique<X>(p: Pred<X>, q: Pred<X>, c: Combinator)
    requires IsLeftComb(p, c) && IsLeftComb(q, c)
    requires Leaves(p) == Leaves(q)
    ensures p == q
  {
    match p
    case Leaf(x) =>
      match q {
        case Leaf(_) =>
        case And(l, _) => LeftCombHasLeaves(l, c);
        case Or(l, _) => LeftCombHasLeaves(l, c);
      }
    case And(l, r) =>
      LeftCombHasLeaves(l, c);
      var ql := q.left;
      LeftCombHasLeaves(ql, c);
      var n := |Leaves(p)|;
      assert Leaves(p)[..n - 1] == Leaves(l) && Leaves(q)[..n - 1] == Leaves(ql);
      assert Leaves(p)[n - 1] == r.item && Leaves(q)[n - 1] == q.right.item;
      LeftCombUnique(l, ql, c);
    case Or(l, r) =>
      LeftCombHasLeaves(l, c);
      var ql := q.left;
      LeftCombHasLeaves(ql, c);
      var n := |Leaves(p)|;
      assert Leaves(p)[..n - 1] == Leaves(l) && Leaves(q)[..n - 1] == Leaves(ql);
      assert Leaves(p)[n - 1] == r.item && Leaves(q)[n - 1] == q.right.item;
      LeftCombUnique(l, ql, c);
  }
}
