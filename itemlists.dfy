/**
 * The pure list operations behind `Condition<T>`: resolving keys against the
 * record type's properties, the filter-map that builds items from key/value
 * pairs, the removal and reconfiguration of the items on one property, and
 * the two folds into a predicate. The class in module Conditions keeps its
 * list in a field and is specified by these functions.
 */
module ItemLists {

  import opened Wrappers
  import opened Names
  import opened Items
  import opened Predicates

  /** A key selects a property when their names are equal ignoring case. */
  predicate NameMatches(p: Property, key: string)
  {
    EqualsIgnoreCase(p.name, key)
  }

  /**
   * `TypeProperties.FirstOrDefault(item => item.Name.Equals(key, OrdinalIgnoreCase))`:
   * the first property, in the order `TypeProperties` lists them, whose name matches the key, or none.
   */
  function FirstMatch(props: seq<Property>, key: string): (r: Option<Property>)
    ensures r.None? <==> forall i :: 0 <= i < |props| ==> !NameMatches(props[i], key)
    ensures r.Some? ==>
              exists i :: 0 <= i < |props| && props[i] == r.value && NameMatches(props[i], key) &&
                          forall j :: 0 <= j < i ==> !NameMatches(props[j], key)
    decreases |props|
  {
    if props == [] then None
    else if NameMatches(props[0], key) then Some(props[0])
    else
      var r := FirstMatch(props[1..], key);
      assert forall i :: 1 <= i < |props| ==> props[i] == props[1..][i - 1];
      r
  }

  /**
   * The body of the loop for one pair: no item when the key names no
   * property, otherwise one item on the first property whose name matches,
   * with the pair's value and the default operator.
   */
  function ItemFor<V>(props: seq<Property>, kv: Pair<V>, box: V -> Value): (r: seq<ConditionItem>)
    ensures r == [] <==> FirstMatch(props, kv.key).None?
    ensures r != [] ==>
              |r| == 1 && r[0].member == FirstMatch(props, kv.key).value &&
              r[0].value == box(kv.value) && r[0].operator == Equal
  {
    match FirstMatch(props, kv.key)
    case Some(member) => [NewItem(member, box(kv.value))]
    case None => []
  }

  /** The loop of `GetConditionItems` over a non-null sequence of pairs. */
  function Matched<V>(props: seq<Property>, pairs: seq<Pair<V>>, box: V -> Value): (r: seq<ConditionItem>)
    ensures |r| <= |pairs|
    ensures forall k :: 0 <= k < |r| ==> r[k].operator == Equal && r[k].member in props
    decreases |pairs|
  {
    if pairs == [] then [] else ItemFor(props, pairs[0], box) + Matched(props, pairs[1..], box)
  }

  /**
   * `GetConditionItems`: a null input yields nothing; otherwise every pair whose
   * key names a property yields one item with the default operator, and every
   * other pair is skipped without an error.
   */
  function GetConditionItems<V>(props: seq<Property>, keyValues: Option<seq<Pair<V>>>, box: V -> Value)
    : (r: seq<ConditionItem>)
    ensures keyValues.None? ==> r == []
    ensures keyValues.Some? ==> |r| <= |keyValues.value|
    ensures forall k :: 0 <= k < |r| ==> r[k].operator == Equal && r[k].member in props
  {
    match keyValues
    case None => []
    case Some(pairs) => Matched(props, pairs, box)
  }

  /** Building from a concatenation of inputs concatenates the items built from each. */
  lemma {:induction false} MatchedAppend<V>(props: seq<Property>, a: seq<Pair<V>>, b: seq<Pair<V>>, box: V -> Value)
    ensures Matched(props, a + b, box) == Matched(props, a, box) + Matched(props, b, box)
    decreases |a|
  {
    if a != [] {
      assert (a + b)[0] == a[0] && (a + b)[1..] == a[1..] + b;
      MatchedAppend(props, a[1..], b, box);
      assert Matched(props, a + b, box)
          == ItemFor(props, a[0], box) + (Matched(props, a[1..], box) + Matched(props, b, box));
    } else {
      assert a + b == b;
    }
  }

  /** The positions, in increasing order, of the pairs whose key names some property. */
  ghost function MatchedIndices<V>(props: seq<Property>, pairs: seq<Pair<V>>): (idx: seq<nat>)
    ensures forall k :: 0 <= k < |idx| ==> idx[k] < |pairs|
    ensures forall k, l :: 0 <= k < l < |idx| ==> idx[k] < idx[l]
    ensures forall i :: 0 <= i < |pairs| ==> (i in idx <==> FirstMatch(props, pairs[i].key).Some?)
    decreases |pairs|
  {
    if pairs == [] then []
    else
      var n := |pairs| - 1;
      var front := MatchedIndices(props, pairs[..n]);
      assert forall i :: 0 <= i < n ==> pairs[..n][i] == pairs[i];
      front + (if FirstMatch(props, pairs[n].key).Some? then [n] else [])
  }

  /** The items `r` are exactly those built from the pairs at positions `idx`, in that order. */
  ghost predicate BuiltFrom<V>(props: seq<Property>, pairs: seq<Pair<V>>, box: V -> Value, idx: seq<nat>, r: seq<ConditionItem>)
  {
    |r| == |idx| &&
    forall k :: 0 <= k < |r| ==>
      idx[k] < |pairs| && FirstMatch(props, pairs[idx[k]].key).Some? &&
      r[k] == NewItem(FirstMatch(props, pairs[idx[k]].key).value, box(pairs[idx[k]].value))
  }

  /** One more pair at the end adds its item, if it has one, at the end. */
  lemma BuiltFromStep<V>(props: seq<Property>, init: seq<Pair<V>>, x: Pair<V>, box: V -> Value, front: seq<nat>, rf: seq<ConditionItem>)
    requires forall k :: 0 <= k < |front| ==> front[k] < |init|
    requires BuiltFrom(props, init, box, front, rf)
    ensures BuiltFrom(props, init + [x], box,
                      front + (if FirstMatch(props, x.key).Some? then [|init|] else []),
                      rf + ItemFor(props, x, box))
  {
    var pairs := init + [x];
    var idx := front + (if FirstMatch(props, x.key).Some? then [|init|] else []);
    var r := rf + ItemFor(props, x, box);
    forall k | 0 <= k < |r|
      ensures idx[k] < |pairs| && FirstMatch(props, pairs[idx[k]].key).Some?
      ensures r[k] == NewItem(FirstMatch(props, pairs[idx[k]].key).value, box(pairs[idx[k]].value))
    {
      if k < |rf| {
        assert idx[k] == front[k] && pairs[front[k]] == init[front[k]];
      } else {
        assert idx[k] == |init| && pairs[|init|] == x;
      }
    }
  }

  /**
   * Construction filter: building from a non-null sequence of pairs gives
   * exactly one item per pair whose key matches a property name, in input
   * order; the item targets the first matching property and carries that
   * pair's value unchanged with the default operator.
   */
  lemma {:induction false} GetConditionItemsExactly<V>(props: seq<Property>, pairs: seq<Pair<V>>, box: V -> Value)
    ensures BuiltFrom(props, pairs, box, MatchedIndices(props, pairs), GetConditionItems(props, Some(pairs), box))
    decreases |pairs|
  {
    if pairs != [] {
      var n := |pairs| - 1;
      var init := pairs[..n];
      assert pairs == init + [pairs[n]];
      MatchedAppend(props, init, [pairs[n]], box);
      assert [pairs[n]][1..] == [];
      GetConditionItemsExactly(props, init, box);
      BuiltFromStep(props, init, pairs[n], box, MatchedIndices(props, init), Matched(props, init, box));
    }
  }

  /** Keys that name no property produce no item at all. */
  lemma {:induction false} NoMatchNoItems<V>(props: seq<Property>, pairs: seq<Pair<V>>, box: V -> Value)
    requires forall i, j :: 0 <= i < |pairs| && 0 <= j < |props| ==> !NameMatches(props[j], pairs[i].key)
    ensures GetConditionItems(props, Some(pairs), box) == []
    decreases |pairs|
  {
    if pairs != [] {
      assert FirstMatch(props, pairs[0].key).None?;
      NoMatchNoItems(props, pairs[1..], box);
    }
  }

  // ----- IgnoreFor -----

  /** `Where(item => item.Member == member)`: the items on one property, in list order. */
  function Targets(s: seq<ConditionItem>, member: Property): (r: seq<ConditionItem>)
    ensures forall k :: 0 <= k < |r| ==> r[k].member == member
    ensures forall x :: x in r <==> x in s && x.member == member
    decreases |s|
  {
    if s == [] then []
    else (if s[0].member == member then [s[0]] else []) + Targets(s[1..], member)
  }

  /** The list with every item on one property gone and the rest in their order. */
  function Without(s: seq<ConditionItem>, member: Property): (r: seq<ConditionItem>)
    ensures forall k :: 0 <= k < |r| ==> r[k].member != member
    ensures forall x :: x in r <==> x in s && x.member != member
    ensures |r| <= |s|
    decreases |s|
  {
    if s == [] then []
    else (if s[0].member != member then [s[0]] else []) + Without(s[1..], member)
  }

  /** The position of the first element equal to `x`. */
  function FirstIndexOf(s: seq<ConditionItem>, x: ConditionItem): (k: nat)
    requires x in s
    ensures k < |s| && s[k] == x && x !in s[..k]
    decreases |s|
  {
    if s[0] == x then 0
    else
      var k := FirstIndexOf(s[1..], x) + 1;
      assert s[..k] == [s[0]] + s[1..][..k - 1];
      k
  }

  /**
   * `List.Remove(x)`: drops the first element equal to `x`, if there is one,
   * and keeps every other element in its order.
   */
  function RemoveFirst(s: seq<ConditionItem>, x: ConditionItem): (r: seq<ConditionItem>)
    ensures x !in s ==> r == s
    ensures x in s ==> r == s[..FirstIndexOf(s, x)] + s[FirstIndexOf(s, x) + 1..]
    ensures multiset(r) == multiset(s) - multiset{x}
    decreases |s|
  {
    if s == [] then []
    else if s[0] == x then
      RemoveAtMultiset(s, 0);
      s[1..]
    else
      var rest := RemoveFirst(s[1..], x);
      RemoveFirstStep(s, x, rest);
      RemoveFirstStepMultiset(s, x, rest);
      [s[0]] + rest
  }

  /** Scanning past a head that differs from `x` keeps that head in front. */
  lemma RemoveFirstStep(s: seq<ConditionItem>, x: ConditionItem, rest: seq<ConditionItem>)
    requires s != [] && s[0] != x
    requires x !in s[1..] ==> rest == s[1..]
    requires x in s[1..] ==> rest == s[1..][..FirstIndexOf(s[1..], x)] + s[1..][FirstIndexOf(s[1..], x) + 1..]
    ensures x !in s ==> [s[0]] + rest == s
    ensures x in s ==> [s[0]] + rest == s[..FirstIndexOf(s, x)] + s[FirstIndexOf(s, x) + 1..]
  {
    assert s == [s[0]] + s[1..];
    if x in s {
      assert x in s[1..];
      var k := FirstIndexOf(s[1..], x);
      assert FirstIndexOf(s, x) == k + 1;
      calc {
        [s[0]] + rest;
        [s[0]] + (s[1..][..k] + s[1..][k + 1..]);
        { assert s[..k + 1] == [s[0]] + s[1..][..k]; assert s[k + 2..] == s[1..][k + 1..]; }
        s[..k + 1] + s[k + 2..];
      }
    }
  }

  /** The multiset side of the same step. */
  lemma RemoveFirstStepMultiset(s: seq<ConditionItem>, x: ConditionItem, rest: seq<ConditionItem>)
    requires s != [] && s[0] != x
    requires multiset(rest) == multiset(s[1..]) - multiset{x}
    ensures multiset([s[0]] + rest) == multiset(s) - multiset{x}
  {
    assert s == [s[0]] + s[1..];
    assert multiset(s) == multiset{s[0]} + multiset(s[1..]);
  }

  /** `List.Remove` of an element other than the head keeps the head in front. */
  lemma RemoveFirstPastHead(head: ConditionItem, rest: seq<ConditionItem>, x: ConditionItem)
    requires head != x
    ensures RemoveFirst([head] + rest, x) == [head] + RemoveFirst(rest, x)
  {
    assert ([head] + rest)[0] == head && ([head] + rest)[1..] == rest;
  }

  /** Cutting one position out of a list takes that element out of its multiset. */
  lemma RemoveAtMultiset(s: seq<ConditionItem>, k: nat)
    requires k < |s|
    ensures multiset(s[..k] + s[k + 1..]) == multiset(s) - multiset{s[k]}
  {
    assert s == s[..k] + [s[k]] + s[k + 1..];
    assert multiset(s) == multiset(s[..k]) + multiset{s[k]} + multiset(s[k + 1..]);
  }

  /** The list with the first `n` items on `member` dropped. */
  ghost function DropMatches(s: seq<ConditionItem>, member: Property, n: nat): seq<ConditionItem>
    decreases |s|
  {
    if s == [] then []
    else if s[0].member == member && n > 0 then DropMatches(s[1..], member, n - 1)
    else [s[0]] + DropMatches(s[1..], member, n)
  }

  lemma {:induction false} DropNoMatches(s: seq<ConditionItem>, member: Property)
    ensures DropMatches(s, member, 0) == s
    decreases |s|
  {
    if s != [] {
      DropNoMatches(s[1..], member);
    }
  }

  /**
   * After the first `i` targets are gone, the next target's first occurrence
   * is the next item on `member`: no earlier item can equal it, because equal
   * items target the same property.
   */
  lemma {:induction false} RemoveNextTarget(s: seq<ConditionItem>, member: Property, i: nat)
    requires i < |Targets(s, member)|
    ensures RemoveFirst(DropMatches(s, member, i), Targets(s, member)[i]) == DropMatches(s, member, i + 1)
    decreases |s|
  {
    var t, rest := Targets(s, member), Targets(s[1..], member);
    if s[0].member == member {
      assert t == [s[0]] + rest;
      if i == 0 {
        DropNoMatches(s, member);
        DropNoMatches(s[1..], member);
        assert RemoveFirst(s, s[0]) == s[1..];
      } else {
        assert t[i] == rest[i - 1];
        assert DropMatches(s, member, i) == DropMatches(s[1..], member, i - 1);
        assert DropMatches(s, member, i + 1) == DropMatches(s[1..], member, i);
        RemoveNextTarget(s[1..], member, i - 1);
      }
    } else {
      assert t == [] + rest;
      assert t[i].member == member;
      var x := DropMatches(s[1..], member, i);
      assert DropMatches(s, member, i) == [s[0]] + x;
      RemoveFirstPastHead(s[0], x, t[i]);
      assert DropMatches(s, member, i + 1) == [s[0]] + DropMatches(s[1..], member, i + 1);
      RemoveNextTarget(s[1..], member, i);
    }
  }

  /** Dropping at least as many items on `member` as there are is removing them all. */
  lemma {:induction false} DropAllMatches(s: seq<ConditionItem>, member: Property, n: nat)
    requires n >= |Targets(s, member)|
    ensures DropMatches(s, member, n) == Without(s, member)
    decreases |s|
  {
    if s != [] {
      DropAllMatches(s[1..], member, if s[0].member == member then n - 1 else n);
    }
  }

  /** Removing the items on a property twice is removing them once. */
  lemma {:induction false} WithoutIdempotent(s: seq<ConditionItem>, member: Property)
    ensures Without(Without(s, member), member) == Without(s, member)
    decreases |s|
  {
    if s != [] {
      WithoutIdempotent(s[1..], member);
      var rest := Without(s[1..], member);
      if s[0].member != member {
        assert Without(s, member) == [s[0]] + rest;
        assert ([s[0]] + rest)[0] == s[0] && ([s[0]] + rest)[1..] == rest;
      } else {
        assert Without(s, member) == rest;
      }
    }
  }

  /** A list with no item on `member` is left exactly as it was. */
  lemma {:induction false} WithoutUntargeted(s: seq<ConditionItem>, member: Property)
    requires forall k :: 0 <= k < |s| ==> s[k].member != member
    ensures Without(s, member) == s
    decreases |s|
  {
    if s != [] {
      WithoutUntargeted(s[1..], member);
    }
  }

  /** Removal works piecewise, so the surviving items keep their relative order. */
  lemma {:induction false} WithoutAppend(a: seq<ConditionItem>, b: seq<ConditionItem>, member: Property)
    ensures Without(a + b, member) == Without(a, member) + Without(b, member)
    decreases |a|
  {
    if a != [] {
      assert (a + b)[0] == a[0] && (a + b)[1..] == a[1..] + b;
      WithoutAppend(a[1..], b, member);
      var head := if a[0].member != member then [a[0]] else [];
      assert Without(a + b, member) == head + (Without(a[1..], member) + Without(b, member));
    } else {
      assert a + b == b;
    }
  }

  /** The items removed and the items kept together are the original items. */
  lemma {:induction false} WithoutPartition(s: seq<ConditionItem>, member: Property)
    ensures multiset(Without(s, member)) + multiset(Targets(s, member)) == multiset(s)
    ensures |Without(s, member)| + |Targets(s, member)| == |s|
    decreases |s|
  {
    if s != [] {
      WithoutPartition(s[1..], member);
      assert s == [s[0]] + s[1..];
    }
  }

  // ----- OperatorFor -----

  /** The list with the operator of every item on `member` set to `op`. */
  function WithOperator(s: seq<ConditionItem>, member: Property, op: Operator): (r: seq<ConditionItem>)
    ensures |r| == |s|
    ensures forall k :: 0 <= k < |s| ==>
              r[k].member == s[k].member && r[k].value == s[k].value &&
              r[k].operator == (if s[k].member == member then op else s[k].operator)
    decreases |s|
  {
    if s == [] then []
    else
      var head := if s[0].member == member then s[0].(operator := op) else s[0];
      [head] + WithOperator(s[1..], member, op)
  }

  /** Setting the operator for a property twice leaves the second operator. */
  lemma WithOperatorLastWins(s: seq<ConditionItem>, member: Property, first: Operator, second: Operator)
    ensures WithOperator(WithOperator(s, member, first), member, second) == WithOperator(s, member, second)
  {
  }

  /** Ignoring a property after reconfiguring it is the same as ignoring it. */
  lemma {:induction false} WithoutAfterWithOperator(s: seq<ConditionItem>, member: Property, op: Operator)
    ensures Without(WithOperator(s, member, op), member) == Without(s, member)
    decreases |s|
  {
    if s != [] {
      var w := WithOperator(s, member, op);
      assert w[1..] == WithOperator(s[1..], member, op);
      WithoutAfterWithOperator(s[1..], member, op);
    }
  }

  /** After reconfiguring, every item on the property carries the new operator. */
  lemma WithOperatorTargets(s: seq<ConditionItem>, member: Property, op: Operator)
    ensures forall x :: x in Targets(WithOperator(s, member, op), member) ==> x.operator == op
  {
  }

  // ----- ToAndPredicate / ToOrPredicate -----

  /** `Select(item => item.ToPredicate())`. */
  function Select(items: seq<ConditionItem>): (preds: seq<Pred<ConditionItem>>)
    ensures |preds| == |items|
    ensures forall i :: 0 <= i < |items| ==> preds[i] == ToPredicate(items[i])
  {
    seq(|items|, i requires 0 <= i < |items| => ToPredicate(items[i]))
  }

  lemma {:induction false} SelectLeaves(items: seq<ConditionItem>)
    ensures AllLeaves(Select(items)) == items
    decreases |items|
  {
    if items != [] {
      assert Select(items)[1..] == Select(items[1..]);
      SelectLeaves(items[1..]);
    }
  }

  /** The AND fold of a non-empty item list is the left comb of its items, in list order. */
  lemma ConjunctionShape(items: seq<ConditionItem>)
    requires items != []
    ensures IsLeftComb(Aggregate(Select(items), AndAlso), AndAlso)
    ensures Leaves(Aggregate(Select(items), AndAlso)) == items
  {
    var preds := Select(items);
    SelectLeaves(items);
    assert preds == [preds[0]] + preds[1..];
  }

  /** The OR fold of a non-empty item list is the left comb of its items, in list order. */
  lemma DisjunctionShape(items: seq<ConditionItem>)
    requires items != []
    ensures IsLeftComb(Aggregate(Select(items), OrElse), OrElse)
    ensures Leaves(Aggregate(Select(items), OrElse)) == items
  {
    var preds := Select(items);
    SelectLeaves(items);
    assert preds == [preds[0]] + preds[1..];
  }

  /** The AND fold of a non-empty item list holds exactly when every item's predicate holds. */
  lemma ConjunctionMeaning(items: seq<ConditionItem>)
    requires items != []
    ensures forall sat: ConditionItem -> bool ::
              Eval(Aggregate(Select(items), AndAlso), sat) <==>
              forall i :: 0 <= i < |items| ==> sat(items[i])
  {
    var preds := Select(items);
    forall sat: ConditionItem -> bool
      ensures Eval(Aggregate(preds, AndAlso), sat) <==> forall i :: 0 <= i < |items| ==> sat(items[i])
    {
      EvalAggregateFromAnd(preds[0], preds[1..], sat);
      assert forall i :: 1 <= i < |preds| ==> preds[i] == preds[1..][i - 1];
    }
  }

  /** The OR fold of a non-empty item list holds exactly when some item's predicate holds. */
  lemma DisjunctionMeaning(items: seq<ConditionItem>)
    requires items != []
    ensures forall sat: ConditionItem -> bool ::
              Eval(Aggregate(Select(items), OrElse), sat) <==>
              exists i :: 0 <= i < |items| && sat(items[i])
  {
    var preds := Select(items);
    forall sat: ConditionItem -> bool
      ensures Eval(Aggregate(preds, OrElse), sat) <==> exists i :: 0 <= i < |items| && sat(items[i])
    {
      EvalAggregateFromOr(preds[0], preds[1..], sat);
      assert forall i :: 1 <= i < |preds| ==> preds[i] == preds[1..][i - 1];
      if exists i :: 0 <= i < |items| && sat(items[i]) {
        var i :| 0 <= i < |items| && sat(items[i]);
        if i > 0 {
          assert Eval(preds[1..][i - 1], sat);
        }
      }
    }
  }
}
