/**
 * `Condition<T>`: an ordered list of condition items for one query over a
 * record type, built from key/value pairs or from ready-made items,
 * adjusted in place by `IgnoreFor` and `OperatorFor`, and turned into one
 * predicate by `ToAndPredicate` or `ToOrPredicate`.
 *
 * Items are values held in the object's own list. In the source they are
 * objects that a caller may share, so `OperatorFor` is visible through other
 * references to the same items; the model does not capture that aliasing.
 */
module Conditions {

  import opened Wrappers
  import opened Items
  import opened Predicates
  import opened ItemLists

  class Condition {
    /** The condition items, in the order they were added. */
    var conditionItems: seq<ConditionItem>

    /** From ready-made items: a null sequence gives an empty list, any other is copied in order. */
    constructor FromItems(conditionItems: Option<seq<ConditionItem>>)
      ensures conditionItems.None? ==> this.conditionItems == []
      ensures conditionItems.Some? ==> this.conditionItems == conditionItems.value
    {
      this.conditionItems := [];
      if conditionItems.Some? {
        this.conditionItems := this.conditionItems + conditionItems.value;
      }
    }

    /**
     * From string-valued pairs, resolved against the record type's properties
     * `typeProperties` (the result of `typeof(T).GetProperties()`).
     */
    constructor FromStrings(typeProperties: seq<Property>, keyValues: Option<seq<Pair<Option<string>>>>)
      ensures conditionItems == GetConditionItems(typeProperties, keyValues, StringValue)
    {
      conditionItems := GetConditionItems(typeProperties, keyValues, StringValue);
    }

    /** From object-valued pairs, resolved against the record type's properties. */
    constructor FromObjects(typeProperties: seq<Property>, keyValues: Option<seq<Pair<Value>>>)
      ensures conditionItems == GetConditionItems(typeProperties, keyValues, ObjectValue)
    {
      conditionItems := GetConditionItems(typeProperties, keyValues, ObjectValue);
    }

    /**
     * Removes every item on the selected property and returns this object.
     * The selector's member is only read while filtering items, so a selector
     * that is not a member access is harmless on an empty list alone.
     */
    method IgnoreFor(keySelector: Selector) returns (self: Condition)
      requires keySelector.MemberAccess? || conditionItems == []
      modifies this
      ensures self == this
      ensures keySelector.MemberAccess? ==>
                conditionItems == Without(old(conditionItems), keySelector.member)
      ensures keySelector.OtherExpression? ==> conditionItems == old(conditionItems)
    {
      self := this;
      if keySelector.OtherExpression? {
        return;
      }
      var member := keySelector.member;
      // targets = Where(item => item.Member == member).ToArray()
      var targets := Targets(conditionItems, member);
      ghost var original := conditionItems;
      DropNoMatches(original, member);
      for i := 0 to |targets|
        invariant conditionItems == DropMatches(original, member, i)
      {
        RemoveNextTarget(original, member, i);
        conditionItems := RemoveFirst(conditionItems, targets[i]);
      }
      DropAllMatches(original, member, |targets|);
    }

    /**
     * Sets the operator of every item on the selected property and returns
     * this object; nothing else about the list changes.
     */
    method OperatorFor(keySelector: Selector, operator: Operator) returns (self: Condition)
      requires keySelector.MemberAccess? || conditionItems == []
      modifies this
      ensures self == this
      ensures keySelector.MemberAccess? ==>
                conditionItems == WithOperator(old(conditionItems), keySelector.member, operator)
      ensures keySelector.OtherExpression? ==> conditionItems == old(conditionItems)
    {
      self := this;
      if keySelector.OtherExpression? {
        return;
      }
      var member := keySelector.member;
      ghost var original := conditionItems;
      for i := 0 to |conditionItems|
        invariant |conditionItems| == |original|
        invariant forall k :: 0 <= k < i ==>
                    conditionItems[k] == if original[k].member == member then original[k].(operator := operator) else original[k]
        invariant forall k :: i <= k < |original| ==> conditionItems[k] == original[k]
      {
        if conditionItems[i].member == member {
          conditionItems := conditionItems[i := conditionItems[i].(operator := operator)];
        }
      }
      var expected := WithOperator(original, member, operator);
      assert forall k :: 0 <= k < |original| ==> conditionItems[k] == expected[k];
    }

    /**
     * The AND of all item predicates: `True` for an empty list, otherwise the
     * left-associative fold of the items' predicates in list order. It holds
     * exactly when every item's predicate holds.
     */
    function ToAndPredicate(): (p: Pred<ConditionItem>)
      reads this
      ensures conditionItems == [] ==> p == True
      ensures conditionItems != [] ==> IsLeftComb(p, AndAlso) && Leaves(p) == conditionItems
      ensures forall sat: ConditionItem -> bool ::
                Eval(p, sat) <==> forall i :: 0 <= i < |conditionItems| ==> sat(conditionItems[i])
    {
      if |conditionItems| == 0 then True
      else
        ConjunctionShape(conditionItems);
        ConjunctionMeaning(conditionItems);
        Aggregate(Select(conditionItems), AndAlso)
    }

    /**
     * The OR of all item predicates: `False` for an empty list, otherwise the
     * left-associative fold of the items' predicates in list order. It holds
     * exactly when some item's predicate holds.
     */
    function ToOrPredicate(): (p: Pred<ConditionItem>)
      reads this
      ensures conditionItems == [] ==> p == False
      ensures conditionItems != [] ==> IsLeftComb(p, OrElse) && Leaves(p) == conditionItems
      ensures forall sat: ConditionItem -> bool ::
                Eval(p, sat) <==> exists i :: 0 <= i < |conditionItems| && sat(conditionItems[i])
    {
      if |conditionItems| == 0 then False
      else
        DisjunctionShape(conditionItems);
        DisjunctionMeaning(conditionItems);
        Aggregate(Select(conditionItems), OrElse)
    }
  }

  /**
   * The AND conversion is the one left-associative AND comb over the list's
   * items in list order: any such predicate is equal to it.
   */
  lemma ToAndPredicateIsTheLeftFold(c: Condition, p: Pred<ConditionItem>)
    requires IsLeftComb(p, AndAlso) && Leaves(p) == c.conditionItems
    ensures c.ToAndPredicate() == p
  {
    LeftCombHasLeaves(p, AndAlso);
    LeftCombUnique(c.ToAndPredicate(), p, AndAlso);
  }

  /** The OR conversion is the one left-associative OR comb over the list's items in list order. */
  lemma ToOrPredicateIsTheLeftFold(c: Condition, p: Pred<ConditionItem>)
    requires IsLeftComb(p, OrElse) && Leaves(p) == c.conditionItems
    ensures c.ToOrPredicate() == p
  {
    LeftCombHasLeaves(p, OrElse);
    LeftCombUnique(c.ToOrPredicate(), p, OrElse);
  }

  /** The record type of the examples: a `Name` and an `Age` property. */
  function ExampleProperties(): seq<Property>
  {
    [Property("Name", 0), Property("Age", 1)]
  }

  /** Keys resolve whatever their case; a key naming no property resolves to nothing. */
  lemma ExampleKeys()
    ensures FirstMatch(ExampleProperties(), "name") == Some(Property("Name", 0))
    ensures FirstMatch(ExampleProperties(), "AGE") == Some(Property("Age", 1))
    ensures FirstMatch(ExampleProperties(), "Email") == None
  {
    var props := ExampleProperties();
    assert Names.EqualsIgnoreCase("Name", "name") && Names.EqualsIgnoreCase("Age", "AGE");
    assert !Names.EqualsIgnoreCase("Name", "AGE") && !Names.EqualsIgnoreCase("Name", "Email");
    assert !Names.EqualsIgnoreCase("Age", "Email");
    assert Names.FoldCase('N') != Names.FoldCase('A');
    assert props[1..] == [Property("Age", 1)] && props[1..][1..] == [];
  }

  /** Building from `name=Alice&AGE=30&Email=a@b` yields the two items on `Name` and `Age`, in that order. */
  lemma ExampleConstruction()
    ensures GetConditionItems(ExampleProperties(), Some(ExamplePairs()), StringValue)
         == [NewItem(Property("Name", 0), Text("Alice")), NewItem(Property("Age", 1), Text("30"))]
  {
    ExampleKeys();
    var pairs := ExamplePairs();
    assert pairs[1..][1..][1..] == [];
  }

  function ExamplePairs(): seq<Pair<Option<string>>>
  {
    [Pair("name", Some("Alice")), Pair("AGE", Some("30")), Pair("Email", Some("a@b"))]
  }

  /**
   * A client: keys match property names whatever their case, an unknown key
   * is dropped, and a null input gives the identity of each combinator.
   */
  method Example()
  {
    var name, age := Property("Name", 0), Property("Age", 1);
    ExampleConstruction();
    var c := new Condition.FromStrings(ExampleProperties(), Some(ExamplePairs()));
    assert c.conditionItems == [NewItem(name, Text("Alice")), NewItem(age, Text("30"))];
    var p := c.ToAndPredicate();
    ToAndPredicateIsTheLeftFold(c, And(Leaf(NewItem(name, Text("Alice"))), Leaf(NewItem(age, Text("30")))));
    assert p == And(Leaf(NewItem(name, Text("Alice"))), Leaf(NewItem(age, Text("30"))));
    ExampleAdjust(c);
    var empty := new Condition.FromObjects(ExampleProperties(), None);
    assert empty.ToAndPredicate() == True && empty.ToOrPredicate() == False;
  }

  /** A client of the two mutators: each acts on the items of one property only. */
  method ExampleAdjust(c: Condition)
    requires c.conditionItems == [NewItem(Property("Name", 0), Text("Alice")), NewItem(Property("Age", 1), Text("30"))]
    modifies c
  {
    var name, age := Property("Name", 0), Property("Age", 1);
    var same := c.OperatorFor(MemberAccess(age), GreaterThan);
    assert same == c;
    var expected := [NewItem(name, Text("Alice")), ConditionItem(age, GreaterThan, Text("30"))];
    assert c.conditionItems[0] == expected[0] && c.conditionItems[1] == expected[1];
    assert c.conditionItems == expected;
    same := c.IgnoreFor(MemberAccess(age));
    assert [expected[0]] + [] == [expected[0]];
    assert c.conditionItems == [NewItem(name, Text("Alice"))];
    assert c.ToOrPredicate() == Leaf(NewItem(name, Text("Alice")));
  }
}
