# Condition<T> — a verified model

`Condition<T>` (PredicateLib) is a query-condition builder for a record type `T`.
It takes loosely typed key/value pairs, such as a query string or a form payload.
Each key is resolved to a property of `T` by a case-insensitive name match.
Every resolved pair becomes a condition item with the default operator; unresolved keys are dropped silently.
The list of items can then be adjusted in place:
`IgnoreFor` removes every item on one property, and `OperatorFor` overwrites the operator of every item on one property.
Finally the list is folded into one predicate expression, either with AND (`ToAndPredicate`) or with OR (`ToOrPredicate`).

The model has six modules:

- `Wrappers` — `Option`, standing for a nullable reference.
- `Names` — ordinal comparison ignoring (ASCII) case.
- `Items` — property metadata, operators, raw values, condition items, key selectors, and `ConditionItem.ToPredicate` as a leaf.
- `Predicates` — the predicate expression tree (`True | False | Leaf | And | Or`), its evaluation, its leaves, and `Enumerable.Aggregate` as a left fold.
- `ItemLists` — the pure list functions that specify the class, with their lemmas.
- `Conditions` — the class `Condition`. Its `conditionItems` field is a `seq` that the constructors set and the two mutators reassign. The two conversions are functions that read the object. The module also holds a client example.

The record type's properties (`typeof(T).GetProperties()`) are a parameter of the key/value constructors.
What one item's predicate says about one record is a parameter `sat` of `Eval`.

`IgnoreFor` follows the source's two phases:
first it collects the targets (`Where(...).ToArray()`), then it removes each one with `List.Remove`, which drops the first equal element.
The loop is proved to leave exactly the list without the items on that property (`RemoveNextTarget`, `DropAllMatches`).

A selector that is not a plain member access is handled as the source handles it, not by a stricter fail-fast rule.
In the source, `keySelector.Body as MemberExpression` yields null for such a selector, and that null is only dereferenced inside the `Where` filter, that is, once per item.
So on an empty list such a selector is accepted and nothing happens; on a non-empty list it throws.
`IgnoreFor` and `OperatorFor` therefore require `keySelector.MemberAccess? || conditionItems == []`, and they leave the list unchanged in the second case.

## Model

| member | source | states |
|---|---|---|
| Names.FoldCase | PredicateLib/System/Condition.cs:70 | The case fold never yields an ASCII lower-case letter; it maps a lower-case letter to its upper-case form and leaves every other character alone. |
| Names.EqualsIgnoreCase | PredicateLib/System/Condition.cs:70 | Two names are equal ignoring case exactly when they have the same length and agree character by character after folding. |
| Names.FoldedPointwise | PredicateLib/System/Condition.cs:70 | Folded strings are equal exactly when they agree position by position. |
| Names.EqualsIgnoreCaseIsEquivalence | PredicateLib/System/Condition.cs:70 | Equality ignoring case is reflexive, symmetric and transitive. |
| Items.NewItem | PredicateLib/System/Condition.cs:73 | A new item targets the given member, carries the given value, and has the default operator `Equal`. |
| Items.ObjectValue | PredicateLib/System/Condition.cs:37-40 | An object value is stored unchanged, with no coercion at construction. |
| Items.StringValue | PredicateLib/System/Condition.cs:28-31 | A string value is stored as a text object; a null string is stored as null. |
| Items.ToPredicate | PredicateLib/System/Condition.cs:125 | An item's predicate has that item as its only leaf and holds exactly when the item holds. |
| Predicates.EvalAggregateFromAnd | PredicateLib/System/Condition.cs:124-126 | An AND fold holds exactly when its seed and every folded predicate hold. |
| Predicates.EvalAggregateFromOr | PredicateLib/System/Condition.cs:140-142 | An OR fold holds exactly when its seed or some folded predicate holds. |
| Predicates.AggregateFrom | PredicateLib/System/Condition.cs:126 | A fold keeps every leaf exactly once, in order: the seed's leaves, then each element's. Folding leaves onto a left-associative comb gives a left-associative comb. |
| Predicates.Aggregate | PredicateLib/System/Condition.cs:126 | The seedless fold's leaves are all the elements' leaves in order; a fold of leaves is a left-associative comb. |
| Predicates.LeftCombUnique | PredicateLib/System/Condition.cs:124-126 | Two left-associative combs with the same combinator and the same leaves are equal. |
| ItemLists.FirstMatch | PredicateLib/System/Condition.cs:70 | The result is none exactly when no property name matches the key; otherwise it is the property at the first position whose name matches. |
| ItemLists.ItemFor | PredicateLib/System/Condition.cs:70-74 | A pair yields no item exactly when its key names no property; otherwise exactly one item, on the property `FirstMatch` resolves the key to (the first whose name matches), with the pair's value and the default operator. |
| ItemLists.Matched | PredicateLib/System/Condition.cs:68-75 | The loop yields at most one item per pair; every item has the default operator and targets a property of the type. |
| ItemLists.GetConditionItems | PredicateLib/System/Condition.cs:61-76 | A null input yields no items; otherwise at most one item per pair, each with the default operator and on a property of the type. |
| ItemLists.MatchedAppend | PredicateLib/System/Condition.cs:68-75 | Building from a concatenation of pair sequences concatenates the items built from each. |
| ItemLists.MatchedIndices | PredicateLib/System/Condition.cs:68-75 | The positions, strictly increasing, are exactly those of the pairs whose key names some property. |
| ItemLists.BuiltFromStep | PredicateLib/System/Condition.cs:68-75 | One more pair at the end of the input adds its item, if its key resolves, at the end of the list, tied to that pair's position. |
| ItemLists.GetConditionItemsExactly | PredicateLib/System/Condition.cs:61-76 | Exactly one item per matching pair, in input order. Each item targets the first property whose name matches the pair's key and carries the pair's value unchanged with the default operator. |
| ItemLists.NoMatchNoItems | PredicateLib/System/Condition.cs:68-75 | When no key names a property, no item is produced and there is no error. |
| ItemLists.Targets | PredicateLib/System/Condition.cs:87 | The targets are exactly the list's items on the selected member. |
| ItemLists.Without | PredicateLib/System/Condition.cs:84-93 | After removal no item is on the selected member, and an item remains exactly when it was in the list and is on another member. |
| ItemLists.FirstIndexOf | PredicateLib/System/Condition.cs:90 | The position found holds the element, and no earlier position does. |
| ItemLists.RemoveFirst | PredicateLib/System/Condition.cs:90 | `List.Remove` changes nothing when the element is absent; otherwise it cuts out exactly its first occurrence, keeping every other element in order, and the multiset loses one copy of it. |
| ItemLists.RemoveFirstStep | PredicateLib/System/Condition.cs:90 | Scanning past a head that differs from the element keeps that head in front of the rest's removal. |
| ItemLists.RemoveFirstStepMultiset | PredicateLib/System/Condition.cs:90 | The same step takes one copy of the element out of the multiset. |
| ItemLists.RemoveFirstPastHead | PredicateLib/System/Condition.cs:90 | Removing an element other than the head keeps the head in front of the removal from the rest. |
| ItemLists.RemoveAtMultiset | PredicateLib/System/Condition.cs:90 | Cutting one position out of a list takes that element out of its multiset. |
| ItemLists.DropNoMatches | PredicateLib/System/Condition.cs:88-91 | Before any removal the list is the original list. |
| ItemLists.RemoveNextTarget | PredicateLib/System/Condition.cs:88-91 | Each `Remove` of the next target drops exactly the next item on the selected member. |
| ItemLists.DropAllMatches | PredicateLib/System/Condition.cs:88-91 | Once all targets are removed, the list is the original without the items on the selected member. |
| ItemLists.WithoutIdempotent | PredicateLib/System/Condition.cs:84-93 | Ignoring a member twice gives the same list as ignoring it once. |
| ItemLists.WithoutUntargeted | PredicateLib/System/Condition.cs:84-93 | A list with no item on the member is left exactly as it was. |
| ItemLists.WithoutAppend | PredicateLib/System/Condition.cs:84-93 | Removal acts piecewise over a concatenation, so the surviving items keep their relative order. |
| ItemLists.WithoutPartition | PredicateLib/System/Condition.cs:87-91 | The kept items and the removed targets together are, as a multiset, the original items; their lengths add up. |
| ItemLists.WithOperator | PredicateLib/System/Condition.cs:102-111 | The length is the same, and every item keeps its member and value. Items on the selected member get the new operator; all other items keep theirs. |
| ItemLists.WithOperatorLastWins | PredicateLib/System/Condition.cs:102-111 | Setting a member's operator twice leaves the second operator, so repeating the call changes nothing. |
| ItemLists.WithoutAfterWithOperator | PredicateLib/System/Condition.cs:84-111 | Ignoring a member after reconfiguring it gives the same list as ignoring it directly. |
| ItemLists.WithOperatorTargets | PredicateLib/System/Condition.cs:105-109 | After reconfiguring, every item on the selected member carries the new operator. |
| ItemLists.Select | PredicateLib/System/Condition.cs:125 | One predicate per item, in order, each being that item's predicate. |
| ItemLists.SelectLeaves | PredicateLib/System/Condition.cs:124-125 | The leaves of the selected predicates, in order, are exactly the items. |
| ItemLists.ConjunctionShape | PredicateLib/System/Condition.cs:124-126 | The AND fold of a non-empty list is a left-associative AND comb whose leaves are the items in list order. |
| ItemLists.DisjunctionShape | PredicateLib/System/Condition.cs:140-142 | The OR fold of a non-empty list is a left-associative OR comb whose leaves are the items in list order. |
| ItemLists.ConjunctionMeaning | PredicateLib/System/Condition.cs:124-126 | The AND fold of a non-empty list holds exactly when every item's predicate holds. |
| ItemLists.DisjunctionMeaning | PredicateLib/System/Condition.cs:140-142 | The OR fold of a non-empty list holds exactly when some item's predicate holds. |
| Conditions.Condition.FromItems | PredicateLib/System/Condition.cs:46-53 | A null item sequence gives an empty list; any other is copied in order, unchanged. |
| Conditions.Condition.FromStrings | PredicateLib/System/Condition.cs:28-31 | The list is what `GetConditionItems` builds from the string-valued pairs. |
| Conditions.Condition.FromObjects | PredicateLib/System/Condition.cs:37-40 | The list is what `GetConditionItems` builds from the object-valued pairs. |
| Conditions.Condition.IgnoreFor | PredicateLib/System/Condition.cs:84-93 | The same instance is returned. The new list is the old one without the items on the selected member. A non-member selector is accepted only on an empty list, which it leaves unchanged. |
| Conditions.Condition.OperatorFor | PredicateLib/System/Condition.cs:102-111 | The same instance is returned. The new list is the old one with the operator of every item on the selected member replaced. A non-member selector is accepted only on an empty list, which it leaves unchanged. |
| Conditions.Condition.ToAndPredicate | PredicateLib/System/Condition.cs:117-127 | The result is `True` on an empty list. Otherwise it is a left-associative AND comb over the items in list order. It holds exactly when every item's predicate holds. It reads the object and changes nothing. |
| Conditions.Condition.ToOrPredicate | PredicateLib/System/Condition.cs:133-143 | The result is `False` on an empty list. Otherwise it is a left-associative OR comb over the items in list order. It holds exactly when some item's predicate holds. It reads the object and changes nothing. |
| Conditions.ToAndPredicateIsTheLeftFold | PredicateLib/System/Condition.cs:117-127 | Any left-associative AND comb whose leaves are the list's items equals the AND conversion. |
| Conditions.ToOrPredicateIsTheLeftFold | PredicateLib/System/Condition.cs:133-143 | Any left-associative OR comb whose leaves are the list's items equals the OR conversion. |
| Conditions.ExampleKeys | PredicateLib/System/Condition.cs:70 | `name` and `AGE` resolve to the properties `Name` and `Age`; `Email` resolves to nothing. |
| Conditions.ExampleConstruction | PredicateLib/System/Condition.cs:61-76 | `name=Alice&AGE=30&Email=a@b` builds exactly the items on `Name` and on `Age`, in that order. |

## Left out

- Reflection and its one-time static cache (`TypeProperties`, line 22): the property list is a parameter of the key/value constructors. The thread safety of the static initialiser is not modelled.
- `Predicate.True/False`, the `And`/`Or` expression extensions and `ConditionItem.ToPredicate` are code that is not part of this model. They are modelled as constructors of a small expression tree. What one item means for a record is an opaque parameter of `Eval`, so value coercion, operator semantics and coercion failures are not modelled.
- Short-circuit evaluation order of the built expression: `Eval` is a pure function, so evaluation order does not arise.
- `StringComparison.OrdinalIgnoreCase` is modelled for ASCII letters only. Unicode case mapping is not modelled.
- Null keys are not modelled: keys are always strings. (In the source a null key never matches.)
- Null items in a pre-built item sequence and a null key selector are not modelled: every item and every selector is a value. In the source, `AddRange` (line 52) accepts null items, which make `IgnoreFor`, `OperatorFor` (at `item.Member`, lines 87 and 105) and the conversions (at `item.ToPredicate()`, lines 125 and 141) throw on a non-empty list. A null selector makes `IgnoreFor` and `OperatorFor` throw at `keySelector.Body` (lines 86 and 104), even on an empty list.
- Selector introspection: a key selector is modelled directly as `MemberAccess(member)` or `OtherExpression`. The null dereference on a non-member selector is a precondition, as described above.
- Member identity: the source compares `MemberInfo` objects by reference. The model compares property values. A property declared in a base type, whose metadata object can differ from the one `GetProperties` returns, is not modelled.
- Aliasing of items: items are values in the object's own list. In the source they are objects a caller may share, so `OperatorFor` also changes them through other references. Likewise `List.Remove` compares by `Equals`, which the model takes as value equality.
- Laziness: the `GetConditionItems` iterator and the `Where` filters are modelled as eager sequences. This changes nothing here, because the list is not changed structurally while they are enumerated.
- The `Operator` enumeration is not part of this model: the model's operator datatype is a representative set with `Equal` as the default.
- "Conversions are read-only" has no member of its own: `ToAndPredicate` and `ToOrPredicate` are functions that may only read the object, so they cannot change the list, and repeated calls give equal results.
