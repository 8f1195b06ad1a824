/**
 * The values a condition list is made of. `ConditionItem` and `Operator` are
 * defined outside the modelled file; only what the file relies on is kept:
 * the targeted property, the comparison operator and the raw value.
 */
module Items {

  import Wrappers
  import opened Predicates

  /**
   * Metadata of one property of the record type. `handle` tells apart two
   * metadata objects that carry the same name (a property hidden with `new`
   * in a derived type); member comparison in the source is by identity, which
   * the model takes as equality of these values.
   */
  datatype Property = Property(name: string, handle: nat)

  /** Comparison kinds; `Equal` is what a freshly built item uses. */
  datatype Operator =
    | Equal | NotEqual | Contains | StartsWith | EndsWith
    | GreaterThan | GreaterThanOrEqual | LessThan | LessThanOrEqual

  /** A raw, not yet coerced value: `null`, a string, or some other object. */
  datatype Value = Null | Text(text: string) | Object(handle: nat)

  /** One condition: the property it targets, its operator and its raw value. */
  datatype ConditionItem = ConditionItem(member: Property, operator: Operator, value: Value)

  /** A loosely typed input pair (a query-string or form entry). */
  datatype Pair<V> = Pair(key: string, value: V)

  /**
   * The body of a key selector lambda: either a member access `x => x.P`
   * (the `MemberExpression` case) or anything else.
   */
  datatype Selector = MemberAccess(member: Property) | OtherExpression

  /** `new ConditionItem<T>(member, value)`: the default operator is `Equal`. */
  function NewItem(member: Property, value: Value): (item: ConditionItem)
    ensures item.member == member && item.value == value && item.operator == Equal
  {
    ConditionItem(member, Equal, value)
  }

  /** A string value as the object the item stores (`null` stays `null`). */
  function StringValue(s: Wrappers.Option<string>): (v: Value)
    ensures s.None? <==> v.Null?
    ensures s.Some? ==> v == Text(s.value)
  {
    match s
    case None => Null
    case Some(t) => Text(t)
  }

  /** An item value that is already an object is stored as it is. */
  function ObjectValue(v: Value): (r: Value)
    ensures r == v
  {
    v
  }

  /** `ConditionItem.ToPredicate()`: the single-property predicate of one item, kept opaque as a leaf. */
  function ToPredicate(item: ConditionItem): (p: Pred<ConditionItem>)
    ensures Leaves(p) == [item]
    ensures forall sat: ConditionItem -> bool :: Eval(p, sat) == sat(item)
  {
    Leaf(item)
  }
}
