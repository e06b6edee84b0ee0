/**
 Type compatibility: which primitive types of the type registry a sampled
 value, or a column of sampled values, can be cast to
 (`getAllowedTypesForValues`).

 The registry is the ordered list of type ids built from json-table-schema's
 type constructors; the casts themselves are that library's code, so the
 model receives them as a predicate `accepts(typeId, value)`.
 */
module Types {
  import opened Collections

  type TypeId = string

  /**
   A sample handed to `getAllowedTypesForValues`: a single value, or an array
   whose elements are again samples (the function recurses on each element).
   */
  datatype Sample<V> = Scalar(value: V) | Column(items: seq<Sample<V>>)

  /**
   Reference meaning of "type `t` fits sample `s`": a scalar fits when the
   cast accepts it, a column when it is non-empty and every element fits.
   */
  predicate AcceptsSample<V>(accepts: (TypeId, V) -> bool, t: TypeId, s: Sample<V>)
    decreases s
  {
    match s
    case Scalar(v) => accepts(t, v)
    case Column(items) =>
      |items| > 0 && forall i :: 0 <= i < |items| ==> AcceptsSample(accepts, t, items[i])
  }

  /** The filter callback of the scalar branch: `type.cast(value)`. */
  function CastsTo<V>(accepts: (TypeId, V) -> bool, v: V): TypeId -> bool {
    t => accepts(t, v)
  }

  /** The reference filter: the types that fit the whole sample. */
  function AcceptedBy<V>(accepts: (TypeId, V) -> bool, s: Sample<V>): TypeId -> bool {
    t => AcceptsSample(accepts, t, s)
  }

  /**
   `getAllowedTypesForValues`: a scalar keeps the registry types whose cast
   accepts it; an array maps itself over its elements and intersects the
   resulting lists with `_.intersection`.
   */
  function AllowedTypes<V>(registry: seq<TypeId>, accepts: (TypeId, V) -> bool, s: Sample<V>): (r: seq<TypeId>)
    ensures forall t :: t in r <==> t in registry && AcceptsSample(accepts, t, s)
    ensures NoDup(registry) ==> NoDup(r)
    decreases s, 1
  {
    match s
    case Scalar(v) => Filter(registry, CastsTo(accepts, v))
    case Column(items) => IntersectAll(ElementTypes(registry, accepts, items))
  }

  /** `_.map(values, getAllowedTypesForValues)`: one list per element. */
  function ElementTypes<V>(registry: seq<TypeId>, accepts: (TypeId, V) -> bool, items: seq<Sample<V>>): (r: seq<seq<TypeId>>)
    ensures |r| == |items|
    ensures forall j :: 0 <= j < |items| ==> r[j] == AllowedTypes(registry, accepts, items[j])
    decreases Column(items), 0
  {
    seq(|items|, i requires 0 <= i < |items| => AllowedTypes(registry, accepts, items[i]))
  }

  /**
   With distinct registry ids, the allowed types of any sample are exactly the
   registry types fitting the whole sample, in registry order. For a column
   this is the intersection of its elements' results, ordered like the
   registry (the order of the first element's list).
   */
  lemma {:induction false} AllowedTypesInRegistryOrder<V>(registry: seq<TypeId>, accepts: (TypeId, V) -> bool, s: Sample<V>)
    requires NoDup(registry)
    ensures AllowedTypes(registry, accepts, s) == Filter(registry, AcceptedBy(accepts, s))
    decreases s
  {
    match s
    case Scalar(v) =>
      FilterExt(registry, CastsTo(accepts, v), AcceptedBy(accepts, s));
    case Column(items) =>
      if |items| == 0 {
        FilterNone(registry, AcceptedBy(accepts, s));
      } else {
        AllowedTypesInRegistryOrder(registry, accepts, items[0]);
        ColumnInRegistryOrder(registry, accepts, items);
      }
  }

  /** The column step of the lemma above, given the result for the first element. */
  lemma ColumnInRegistryOrder<V>(registry: seq<TypeId>, accepts: (TypeId, V) -> bool, items: seq<Sample<V>>)
    requires NoDup(registry) && |items| > 0
    requires AllowedTypes(registry, accepts, items[0]) == Filter(registry, AcceptedBy(accepts, items[0]))
    ensures AllowedTypes(registry, accepts, Column(items)) == Filter(registry, AcceptedBy(accepts, Column(items)))
  {
    var lists := ElementTypes(registry, accepts, items);
    var rest := lists[1..];
    IntersectionOfDistinct(lists[0], rest);
    FilterFilter(registry, AcceptedBy(accepts, items[0]), InAllOf(rest));
    forall t | t in registry
      ensures Both(AcceptedBy(accepts, items[0]), InAllOf(rest))(t) == AcceptedBy(accepts, Column(items))(t)
    {
      FitsAllElements(registry, accepts, items, t);
    }
    FilterExt(registry, Both(AcceptedBy(accepts, items[0]), InAllOf(rest)), AcceptedBy(accepts, Column(items)));
  }

  /** A registry type fits a column iff it fits the first element and is allowed for all the others. */
  lemma FitsAllElements<V>(registry: seq<TypeId>, accepts: (TypeId, V) -> bool, items: seq<Sample<V>>, t: TypeId)
    requires |items| > 0 && t in registry
    ensures AcceptsSample(accepts, t, Column(items))
        <==> AcceptsSample(accepts, t, items[0]) && InAll(t, ElementTypes(registry, accepts, items)[1..])
  {
  }

  /**
   A column's allowed types are the intersection of its elements' allowed
   types: a type survives exactly when every element accepts it.
   */
  lemma ColumnIsIntersection<V>(registry: seq<TypeId>, accepts: (TypeId, V) -> bool, items: seq<Sample<V>>, t: TypeId)
    requires |items| > 0
    ensures t in AllowedTypes(registry, accepts, Column(items))
        <==> forall i :: 0 <= i < |items| ==> t in AllowedTypes(registry, accepts, items[i])
  {
  }

  /** An empty column is accepted by no type, as `_.intersection()` keeps nothing. */
  lemma EmptyColumnHasNoTypes<V>(registry: seq<TypeId>, accepts: (TypeId, V) -> bool)
    ensures AllowedTypes(registry, accepts, Column([])) == []
  {
  }

  /**
   The worked example of a mixed column: over the registry
   ["integer", "string"], a column of two integers and one non-integer (say
   "1", "2", "x") keeps only "string".
   */
  lemma MixedColumnKeepsString<V>(accepts: (TypeId, V) -> bool, one: V, two: V, bad: V)
    requires accepts("integer", one) && accepts("integer", two) && !accepts("integer", bad)
    requires accepts("string", one) && accepts("string", two) && accepts("string", bad)
    ensures AllowedTypes(["integer", "string"], accepts, Column([Scalar(one), Scalar(two), Scalar(bad)])) == ["string"]
  {
    var registry: seq<TypeId> := ["integer", "string"];
    var s := Column([Scalar(one), Scalar(two), Scalar(bad)]);
    assert NoDup(registry);
    AllowedTypesInRegistryOrder(registry, accepts, s);
    assert !AcceptsSample(accepts, "integer", s) by {
      assert !AcceptsSample(accepts, "integer", s.items[2]);
    }
    assert AcceptsSample(accepts, "string", s);
    assert registry[..1] == ["integer"];
    assert ["integer"][..0] == [];
  }
}
