/**
 The concept catalog (`availableConcepts`) and concept compatibility
 (`getAllowedConcepts`): which semantic roles a column can be mapped to,
 given the type ids it is compatible with.
 */
module Concepts {
  import opened Collections
  import opened Types

  datatype Group = Measure | Dimension

  /** The `map` entry of a concept: the field it becomes in the output schema. */
  datatype OutputMapping = OutputMapping(name: string, dimensionType: string)

  datatype Concept = Concept(
    name: string,
    id: string,
    allowedTypes: seq<TypeId>,
    group: Option<Group>,
    required: bool,
    mapping: OutputMapping)

  /** The types an identifier column may have. */
  const IdTypes: seq<TypeId> := ["integer", "number", "string"]

  /** The "no selection" entry; like the two labels it allows every registry type. */
  function Unselected(allTypes: seq<TypeId>): Concept {
    Concept("", "", allTypes, None, false, OutputMapping("other", "other"))
  }

  const Amount := Concept("Amount", "measures.amount", ["number", "integer"], Some(Measure), true, OutputMapping("amount", "amount"))

  /** Lists "numeric", which is not the id of a json-table-schema type ("number" is). */
  const DateTime := Concept("Date / Time", "dimensions.datetime", ["datetime", "date", "time", "integer", "numeric"], Some(Dimension), true, OutputMapping("datetime", "datetime"))

  const Classification := Concept("Classification", "dimensions.classification", IdTypes, Some(Dimension), false, OutputMapping("classification", "classification"))

  const ClassificationId := Concept("Classification > ID", "dimensions.classification.id", IdTypes, Some(Dimension), false, OutputMapping("classification-id", "classification"))

  function ClassificationLabel(allTypes: seq<TypeId>): Concept {
    Concept("Classification > Label", "dimensions.classification.label", allTypes, Some(Dimension), false, OutputMapping("classification-label", "classification"))
  }

  const Entity := Concept("Entity", "dimensions.entity", IdTypes, Some(Dimension), false, OutputMapping("entity", "entity"))

  const EntityId := Concept("Entity > ID", "dimensions.entity.id", IdTypes, Some(Dimension), false, OutputMapping("entity-id", "entity"))

  function EntityLabel(allTypes: seq<TypeId>): Concept {
    Concept("Entity > Label", "dimensions.entity.label", allTypes, Some(Dimension), false, OutputMapping("entity-label", "entity"))
  }

  /**
   `availableConcepts`, in catalog order; `allTypes` is the list of registry
   ids (`_.pluck(availableDataTypes, 'id')`).
   */
  function Catalog(allTypes: seq<TypeId>): seq<Concept> {
    [Unselected(allTypes), Amount, DateTime, Classification, ClassificationId,
     ClassificationLabel(allTypes), Entity, EntityId, EntityLabel(allTypes)]
  }

  function ConceptIds(concepts: seq<Concept>): (r: seq<string>)
    ensures |r| == |concepts|
    ensures forall i :: 0 <= i < |concepts| ==> r[i] == concepts[i].id
  {
    seq(|concepts|, i requires 0 <= i < |concepts| => concepts[i].id)
  }

  /**
   The shape of the catalog: nine entries with distinct ids; exactly Amount
   and Date / Time are required; Amount alone is a measure; the "no
   selection" entry and the two labels allow every registry type, and each
   other entry allows a fixed non-empty list.
   */
  lemma CatalogShape(allTypes: seq<TypeId>)
    ensures |Catalog(allTypes)| == 9
    ensures NoDup(ConceptIds(Catalog(allTypes)))
    ensures forall i :: 0 <= i < 9 ==> (Catalog(allTypes)[i].required <==> i == 1 || i == 2)
    ensures forall i :: 0 <= i < 9 ==> (Catalog(allTypes)[i].group == Some(Measure) <==> i == 1)
    ensures forall i :: 0 <= i < 9 ==> (Catalog(allTypes)[i].group.None? <==> i == 0)
    ensures forall i :: i in {0, 5, 8} ==> Catalog(allTypes)[i].allowedTypes == allTypes
    ensures forall i :: 0 <= i < 9 && i !in {0, 5, 8} ==> |Catalog(allTypes)[i].allowedTypes| > 0
  {
    var ids := ConceptIds(Catalog(allTypes));
    assert ids == ["", "measures.amount", "dimensions.datetime", "dimensions.classification",
                   "dimensions.classification.id", "dimensions.classification.label",
                   "dimensions.entity", "dimensions.entity.id", "dimensions.entity.label"];
  }

  /** The argument of `getAllowedConcepts`: one type, or an array of types (given by id). */
  datatype TypeArg = OneType(id: TypeId) | TypeList(ids: seq<TypeId>)

  /** `_.isArray(types) ? _.pluck(types, 'id') : [types.id]` */
  function ArgIds(arg: TypeArg): seq<TypeId> {
    match arg
    case OneType(id) => [id]
    case TypeList(ids) => ids
  }

  /** Two id lists share an id. */
  predicate Overlaps(a: seq<TypeId>, b: seq<TypeId>) {
    exists t :: t in a && t in b
  }

  /** Reference test: the concept allows one of the ids. */
  function Overlapping(ids: seq<TypeId>): Concept -> bool {
    (c: Concept) => Overlaps(c.allowedTypes, ids)
  }

  /** The source's test: `_.intersection(concept.allowedTypes, types).length > 0`. */
  function KeepConcept(ids: seq<TypeId>): Concept -> bool {
    (c: Concept) => |Intersection(c.allowedTypes, [ids])| > 0
  }

  /**
   `getAllowedConcepts`: the catalog entries, in catalog order, that allow at
   least one of the given type ids.
   */
  function GetAllowedConcepts(allTypes: seq<TypeId>, arg: TypeArg): (r: seq<Concept>)
    ensures r == Filter(Catalog(allTypes), Overlapping(ArgIds(arg)))
  {
    var ids := ArgIds(arg);
    assert forall c :: KeepConcept(ids)(c) == Overlapping(ids)(c) by {
      forall c ensures KeepConcept(ids)(c) == Overlapping(ids)(c) {
        var common := Intersection(c.allowedTypes, [ids]);
        if |common| > 0 {
          assert common[0] in common;
          assert InAll(common[0], [ids]);
          assert [ids][0] == ids;
        }
        if Overlaps(c.allowedTypes, ids) {
          var t :| t in c.allowedTypes && t in ids;
          assert InAll(t, [ids]);
          assert t in common;
        }
      }
    }
    FilterExt(Catalog(allTypes), KeepConcept(ids), Overlapping(ids));
    Filter(Catalog(allTypes), KeepConcept(ids))
  }

  /** Amount is offered exactly for a "number" or an "integer". */
  lemma AmountOfferedIff(allTypes: seq<TypeId>, arg: TypeArg)
    ensures Amount in GetAllowedConcepts(allTypes, arg) <==> "number" in ArgIds(arg) || "integer" in ArgIds(arg)
  {
  }

  /**
   The "no selection" entry and both label concepts are offered exactly when
   one of the ids is a registry type: they are the entries that allow every
   registry type.
   */
  lemma GenericConceptsOffered(allTypes: seq<TypeId>, arg: TypeArg)
    ensures Unselected(allTypes) in GetAllowedConcepts(allTypes, arg) <==> Overlaps(allTypes, ArgIds(arg))
    ensures ClassificationLabel(allTypes) in GetAllowedConcepts(allTypes, arg) <==> Overlaps(allTypes, ArgIds(arg))
    ensures EntityLabel(allTypes) in GetAllowedConcepts(allTypes, arg) <==> Overlaps(allTypes, ArgIds(arg))
  {
  }

  /** An empty list of types matches no concept, not even "no selection". */
  lemma NoTypesNoConcepts(allTypes: seq<TypeId>)
    ensures GetAllowedConcepts(allTypes, TypeList([])) == []
  {
    FilterNone(Catalog(allTypes), Overlapping([]));
  }

  /** Every concept allows "integer", so an integer column is offered the whole catalog. */
  lemma IntegerOffersEveryConcept(allTypes: seq<TypeId>)
    requires "integer" in allTypes
    ensures GetAllowedConcepts(allTypes, OneType("integer")) == Catalog(allTypes)
  {
    var cat := Catalog(allTypes);
    forall c | c in cat ensures Overlapping(["integer"])(c) {
      assert "integer" in c.allowedTypes;
    }
    FilterAll(cat, Overlapping(["integer"]));
  }

  /** Filtering the catalog splits into its entries. */
  lemma FilterCatalog(allTypes: seq<TypeId>, p: Concept -> bool)
    ensures Filter(Catalog(allTypes), p)
         == (Pick(Unselected(allTypes), p(Unselected(allTypes))) + Pick(Amount, p(Amount)) + Pick(DateTime, p(DateTime)))
          + (Pick(Classification, p(Classification)) + Pick(ClassificationId, p(ClassificationId))
             + Pick(ClassificationLabel(allTypes), p(ClassificationLabel(allTypes))))
          + (Pick(Entity, p(Entity)) + Pick(EntityId, p(EntityId)) + Pick(EntityLabel(allTypes), p(EntityLabel(allTypes))))
  {
    var first := [Unselected(allTypes), Amount, DateTime];
    var second := [Classification, ClassificationId, ClassificationLabel(allTypes)];
    var third := [Entity, EntityId, EntityLabel(allTypes)];
    assert Catalog(allTypes) == first + second + third;
    FilterAppend(first + second, third, p);
    FilterAppend(first, second, p);
    FilterThree(Unselected(allTypes), Amount, DateTime, p);
    FilterThree(Classification, ClassificationId, ClassificationLabel(allTypes), p);
    FilterThree(Entity, EntityId, EntityLabel(allTypes), p);
  }

  /** The concepts offered for a single type id `t`, entry by entry. */
  lemma SingleTypeOffers(allTypes: seq<TypeId>, t: TypeId)
    ensures GetAllowedConcepts(allTypes, OneType(t))
         == (Pick(Unselected(allTypes), t in allTypes) + Pick(Amount, t in Amount.allowedTypes)
             + Pick(DateTime, t in DateTime.allowedTypes))
          + (Pick(Classification, t in IdTypes) + Pick(ClassificationId, t in IdTypes)
             + Pick(ClassificationLabel(allTypes), t in allTypes))
          + (Pick(Entity, t in IdTypes) + Pick(EntityId, t in IdTypes) + Pick(EntityLabel(allTypes), t in allTypes))
  {
    var p := Overlapping([t]);
    forall c ensures p(c) == (t in c.allowedTypes) {
      if t in c.allowedTypes {
        assert t in [t];
      }
    }
    FilterCatalog(allTypes, p);
  }

  /** A date column is offered Date / Time, the two labels and "no selection", in that catalog order. */
  lemma DateOffers(allTypes: seq<TypeId>)
    requires "date" in allTypes
    ensures GetAllowedConcepts(allTypes, OneType("date"))
         == [Unselected(allTypes), DateTime, ClassificationLabel(allTypes), EntityLabel(allTypes)]
  {
    SingleTypeOffers(allTypes, "date");
    assert "date" !in Amount.allowedTypes && "date" in DateTime.allowedTypes && "date" !in IdTypes;
    KeepFirstThirdLast(Unselected(allTypes), Amount, DateTime, Classification, ClassificationId,
                       ClassificationLabel(allTypes), Entity, EntityId, EntityLabel(allTypes));
  }

  /** Picking the first, third, sixth and ninth of nine elements, in the grouping used above. */
  lemma KeepFirstThirdLast<T>(a: T, b: T, c: T, d: T, e: T, f: T, g: T, h: T, i: T)
    ensures (Pick(a, true) + Pick(b, false) + Pick(c, true)) + (Pick(d, false) + Pick(e, false) + Pick(f, true))
          + (Pick(g, false) + Pick(h, false) + Pick(i, true)) == [a, c, f, i]
  {
  }

  /**
   The stray "numeric" id: when the registry has no such type, only
   Date / Time lists it, so an explicit "numeric" matches that concept alone.
   */
  lemma NumericMatchesOnlyDateTime(allTypes: seq<TypeId>)
    requires "numeric" !in allTypes
    ensures GetAllowedConcepts(allTypes, OneType("numeric")) == [DateTime]
  {
    SingleTypeOffers(allTypes, "numeric");
    assert "numeric" !in Amount.allowedTypes && "numeric" in DateTime.allowedTypes && "numeric" !in IdTypes;
  }

  /**
   End to end for a sampled column: the concepts offered for the column's
   allowed types include "no selection" exactly when some registry type
   fits the whole sample.
   */
  lemma ColumnConcepts<V>(allTypes: seq<TypeId>, accepts: (TypeId, V) -> bool, s: Sample<V>)
    ensures Unselected(allTypes) in GetAllowedConcepts(allTypes, TypeList(AllowedTypes(allTypes, accepts, s)))
        <==> exists t :: t in allTypes && AcceptsSample(accepts, t, s)
  {
  }
}
