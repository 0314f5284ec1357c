/** How `listMatches` splits the requested filters between the store query
    and an in-memory pass over the returned metadata documents. A range
    filter on `updatedAt` always goes into the query; the equality filters
    on `gameName` and `isGameover` go into the query only when composite
    indexes are enabled or no range filter is present, and are otherwise
    applied in memory. */
module Planner {
  import opened Values

  datatype Where = Where(
    updatedBefore: Option<int>,
    updatedAfter: Option<int>,
    isGameover: Option<bool>)

  datatype ListOpts = ListOpts(gameName: Option<string>, where: Where)

  /** One `where` clause of a store query over the metadata collection. */
  datatype Clause =
    | UpdatedAfter(after: int)
    | UpdatedBefore(before: int)
    | GameNameIs(name: string)
    | IsGameoverIs(flag: bool)

  /** The store's reading of a clause against one metadata document. A range
      comparison only matches a numeric field; equality matches equal values. */
  predicate Satisfies(doc: Record, c: Clause)
  {
    match c
    case UpdatedAfter(a) => Field(doc, "updatedAt").Num? && Field(doc, "updatedAt").n > a
    case UpdatedBefore(b) => Field(doc, "updatedAt").Num? && Field(doc, "updatedAt").n < b
    case GameNameIs(g) => Field(doc, "gameName") == Str(g)
    case IsGameoverIs(f) => Field(doc, "isGameover") == Bool(f)
  }

  /** A query matches the documents that satisfy all of its clauses. */
  predicate SatisfiesAll(doc: Record, query: seq<Clause>)
  {
    forall c :: c in query ==> Satisfies(doc, c)
  }

  predicate HasDateFilter(w: Where)
  {
    w.updatedAfter.Some? || w.updatedBefore.Some?
  }

  predicate NeedsEqualityQueries(opts: ListOpts)
  {
    opts.gameName.Some? || opts.where.isGameover.Some?
  }

  predicate CanUseEqualityQueries(useCompositeIndexes: bool, opts: ListOpts)
  {
    useCompositeIndexes || !HasDateFilter(opts.where)
  }

  predicate NeedsManualFiltering(useCompositeIndexes: bool, opts: ListOpts)
  {
    NeedsEqualityQueries(opts) && !CanUseEqualityQueries(useCompositeIndexes, opts)
  }

  function RangeClauses(w: Where): seq<Clause>
  {
    (if w.updatedAfter.Some? then [UpdatedAfter(w.updatedAfter.value)] else [])
    + (if w.updatedBefore.Some? then [UpdatedBefore(w.updatedBefore.value)] else [])
  }

  function EqualityClauses(opts: ListOpts): seq<Clause>
  {
    (if opts.gameName.Some? then [GameNameIs(opts.gameName.value)] else [])
    + (if opts.where.isGameover.Some? then [IsGameoverIs(opts.where.isGameover.value)] else [])
  }

  /** The query `listMatches` sends, built clause by clause as the source
      chains `ref.where(...)`. Every range filter is in it; each equality
      filter is in it exactly when it is requested and may be combined. */
  function Query(opts: ListOpts, useCompositeIndexes: bool): (query: seq<Clause>)
    ensures forall a :: UpdatedAfter(a) in query <==> opts.where.updatedAfter == Some(a)
    ensures forall b :: UpdatedBefore(b) in query <==> opts.where.updatedBefore == Some(b)
    ensures forall g :: GameNameIs(g) in query <==>
      opts.gameName == Some(g) && CanUseEqualityQueries(useCompositeIndexes, opts)
    ensures forall f :: IsGameoverIs(f) in query <==>
      opts.where.isGameover == Some(f) && CanUseEqualityQueries(useCompositeIndexes, opts)
  {
    RangeClauses(opts.where)
    + (if NeedsEqualityQueries(opts) && CanUseEqualityQueries(useCompositeIndexes, opts)
       then EqualityClauses(opts) else [])
  }

  /** The in-memory test applied to each returned document when manual
      filtering is needed: a document is dropped when a requested equality
      does not hold of it. */
  predicate ManualKeep(opts: ListOpts, doc: Record)
  {
    !((opts.gameName.Some? && Field(doc, "gameName") != Str(opts.gameName.value))
      || (opts.where.isGameover == Some(false) && Field(doc, "isGameover") != Bool(false))
      || (opts.where.isGameover == Some(true) && Field(doc, "isGameover") != Bool(true)))
  }

  /** What the plan keeps: matched by the query and, if needed, by the
      in-memory test. */
  predicate KeptByPlan(opts: ListOpts, useCompositeIndexes: bool, doc: Record)
  {
    SatisfiesAll(doc, Query(opts, useCompositeIndexes))
    && (NeedsManualFiltering(useCompositeIndexes, opts) ==> ManualKeep(opts, doc))
  }

  /** What a caller asks for: every requested filter holds of the document. */
  predicate MatchesFilter(opts: ListOpts, doc: Record)
  {
    && (opts.gameName.Some? ==> Field(doc, "gameName") == Str(opts.gameName.value))
    && (opts.where.isGameover.Some? ==> Field(doc, "isGameover") == Bool(opts.where.isGameover.value))
    && (opts.where.updatedAfter.Some? ==>
          Field(doc, "updatedAt").Num? && Field(doc, "updatedAt").n > opts.where.updatedAfter.value)
    && (opts.where.updatedBefore.Some? ==>
          Field(doc, "updatedAt").Num? && Field(doc, "updatedAt").n < opts.where.updatedBefore.value)
  }

  /** The plan keeps a document exactly when it meets every requested filter. */
  lemma PlanIsExact(opts: ListOpts, useCompositeIndexes: bool, doc: Record)
    ensures KeptByPlan(opts, useCompositeIndexes, doc) <==> MatchesFilter(opts, doc)
  {
    var q := Query(opts, useCompositeIndexes);
    var w := opts.where;
    if KeptByPlan(opts, useCompositeIndexes, doc) {
      if w.updatedAfter.Some? { assert UpdatedAfter(w.updatedAfter.value) in q; }
      if w.updatedBefore.Some? { assert UpdatedBefore(w.updatedBefore.value) in q; }
      if CanUseEqualityQueries(useCompositeIndexes, opts) {
        if opts.gameName.Some? { assert GameNameIs(opts.gameName.value) in q; }
        if w.isGameover.Some? { assert IsGameoverIs(w.isGameover.value) in q; }
      }
    }
    if MatchesFilter(opts, doc) {
      forall c | c in q ensures Satisfies(doc, c) {
        match c
        case UpdatedAfter(a) =>
        case UpdatedBefore(b) =>
        case GameNameIs(g) =>
        case IsGameoverIs(f) =>
      }
    }
  }

  /** The listed documents do not depend on whether composite indexes are used. */
  lemma PlanIndependentOfCompositeIndexes(opts: ListOpts, doc: Record)
    ensures KeptByPlan(opts, true, doc) <==> KeptByPlan(opts, false, doc)
  {
    PlanIsExact(opts, true, doc);
    PlanIsExact(opts, false, doc);
  }

  /** Each requested equality filter is applied exactly once: in the query or
      in memory, never both, and an unrequested one is applied nowhere. */
  lemma EachFilterAppliedOnce(opts: ListOpts, useCompositeIndexes: bool)
    ensures forall g :: opts.gameName == Some(g) ==>
      (GameNameIs(g) in Query(opts, useCompositeIndexes)
       <==> !NeedsManualFiltering(useCompositeIndexes, opts))
    ensures forall f :: opts.where.isGameover == Some(f) ==>
      (IsGameoverIs(f) in Query(opts, useCompositeIndexes)
       <==> !NeedsManualFiltering(useCompositeIndexes, opts))
    ensures !NeedsEqualityQueries(opts) ==>
      !NeedsManualFiltering(useCompositeIndexes, opts)
      && (forall c :: c in Query(opts, useCompositeIndexes) ==> c.UpdatedAfter? || c.UpdatedBefore?)
  {
  }
}
