/** The metric temporality cache: PopulateTemporality in app/http_handler.go. */
module MetricTemporality {
  import opened Wrappers
  import opened QueryModel

  /** The temporalities the time series table holds for each metric; a metric without rows has no entry. */
  type Table = map<string, set<Temporality>>

  /** The preference among what is known of a metric; nothing known is like nothing listed. */
  function Preferred(known: Option<set<Temporality>>): (t: Temporality)
    ensures t != Unset
    ensures t == Delta <==> known.Some? && Delta in known.value
    ensures t == Cumulative <==> known.Some? && Cumulative in known.value && Delta !in known.value
  {
    if known.Some? && Delta in known.value then Delta
    else if known.Some? && Cumulative in known.value then Cumulative
    else Unspecified
  }

  /** FetchTemporality of the reader: the rows of the metrics asked for. */
  function FetchTemporality(table: Table, names: seq<string>): Table {
    map n | n in names && n in table :: table[n]
  }

  class APIHandler {
    /** A name may be mapped to nil: the metric was fetched and had no rows. */
    var temporalityMap: map<string, Option<set<Temporality>>>

    constructor ()
      ensures temporalityMap == map[]
    {
      temporalityMap := map[];
    }

    function Cached(name: string): Option<set<Temporality>>
      reads this
    {
      if name in temporalityMap then temporalityMap[name] else None
    }

    /** The cache holds nothing the table does not say. */
    ghost predicate Agrees(table: Table)
      reads this
    {
      forall n :: n in temporalityMap ==> temporalityMap[n] == Lookup(table, n)
    }

    /** The first loop, over the queries in any order: fill in from the cache and collect what is missing. */
    method FillFromCache(queries: map<string, BuilderQuery>) returns (missing: seq<string>)
      modifies queries.Values`temporality
      ensures forall q :: q in queries.Values ==>
        q.temporality == WithCached(old(q.temporality), Cached(q.aggregateAttribute))
      ensures forall n :: n in missing <==> n in MissingNames(queries.Values)
    {
      missing := [];
      var todo := queries.Keys;
      ghost var done := {};
      while todo != {}
        invariant todo <= queries.Keys && done <= queries.Values
        invariant forall k :: k in queries && k !in todo ==> queries[k] in done
        invariant forall q :: q in queries.Values ==>
          q.temporality ==
            if q in done then WithCached(old(q.temporality), Cached(q.aggregateAttribute)) else old(q.temporality)
        invariant forall n :: n in missing <==> n in MissingNames(done)
        decreases todo
      {
        var k :| k in todo;
        todo := todo - {k};
        var query := queries[k];
        done := done + {query};
        if query.temporality == Unset && Cached(query.aggregateAttribute).Some? {
          var known := Cached(query.aggregateAttribute).value;
          if Delta in known {
            query.temporality := Delta;
          } else if Cumulative in known {
            query.temporality := Cumulative;
          } else {
            query.temporality := Unspecified;
          }
        }
        if query.dataSource == Metrics && query.temporality == Unset {
          missing := missing + [query.aggregateAttribute];
        }
      }
    }

    /** The second loop, over the queries in any order: fill in and remember what was fetched. */
    method FillFetched(queries: map<string, BuilderQuery>, fetched: Table)
      modifies queries.Values`temporality, this
      ensures forall q :: q in queries.Values ==>
        q.temporality == WithFetched(old(q.temporality), q.dataSource, Lookup(fetched, q.aggregateAttribute))
      ensures temporalityMap == Remember(old(temporalityMap), old(MissingNames(queries.Values)), fetched)
    {
      hide Remember, Lookup, Preferred;
      var todo := queries.Keys;
      ghost var done: set<BuilderQuery> := {};
      ghost var names: set<string> := {};
      RememberNone(temporalityMap, fetched);
      while todo != {}
        invariant todo <= queries.Keys && done <= queries.Values
        invariant forall k :: k in queries && k !in todo ==> queries[k] in done
        invariant forall q :: q in queries.Values && q !in done ==> q.temporality == old(q.temporality)
        invariant forall q :: q in done ==>
          q.temporality == WithFetched(old(q.temporality), q.dataSource, Lookup(fetched, q.aggregateAttribute))
        invariant names == old(MissingNames(done))
        invariant temporalityMap == Remember(old(temporalityMap), names, fetched)
        decreases todo
      {
        var k :| k in todo;
        todo := todo - {k};
        var query := queries[k];
        RememberOneMore(old(temporalityMap), names, query.aggregateAttribute, fetched);
        assert query in done && old(IsMissing(query)) ==> !IsMissing(query) && query.aggregateAttribute in names;
        names := names + if IsMissing(query) then {query.aggregateAttribute} else {};
        done := done + {query};
        FillOne(query, fetched);
      }
      assert done == queries.Values;
    }

    method FillOne(query: BuilderQuery, fetched: Table)
      modifies query`temporality, this
      ensures query.temporality ==
        WithFetched(old(query.temporality), query.dataSource, Lookup(fetched, query.aggregateAttribute))
      ensures temporalityMap ==
        if old(IsMissing(query))
        then old(temporalityMap)[query.aggregateAttribute := Lookup(fetched, query.aggregateAttribute)]
        else old(temporalityMap)
    {
      if query.dataSource == Metrics && query.temporality == Unset {
        var known := Lookup(fetched, query.aggregateAttribute);
        if known.Some? && Delta in known.value {
          query.temporality := Delta;
        } else if known.Some? && Cumulative in known.value {
          query.temporality := Cumulative;
        } else {
          query.temporality := Unspecified;
        }
        temporalityMap := temporalityMap[query.aggregateAttribute := Lookup(fetched, query.aggregateAttribute)];
      }
    }

    /** PopulateTemporality, for a table that does not change between calls. Whatever is cached, a metrics query without
        a temporality gets the one the table prefers, and the cache goes on agreeing with the table. A failing reader
        leaves the cache alone, but what was filled in from it stays. */
    method PopulateTemporality(queries: map<string, BuilderQuery>, table: Table, readerFails: bool) returns (ok: bool)
      requires Agrees(table)
      modifies queries.Values`temporality, this
      ensures Agrees(table) && ok == !readerFails
      ensures ok ==> forall q :: q in queries.Values && q.dataSource == Metrics ==>
        q.temporality ==
          if old(q.temporality) == Unset then Preferred(Lookup(table, q.aggregateAttribute)) else old(q.temporality)
      ensures forall q :: q in queries.Values && (q.dataSource != Metrics || !ok) ==>
        q.temporality ==
          if old(q.temporality) == Unset && old(Cached(q.aggregateAttribute)).Some?
          then Preferred(old(Cached(q.aggregateAttribute))) else old(q.temporality)
      ensures !ok ==> temporalityMap == old(temporalityMap)
      ensures ok ==> forall n :: n in temporalityMap <==>
        n in old(temporalityMap) || n in old(UncachedNames(queries.Values))
    {
      var missing := FillFromCache(queries);
      if readerFails {
        return false;
      }
      var fetched := FetchTemporality(table, missing);
      label filled:
      assert MissingNames(queries.Values) == old(UncachedNames(queries.Values));
      FillFetched(queries, fetched);
      return true;
    }

    /** The metrics asked for without a temporality that the cache cannot supply. */
    ghost function UncachedNames(queries: set<BuilderQuery>): set<string>
      reads queries, this
    {
      set q | q in queries && IsMissing(q) && Cached(q.aggregateAttribute).None? :: q.aggregateAttribute
    }
  }

  ghost predicate IsMissing(q: BuilderQuery)
    reads q
  {
    q.dataSource == Metrics && q.temporality == Unset
  }

  ghost function MissingNames(queries: set<BuilderQuery>): set<string>
    reads queries
  {
    set q | q in queries && IsMissing(q) :: q.aggregateAttribute
  }

  ghost function Remember(m: map<string, Option<set<Temporality>>>, names: set<string>, fetched: Table)
    : map<string, Option<set<Temporality>>>
  {
    map n | n in m.Keys + names :: if n in names then Lookup(fetched, n) else m[n]
  }

  lemma RememberNone(m: map<string, Option<set<Temporality>>>, fetched: Table)
    ensures Remember(m, {}, fetched) == m
  {
  }

  lemma RememberOneMore(m: map<string, Option<set<Temporality>>>, names: set<string>, name: string, fetched: Table)
    ensures Remember(m, names + {name}, fetched) == Remember(m, names, fetched)[name := Lookup(fetched, name)]
    ensures Remember(m, names + {}, fetched) == Remember(m, names, fetched)
  {
    assert names + {} == names;
  }

  /** A query that names no temporality takes the preferred one of what is cached for its metric, if anything is. */
  function WithCached(t: Temporality, cached: Option<set<Temporality>>): Temporality {
    if t == Unset && cached.Some? then Preferred(cached) else t
  }

  function WithFetched(t: Temporality, source: DataSource, fetched: Option<set<Temporality>>): Temporality {
    if t == Unset && source == Metrics then Preferred(fetched) else t
  }
}
