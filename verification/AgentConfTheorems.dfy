/** What holds in every state that a manager can reach. */
module AgentConfTheorems {
  import opened Wrappers
  import opened ConfigIds
  import opened AgentConf

  ghost predicate AllMarked(used: seq<Used>, log: seq<Event>) {
    forall u :: u in used ==> WasMarked(log, u.elementType, u.version)
  }

  /** What a recommendation used stays marked, whatever happens later. */
  lemma RecommendedStaysMarked(before: seq<Event>, used: seq<Used>, later: seq<Event>)
    ensures AllMarked(used, before + MarkedAll(used) + later)
  {
    var log := before + MarkedAll(used) + later;
    forall u | u in used ensures Marked(u.elementType, u.version) in log {
      var i :| 0 <= i < |used| && used[i] == u;
      assert log[|before| + i] == MarkedAll(used)[i];
    }
  }

  /** A report on configId updates this row. */
  predicate IsReached(row: VersionRow, configId: string) {
    row.lastHash.Some? && row.lastHash.value in Split(configId)
  }

  /** However late it comes, a report on the id of a recommendation reaches exactly the rows used in it. */
  lemma ReportReachesUsedRows(rows: Table, elements: set<ElementRow>, log: seq<Event>, used: seq<Used>, id: string)
    requires IsStateOf(rows, elements, log) && AllMarked(used, log)
    requires used != [] && forall u :: u in used ==> ',' !in u.elementType
    requires id in rows
    ensures IsReached(rows[id], Join(UsedIds(used))) <==> UsedOf(rows[id]) in used
  {
    var row, ids := rows[id], UsedIds(used);
    forall p | p in ids ensures ',' !in p {
      var i :| 0 <= i < |ids| && ids[i] == p;
      assert used[i] in used;
      ConfigIdHasNoComma(used[i].elementType, used[i].version);
    }
    SplitJoin(ids);
    assert RowMatches(row, log);
    var hash := ConfigId(row.elementType, row.version);
    if hash in ids {
      var i :| 0 <= i < |ids| && ids[i] == hash;
      ConfigIdInjective(row.elementType, row.version, used[i].elementType, used[i].version);
      assert used[i] == UsedOf(row);
    }
    if UsedOf(row) in used {
      UsedIsReached(rows, elements, log, used, id);
    }
  }

  /** A row whose type contains a comma is reached by no report at all. */
  lemma CommaLosesReport(rows: Table, elements: set<ElementRow>, log: seq<Event>, id: string, configId: string)
    requires IsStateOf(rows, elements, log) && id in rows && ',' in rows[id].elementType
    ensures !IsReached(rows[id], configId)
  {
    assert RowMatches(rows[id], log);
    ConfigIdHasNoComma(rows[id].elementType, rows[id].version);
    SplitHasNoCommas(configId);
  }

  ghost predicate ReachesExactly(rows: Table, used: seq<Used>) {
    forall id :: id in rows ==> (IsReached(rows[id], Join(UsedIds(used))) <==> UsedOf(rows[id]) in used)
  }

  /** A used version with a row can be found by its id. */
  ghost predicate NoneLost(rows: Table, used: seq<Used>) {
    forall id :: id in rows && UsedOf(rows[id]) in used ==> ',' !in rows[id].elementType
  }

  /** The type of a used version has a comma, and its id has the id of a row's version, which was recommended some time,
      among its parts. */
  predicate Hits(u: Used, row: VersionRow) {
    && ',' in u.elementType && row.lastHash.Some?
    && ConfigId(row.elementType, row.version) in Split(ConfigId(u.elementType, u.version))
  }

  ghost predicate NoneHit(rows: Table, used: seq<Used>) {
    forall u, id :: u in used && id in rows && UsedOf(rows[id]) !in used ==> !Hits(u, rows[id])
  }

  lemma UsedIsReached(rows: Table, elements: set<ElementRow>, log: seq<Event>, used: seq<Used>, id: string)
    requires IsStateOf(rows, elements, log) && AllMarked(used, log)
    requires id in rows && UsedOf(rows[id]) in used && ',' !in rows[id].elementType
    ensures IsReached(rows[id], Join(UsedIds(used)))
  {
    hide Join, Split;
    var row, ids := rows[id], UsedIds(used);
    var hash := ConfigId(row.elementType, row.version);
    assert RowMatches(row, log);
    var i :| 0 <= i < |used| && used[i] == UsedOf(row);
    assert ids[i] == hash;
    ConfigIdHasNoComma(row.elementType, row.version);
    PartSurvives(ids, hash);
  }

  /** Another row is reached exactly if one of the used ids has a comma and that row's id among its parts. */
  lemma OtherReachedIff(rows: Table, elements: set<ElementRow>, log: seq<Event>, used: seq<Used>, id: string)
    requires IsStateOf(rows, elements, log) && id in rows && UsedOf(rows[id]) !in used
    ensures IsReached(rows[id], Join(UsedIds(used))) <==> exists u :: u in used && Hits(u, rows[id])
  {
    hide Join, Split;
    var row, ids := rows[id], UsedIds(used);
    var hash := ConfigId(row.elementType, row.version);
    assert RowMatches(row, log);
    if used == [] {
      NoIdIsEmpty(row.elementType, row.version);
      assert ids == [];
    } else {
      SplitOfJoin(ids, hash);
      if IsPartOfSome(hash, ids) {
        var i :| 0 <= i < |ids| && hash in Split(ids[i]);
        assert used[i] in used && ids[i] == ConfigId(used[i].elementType, used[i].version);
        OtherNeedsComma(row.elementType, row.version, used[i]);
        assert row.lastHash.Some? ==> Hits(used[i], row);
      }
      if u :| u in used && Hits(u, row) {
        var i :| 0 <= i < |used| && used[i] == u;
        assert hash in Split(ids[i]);
      }
    }
  }

  lemma NoIdIsEmpty(t: string, v: int)
    ensures ConfigId(t, v) !in Split(Join([]))
  {
    assert Split("") == [""] && ConfigId(t, v)[|t|] == ':';
  }

  /** An id without commas has no part but itself. */
  lemma OtherNeedsComma(t: string, v: int, u: Used)
    requires ConfigId(t, v) in Split(ConfigId(u.elementType, u.version)) && !(u.elementType == t && u.version == v)
    ensures ',' in u.elementType
  {
    if ',' !in u.elementType {
      ConfigIdHasNoComma(u.elementType, u.version);
      SplitFirst(ConfigId(u.elementType, u.version), "");
      ConfigIdInjective(t, v, u.elementType, u.version);
    }
  }

  /** Whatever versions were used, also the -1 handed out for a type without any, a report reaches exactly their rows
      when none of these has a comma in its type and no used id with a comma has the id of another row among its
      parts. */
  lemma ReachesExactlyIff(rows: Table, elements: set<ElementRow>, log: seq<Event>, used: seq<Used>)
    requires IsStateOf(rows, elements, log) && AllMarked(used, log)
    ensures ReachesExactly(rows, used) <==> NoneLost(rows, used) && NoneHit(rows, used)
  {
    hide IsStateOf, IsReached, Join, UsedIds, Hits;
    var configId := Join(UsedIds(used));
    forall id | id in rows && UsedOf(rows[id]) in used
      ensures IsReached(rows[id], configId) <==> ',' !in rows[id].elementType
    {
      if ',' in rows[id].elementType {
        CommaLosesReport(rows, elements, log, id, configId);
      } else {
        UsedIsReached(rows, elements, log, used, id);
      }
    }
    forall id | id in rows && UsedOf(rows[id]) !in used
      ensures IsReached(rows[id], configId) <==> exists u :: u in used && Hits(u, rows[id])
    {
      OtherReachedIff(rows, elements, log, used, id);
    }
  }

  /** A type with a comma and no version, whose id is handed out with -1: a report on it reaches a row that was not
      used. */
  lemma CommaHitsOther(row: VersionRow)
    requires ',' !in row.elementType && row.lastHash == Some(ConfigId(row.elementType, row.version))
    ensures var used := [Used(ConfigId(row.elementType, row.version) + ",rest", -1)];
      UsedOf(row) !in used && IsReached(row, Join(UsedIds(used)))
  {
    hide *;
    var hash := ConfigId(row.elementType, row.version);
    var used := [Used(hash + ",rest", -1)];
    var id := hash + "," + ConfigId("rest", -1);
    IdWithComma(hash);
    assert UsedIds(used) == [id];
    SplitConcat(hash, ConfigId("rest", -1));
    NoCommaIsOnePart(row.elementType, row.version);
    OtherIsReached(row, hash, id);
  }

  lemma IdWithComma(a: string)
    ensures ConfigId(a + ",rest", -1) == a + "," + ConfigId("rest", -1)
    ensures Join([a + "," + ConfigId("rest", -1)]) == a + "," + ConfigId("rest", -1)
  {
    hide Decimal;
  }

  lemma NoCommaIsOnePart(t: string, v: int)
    requires ',' !in t
    ensures ConfigId(t, v) in Split(ConfigId(t, v))
  {
    hide Split, Decimal;
    ConfigIdHasNoComma(t, v);
    PartSurvives([ConfigId(t, v)], ConfigId(t, v));
    assert Join([ConfigId(t, v)]) == ConfigId(t, v);
  }

  lemma OtherIsReached(row: VersionRow, hash: string, id: string)
    requires ',' !in row.elementType && row.lastHash == Some(hash) && hash in Split(id)
    ensures UsedOf(row) !in [Used(hash + ",rest", -1)] && IsReached(row, id)
  {
    assert (hash + ",rest")[|hash|] == ',';
  }

  // ---- The status of a row ----

  function Outcome(e: Event): DeployStatus {
    match e
    case Inserted(_, _) => Dirty
    case Marked(_, _) => InProgress
    case Reported(_, ok) => if ok then Deployed else Failed
  }

  /** A row is DIRTY iff it was never recommended; otherwise the last event that concerns it decides. */
  lemma {:induction false} LastEventDecides(log: seq<Event>, t: ElementType, v: int)
    ensures StatusOf(log, t, v) == Dirty <==> !WasMarked(log, t, v)
    ensures WasMarked(log, t, v) ==> exists i :: LastDecides(log, i, t, v)
    ensures forall i :: LastDecides(log, i, t, v) ==> StatusOf(log, t, v) == Outcome(log[i])
  {
    if log != [] {
      var n := |log| - 1;
      var before := log[..n];
      LastEventDecides(before, t, v);
      forall i | 0 <= i < n ensures Decides(before, i, t, v) == Decides(log, i, t, v) {
        assert before[..i] == log[..i];
      }
      if Decides(log, n, t, v) {
        assert LastDecides(log, n, t, v);
      } else {
        assert forall i :: LastDecides(before, i, t, v) <==> LastDecides(log, i, t, v);
      }
      assert log == before + [log[n]];
    }
  }

  /** The columns of every row of a manager, after any run of calls: never recommended, the row is as it was inserted;
      else its status and result are those of the last event that concerns it, its hash is its own id, and its config
      holds the settings of the last recommendation that used it. */
  lemma RowContents(m: Manager, id: string, i: int)
    requires m.Valid() && id in m.versions
    ensures var row, marked := m.versions[id], WasMarked(m.log, m.versions[id].elementType, m.versions[id].version);
      && (row.status == Dirty <==> !marked)
      && (!marked ==> row.result == "" && row.lastHash == None && row.lastConf == None)
      && (marked ==> row.lastHash == Some(ConfigId(row.elementType, row.version)))
    ensures var row := m.versions[id];
      LastDecides(m.log, i, row.elementType, row.version) ==>
        match m.log[i]
        case Reported(_, ok) => row.status == (if ok then Deployed else Failed) && row.result == m.texts[i]
        case _ => row.status == InProgress && row.result == "Deployment has started"
    ensures var row := m.versions[id];
      LastMarks(m.log, i, row.elementType, row.version) ==> row.lastConf == Some(m.texts[i])
    ensures var row := m.versions[id];
      WasMarked(m.log, row.elementType, row.version) ==>
        && (exists k :: LastDecides(m.log, k, row.elementType, row.version))
        && (exists k :: LastMarks(m.log, k, row.elementType, row.version))
  {
    var row := m.versions[id];
    assert RowMatches(row, m.log) && TextMatches(row, m.log, m.texts);
    LastEventDecides(m.log, row.elementType, row.version);
    SomeMarkIsLast(m.log, row.elementType, row.version);
  }

  lemma {:induction false} SomeMarkIsLast(log: seq<Event>, t: ElementType, v: int)
    ensures WasMarked(log, t, v) ==> exists k :: LastMarks(log, k, t, v)
  {
    if log != [] {
      var n := |log| - 1;
      var before := log[..n];
      SomeMarkIsLast(before, t, v);
      assert log == before + [log[n]];
      LastOfMore(before, log[n], t, v);
      assert log[n] == Marked(t, v) ==> LastMarks(log, n, t, v);
    }
  }

  /** Once a newer version exists, a version is never recommended again. */
  lemma SupersededIsNotRecommended(m: Manager, t: ElementType, v: int, newer: int, i: int, j: int)
    requires m.Valid() && v < newer
    requires 0 <= i < |m.log| && m.log[i] == Inserted(t, newer)
    requires i < j < |m.log|
    ensures m.log[j] != Marked(t, v)
  {
  }

  /** A late report on an old recommendation leaves every row of a newer version alone. */
  lemma LateReportSparesNewer(rows: Table, rows': Table, elements: set<ElementRow>, log: seq<Event>, used: seq<Used>,
                              status: DeployStatus, message: string, id: string)
    requires IsStateOf(rows, elements, log) && AllMarked(used, log)
    requires used != [] && forall u :: u in used ==> ',' !in u.elementType
    requires ReportedRows(rows, rows', Split(Join(UsedIds(used))), status, message)
    requires id in rows
    requires forall u :: u in used && u.elementType == rows[id].elementType ==> u.version < rows[id].version
    ensures rows'[id] == rows[id]
  {
    ReportReachesUsedRows(rows, elements, log, used, id);
  }

  /** The versions of every type are 1..n, each in one row, and the highest is the one a recommendation uses. */
  lemma VersionsAreDense(m: Manager, t: ElementType) returns (n: nat)
    requires m.Valid()
    ensures forall v :: HasVersion(m.versions, t, v) <==> 1 <= v <= n
    ensures forall v :: IsLatestVersion(m.versions, t, v) <==> v == if n == 0 then -1 else n
    ensures |set id | id in m.versions && m.versions[id].elementType == t| == n
  {
    assert DenseFor(m.versions, t);
    n :| VersionsUpTo(m.versions, t, n);
    assert n >= 1 ==> HasVersion(m.versions, t, n);
    CountVersions(m.versions, t, n);
    forall id | id in m.versions && m.versions[id].elementType == t ensures 1 <= m.versions[id].version <= n {
      assert IsRow(m.versions, id, t, m.versions[id].version);
      assert HasVersion(m.versions, t, m.versions[id].version);
    }
    assert (set id | id in m.versions && m.versions[id].elementType == t)
      == set id | id in m.versions && m.versions[id].elementType == t && 1 <= m.versions[id].version <= n;
  }

  lemma {:induction false} CountVersions(rows: Table, t: ElementType, n: nat)
    requires Unique(rows) && forall v :: 1 <= v <= n ==> HasVersion(rows, t, v)
    ensures |set id | id in rows && rows[id].elementType == t && 1 <= rows[id].version <= n| == n
  {
    var ids := set id | id in rows && rows[id].elementType == t && 1 <= rows[id].version <= n;
    if n == 0 {
      assert ids == {};
    } else {
      CountVersions(rows, t, n - 1);
      assert HasVersion(rows, t, n);
      var id :| IsRow(rows, id, t, n);
      assert ids == (set i | i in rows && rows[i].elementType == t && 1 <= rows[i].version <= n - 1) + {id};
    }
  }
}
