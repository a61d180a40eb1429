/** pkg/query-service/agentConf: versioned agent configs and the reports of their deployment.
    Every manager call is one step; the SQL tables are maps and sets. */
module AgentConf {
  import opened Wrappers
  import opened ConfigIds

  type ElementType = string

  const LOG_PIPELINES: ElementType := "log_pipelines"

  datatype DeployStatus = Dirty | InProgress | Deployed | Failed

  /** A row of agent_config_versions; lastHash is NULL until the first recommendation. */
  datatype VersionRow = VersionRow(
    version: int, elementType: ElementType, createdBy: string,
    status: DeployStatus, result: string, lastHash: Option<string>, lastConf: Option<string>)

  /** A row of agent_config_elements, which is unique in these three columns. */
  datatype ElementRow = ElementRow(versionId: string, elementId: string, elementType: ElementType)

  datatype ConfError = BadRequest | Internal

  type Table = map<string, VersionRow>

  /** What a feature recommends for a config, given the latest version of its settings. */
  datatype Feature = Feature(
    elementType: ElementType,
    recommend: (string, Option<VersionRow>) -> Result<(string, string), string>)

  /** The successful steps so far, as far as they concern version rows. */
  datatype Event =
    | Inserted(elementType: ElementType, version: int)
    | Marked(elementType: ElementType, version: int)  // used in a recommendation
    | Reported(configId: string, ok: bool)

  // ---- Queries on the versions table ----

  predicate IsLatest(rows: Table, t: ElementType, id: string) {
    && id in rows && rows[id].elementType == t
    && forall i :: i in rows && rows[i].elementType == t ==> rows[i].version <= rows[id].version
  }

  /** UNIQUE(element_type, version) */
  predicate Unique(rows: Table) {
    forall i, j :: i in rows && j in rows && i != j ==>
      rows[i].elementType != rows[j].elementType || rows[i].version != rows[j].version
  }

  ghost predicate HasVersion(rows: Table, t: ElementType, v: int) {
    exists id :: IsRow(rows, id, t, v)
  }

  predicate IsRow(rows: Table, id: string, t: ElementType, v: int) {
    id in rows && rows[id].elementType == t && rows[id].version == v
  }

  /** The versions of every element type are exactly 1..n for some n. */
  ghost predicate Dense(rows: Table) {
    forall t :: DenseFor(rows, t)
  }

  ghost predicate DenseFor(rows: Table, t: ElementType) {
    exists n: nat :: VersionsUpTo(rows, t, n)
  }

  ghost predicate VersionsUpTo(rows: Table, t: ElementType, n: int) {
    forall v :: HasVersion(rows, t, v) <==> 1 <= v <= n
  }

  predicate FreshId(rows: Table, elements: set<ElementRow>, id: string) {
    id !in rows && forall e :: e in elements ==> e.versionId != id
  }

  predicate NoRepeats(s: seq<string>) {
    forall i, j :: 0 <= i < j < |s| ==> s[i] != s[j]
  }

  function ElementRows(id: string, t: ElementType, elementIds: seq<string>): set<ElementRow> {
    set e | e in elementIds :: ElementRow(id, e, t)
  }

  /** insertConfig gets as far as writing to the database. */
  predicate Accepted(t: ElementType, version: int, elementIds: seq<string>) {
    t != "" && (elementIds != [] || t == LOG_PIPELINES) && version == 0
  }

  /** One element type and version used in a recommendation; -1 stands for no version yet. */
  datatype Used = Used(elementType: ElementType, version: int)

  function UsedIds(used: seq<Used>): (ids: seq<string>)
    ensures |ids| == |used| && forall i :: 0 <= i < |used| ==> ids[i] == ConfigId(used[i].elementType, used[i].version)
  {
    seq(|used|, i requires 0 <= i < |used| => ConfigId(used[i].elementType, used[i].version))
  }

  function MarkedAll(used: seq<Used>): (events: seq<Event>)
    ensures |events| == |used|
    ensures forall i :: 0 <= i < |used| ==> events[i] == Marked(used[i].elementType, used[i].version)
  {
    seq(|used|, i requires 0 <= i < |used| => Marked(used[i].elementType, used[i].version))
  }

  /** v is the latest version of t, or -1 when there is none. */
  ghost predicate IsLatestVersion(rows: Table, t: ElementType, v: int) {
    && (forall w :: HasVersion(rows, t, w) ==> w <= v)
    && (HasVersion(rows, t, v) || (v == -1 && forall w :: !HasVersion(rows, t, w)))
  }

  /** What GetLatestVersion returns for t; the hash and the config are not among the columns it selects. */
  ghost predicate IsSelectedLatest(rows: Table, t: ElementType, latest: Option<VersionRow>) {
    if latest.Some? then
      exists id :: IsLatest(rows, t, id) && latest.value == rows[id].(lastHash := None, lastConf := None)
    else forall id :: id in rows ==> rows[id].elementType != t
  }

  /** The feature turns conf into out.0, using the settings out.1, for its latest version. */
  ghost predicate Recommends(rows: Table, feature: Feature, conf: string, out: Result<(string, string), string>) {
    exists latest :: IsSelectedLatest(rows, feature.elementType, latest) && feature.recommend(conf, latest) == out
  }

  /** Feature by feature, the config goes through the features' recommendations for their latest versions. */
  ghost predicate Recommended(rows: Table, features: seq<Feature>, conf: string,
                              used: seq<Used>, settings: seq<string>, confs: seq<string>)
  {
    && |used| == |settings| <= |features| && |confs| == |used| + 1 && confs[0] == conf
    && forall i :: 0 <= i < |used| ==>
      && used[i].elementType == features[i].elementType && IsLatestVersion(rows, used[i].elementType, used[i].version)
      && Recommends(rows, features[i], confs[i], Ok((confs[i + 1], settings[i])))
  }

  function UsedOf(row: VersionRow): Used {
    Used(row.elementType, row.version)
  }

  /** Exactly the rows whose hash is one of the parts take the status and the message. */
  ghost predicate ReportedRows(rows: Table, rows': Table, parts: seq<string>, status: DeployStatus, message: string) {
    && rows'.Keys == rows.Keys
    && forall id :: id in rows ==>
      rows'[id] == if rows[id].lastHash.Some? && rows[id].lastHash.value in parts
                   then rows[id].(status := status, result := message) else rows[id]
  }

  /** Exactly the used rows are marked. */
  ghost predicate MarkedRows(rows: Table, rows': Table, used: seq<Used>, settings: seq<string>)
    requires |used| == |settings|
  {
    && rows'.Keys == rows.Keys
    && (forall id, i :: id in rows && 0 <= i < |used| && used[i] == UsedOf(rows[id]) ==>
          rows'[id] == rows[id].(
            status := InProgress, result := "Deployment has started",
            lastHash := Some(ConfigId(rows[id].elementType, rows[id].version)), lastConf := Some(settings[i])))
    && (forall id :: id in rows && UsedOf(rows[id]) !in used ==> rows'[id] == rows[id])
  }

  // ---- What the log says about a row ----

  ghost predicate WasMarked(log: seq<Event>, t: ElementType, v: int) {
    Marked(t, v) in log
  }

  /** The status that the log gives to version v of type t, once it is inserted. */
  ghost function StatusOf(log: seq<Event>, t: ElementType, v: int): DeployStatus {
    if log == [] then Dirty
    else
      var before, e := log[..|log| - 1], log[|log| - 1];
      match e
      case Inserted(_, _) => StatusOf(before, t, v)
      case Marked(t', v') => if t' == t && v' == v then InProgress else StatusOf(before, t, v)
      case Reported(configId, ok) =>
        if ConfigId(t, v) in Split(configId) && WasMarked(before, t, v)
        then (if ok then Deployed else Failed)
        else StatusOf(before, t, v)
  }

  /** Event i decides the status of version v of type t: it recommends it, or reports on it after that. */
  ghost predicate Decides(log: seq<Event>, i: int, t: ElementType, v: int) {
    && 0 <= i < |log|
    && (log[i] == Marked(t, v)
        || (log[i].Reported? && ConfigId(t, v) in Split(log[i].configId) && WasMarked(log[..i], t, v)))
  }

  ghost predicate LastDecides(log: seq<Event>, i: int, t: ElementType, v: int) {
    Decides(log, i, t, v) && forall j :: i < j < |log| ==> !Decides(log, j, t, v)
  }

  /** Event i is the last that recommends version v of type t. */
  ghost predicate LastMarks(log: seq<Event>, i: int, t: ElementType, v: int) {
    0 <= i < |log| && log[i] == Marked(t, v) && forall j :: i < j < |log| ==> log[j] != Marked(t, v)
  }

  /** The text columns of a row: texts holds the settings of every recommendation and the message of every report. */
  ghost predicate TextMatches(row: VersionRow, log: seq<Event>, texts: seq<string>) {
    && |texts| == |log|
    && (!WasMarked(log, row.elementType, row.version) ==> row.result == "" && row.lastConf == None)
    && (forall i :: LastDecides(log, i, row.elementType, row.version) ==>
          row.result == if log[i].Reported? then texts[i] else "Deployment has started")
    && (forall i :: LastMarks(log, i, row.elementType, row.version) ==> row.lastConf == Some(texts[i]))
  }

  ghost predicate TextsMatch(rows: Table, log: seq<Event>, texts: seq<string>) {
    |texts| == |log| && forall id :: id in rows ==> TextMatches(rows[id], log, texts)
  }

  ghost predicate DecidesNow(log: seq<Event>, e: Event, t: ElementType, v: int) {
    e == Marked(t, v) || (e.Reported? && ConfigId(t, v) in Split(e.configId) && WasMarked(log, t, v))
  }

  lemma LastOfMore(log: seq<Event>, e: Event, t: ElementType, v: int)
    ensures forall i :: LastDecides(log + [e], i, t, v) <==>
      if DecidesNow(log, e, t, v) then i == |log| else LastDecides(log, i, t, v)
    ensures forall i :: LastMarks(log + [e], i, t, v) <==>
      if e == Marked(t, v) then i == |log| else LastMarks(log, i, t, v)
    ensures WasMarked(log + [e], t, v) <==> WasMarked(log, t, v) || e == Marked(t, v)
    ensures forall i :: LastDecides(log, i, t, v) || LastMarks(log, i, t, v) ==>
      0 <= i < |log| && (log + [e])[i] == log[i]
  {
    hide Split, ConfigId, WasMarked;
    var all := log + [e];
    forall i | 0 <= i < |log| ensures Decides(all, i, t, v) <==> Decides(log, i, t, v) {
      assert all[..i] == log[..i] && all[i] == log[i];
    }
    assert all[..|log|] == log && all[|log|] == e;
    assert Decides(all, |log|, t, v) <==> DecidesNow(log, e, t, v);
    assert forall i :: 0 <= i < |log| ==> all[i] == log[i];
    MarkedBefore(log, e, t, v);
  }

  lemma MarkedBefore(log: seq<Event>, e: Event, t: ElementType, v: int)
    ensures WasMarked(log + [e], t, v) <==> WasMarked(log, t, v) || e == Marked(t, v)
  {
  }

  /** An event that leaves the text columns of a row alone, and decides nothing about it. */
  lemma TextStays(row: VersionRow, row': VersionRow, log: seq<Event>, e: Event, texts: seq<string>, text: string)
    requires TextMatches(row, log, texts) && UsedOf(row') == UsedOf(row)
    requires !DecidesNow(log, e, row.elementType, row.version)
    requires row'.result == row.result && row'.lastConf == row.lastConf
    ensures TextMatches(row', log + [e], texts + [text])
  {
    hide LastDecides, LastMarks, WasMarked;
    assert UsedOf(row).elementType == row.elementType && UsedOf(row').elementType == row'.elementType;
    assert UsedOf(row).version == row.version && UsedOf(row').version == row'.version;
    LastOfMore(log, e, row.elementType, row.version);
  }

  lemma TextChanges(row: VersionRow, row': VersionRow, log: seq<Event>, e: Event, texts: seq<string>, text: string)
    requires TextMatches(row, log, texts) && UsedOf(row') == UsedOf(row)
    requires DecidesNow(log, e, row.elementType, row.version)
    requires row'.result == if e.Reported? then text else "Deployment has started"
    requires row'.lastConf == if e.Reported? then row.lastConf else Some(text)
    ensures TextMatches(row', log + [e], texts + [text])
  {
    hide LastDecides, LastMarks, WasMarked;
    assert UsedOf(row).elementType == row.elementType && UsedOf(row').elementType == row'.elementType;
    assert UsedOf(row).version == row.version && UsedOf(row').version == row'.version;
    LastOfMore(log, e, row.elementType, row.version);
  }

  lemma InsertKeepsTexts(rows: Table, log: seq<Event>, texts: seq<string>, id: string, row: VersionRow)
    requires TextsMatch(rows, log, texts) && !WasMarked(log, row.elementType, row.version)
    requires row.result == "" && row.lastConf == None
    ensures TextsMatch(rows[id := row], log + [Inserted(row.elementType, row.version)], texts + [""])
  {
    hide LastDecides, LastMarks, WasMarked, ConfigId, Split;
    var e := Inserted(row.elementType, row.version);
    forall i | i in rows ensures TextMatches(rows[i], log + [e], texts + [""]) {
      TextStays(rows[i], rows[i], log, e, texts, "");
    }
    NothingDecided(log, row.elementType, row.version);
    LastOfMore(log, e, row.elementType, row.version);
  }

  lemma NothingDecided(log: seq<Event>, t: ElementType, v: int)
    requires !WasMarked(log, t, v)
    ensures forall i :: !LastDecides(log, i, t, v) && !LastMarks(log, i, t, v)
  {
    hide ConfigId, Split;
    assert forall i :: 0 <= i < |log| ==> log[i] in log && forall e :: e in log[..i] ==> e in log;
  }

  lemma MarkKeepsTexts(before: Table, after: Table, log: seq<Event>, texts: seq<string>, t: ElementType, v: int,
                       setting: string)
    requires TextsMatch(before, log, texts) && MarkedOne(before, after, Used(t, v), setting)
    ensures TextsMatch(after, log + [Marked(t, v)], texts + [setting])
  {
    hide TextMatches, WasMarked, ConfigId, Split;
    forall id | id in after ensures TextMatches(after[id], log + [Marked(t, v)], texts + [setting]) {
      if UsedOf(before[id]) == Used(t, v) {
        TextChanges(before[id], after[id], log, Marked(t, v), texts, setting);
      } else {
        TextStays(before[id], after[id], log, Marked(t, v), texts, setting);
      }
    }
  }

  lemma ReportKeepsTexts(before: Table, after: Table, log: seq<Event>, texts: seq<string>, configId: string, ok: bool,
                         message: string)
    requires RowsMatch(before, log) && TextsMatch(before, log, texts)
    requires ReportedRows(before, after, Split(configId), if ok then Deployed else Failed, message)
    ensures TextsMatch(after, log + [Reported(configId, ok)], texts + [message])
  {
    hide TextMatches, WasMarked, ConfigId, Split, StatusOf;
    forall id | id in after ensures TextMatches(after[id], log + [Reported(configId, ok)], texts + [message]) {
      assert RowMatches(before[id], log);
      if DecidesNow(log, Reported(configId, ok), before[id].elementType, before[id].version) {
        TextChanges(before[id], after[id], log, Reported(configId, ok), texts, message);
      } else {
        TextStays(before[id], after[id], log, Reported(configId, ok), texts, message);
      }
    }
  }

  /** Only the newest version of a type is ever marked, and only inserted versions exist. */
  ghost predicate Ordered(log: seq<Event>) {
    forall i, j :: 0 <= i < j < |log| && log[i].Inserted? && log[j].Marked? && log[i].elementType == log[j].elementType
      ==> log[i].version <= log[j].version
  }

  /** The tables hold what the log says, row by row. */
  ghost predicate IsStateOf(rows: Table, elements: set<ElementRow>, log: seq<Event>) {
    && Unique(rows) && Dense(rows) && Ordered(log)
    && RowsAreInserted(rows, log)
    && MarkedAreInserted(log)
    && ElementsHaveRows(rows, elements)
    && RowsMatch(rows, log)
  }

  ghost predicate RowsAreInserted(rows: Table, log: seq<Event>) {
    forall t, v :: HasVersion(rows, t, v) <==> Inserted(t, v) in log
  }

  ghost predicate MarkedAreInserted(log: seq<Event>) {
    forall t, v :: Marked(t, v) in log ==> v == -1 || Inserted(t, v) in log
  }

  predicate ElementsHaveRows(rows: Table, elements: set<ElementRow>) {
    forall e :: e in elements ==> e.versionId in rows && rows[e.versionId].elementType == e.elementType
  }

  ghost predicate RowsMatch(rows: Table, log: seq<Event>) {
    forall id :: id in rows ==> RowMatches(rows[id], log)
  }

  /** The status of a row is the one the log gives it; its hash is its own config id once it was marked. */
  ghost predicate RowMatches(row: VersionRow, log: seq<Event>) {
    && row.status == StatusOf(log, row.elementType, row.version)
    && row.lastHash == if WasMarked(log, row.elementType, row.version)
                       then Some(ConfigId(row.elementType, row.version)) else None
  }

  predicate DistinctTypes(features: seq<Feature>) {
    forall i, j :: 0 <= i < j < |features| ==> features[i].elementType != features[j].elementType
  }

  /** manager.go's Manager with the Repo of db.go that it embeds. */
  class Manager {
    const features: seq<Feature>
    var versions: Table
    var elements: set<ElementRow>
    ghost var log: seq<Event>
    ghost var texts: seq<string>  // the settings or the message that came with each event

    ghost predicate Valid()
      reads this
    {
      DistinctTypes(features) && IsStateOf(versions, elements, log) && TextsMatch(versions, log, texts)
    }

    constructor (features: seq<Feature>)
      requires DistinctTypes(features)
      ensures Valid() && versions == map[] && elements == {} && log == [] && this.features == features
    {
      this.features := features;
      versions, elements, log, texts := map[], {}, [], [];
      new;
      forall t ensures DenseFor(versions, t) {
        assert VersionsUpTo(versions, t, 0);
      }
    }

    // ---- db.go ----

    /** GetLatestVersion: the row of the highest version of a type, if there is one. */
    method GetLatestVersion(t: ElementType) returns (id: Option<string>)
      ensures id.Some? ==> IsLatest(versions, t, id.value)
      ensures id.None? ==> forall i :: i in versions ==> versions[i].elementType != t
    {
      id := None;
      var todo := versions.Keys;
      while todo != {}
        invariant todo <= versions.Keys
        invariant id.Some? ==> id.value in versions && versions[id.value].elementType == t
        invariant forall i :: i in versions && i !in todo && versions[i].elementType == t ==>
          id.Some? && versions[i].version <= versions[id.value].version
        decreases todo
      {
        var i :| i in todo;
        if versions[i].elementType == t && (id.None? || versions[i].version > versions[id.value].version) {
          id := Some(i);
        }
        todo := todo - {i};
      }
    }

    /** INSERT into agent_config_versions: fails on a used id or a used (type, version), or when the database does. */
    method InsertVersion(id: string, row: VersionRow, dbFails: bool) returns (ok: bool)
      modifies this`versions
      ensures ok <==> !dbFails && id !in old(versions) && !HasVersion(old(versions), row.elementType, row.version)
      ensures versions == if ok then old(versions)[id := row] else old(versions)
    {
      ok := !dbFails && id !in versions
        && forall i :: i in versions ==>
             versions[i].elementType != row.elementType || versions[i].version != row.version;
      assert forall i :: i in versions ==> IsRow(versions, i, versions[i].elementType, versions[i].version);
      if ok {
        versions := versions[id := row];
      }
    }

    /** INSERT into agent_config_elements: fails on a row that is there already, or when the database does. */
    method InsertElement(row: ElementRow, dbFails: bool) returns (ok: bool)
      modifies this`elements
      ensures ok <==> !dbFails && row !in old(elements)
      ensures elements == if ok then old(elements) + {row} else old(elements)
    {
      ok := !dbFails && row !in elements;
      if ok {
        elements := elements + {row};
      }
    }

    /** The loop that inserts the elements of a new version. */
    method InsertElements(id: string, t: ElementType, elementIds: seq<string>, dbFails: set<nat>) returns (ok: bool)
      modifies this`elements
      ensures ok ==> elements == old(elements) + ElementRows(id, t, elementIds)
      ensures old(elements) <= elements <= old(elements) + ElementRows(id, t, elementIds)
      ensures (forall e :: e in old(elements) ==> e.versionId != id) ==>
        (ok <==> NoRepeats(elementIds) && forall i: nat :: i < |elementIds| ==> i !in dbFails)
    {
      for i := 0 to |elementIds|
        invariant elements == old(elements) + ElementRows(id, t, elementIds[..i])
        invariant (forall e :: e in old(elements) ==> e.versionId != id) ==> NoRepeats(elementIds[..i])
        invariant forall j: nat :: j < i ==> j !in dbFails
      {
        assert elementIds[..i + 1] == elementIds[..i] + [elementIds[i]];
        var row := ElementRow(id, elementIds[i], t);
        ok := InsertElement(row, i in dbFails);
        if !ok {
          if i !in dbFails && forall e :: e in old(elements) ==> e.versionId != id {
            assert elementIds[i] in elementIds[..i];
          }
          return false;
        }
      }
      assert elementIds[..|elementIds|] == elementIds;
      ok := true;
    }

    /** The deferred clean-up of a failed insertConfig. */
    method CleanUp(id: string)
      modifies this`versions, this`elements
      ensures versions == old(versions) - {id}
      ensures elements == set e | e in old(elements) && e.versionId != id
    {
      versions := versions - {id};
      elements := set e | e in elements && e.versionId != id;
    }

    /** insertConfig. fetchFails, rowFails and elementFails say which statements the database refuses. */
    method InsertConfig(id: string, userId: string, t: ElementType, version: int, elementIds: seq<string>,
                        fetchFails: bool, rowFails: bool, elementFails: set<nat>)
      returns (r: Result<int, ConfError>)
      modifies this`versions, this`elements
      // an id already in use is the one case in which the clean-up removes something
      ensures r.Err? && Accepted(t, version, elementIds) && !fetchFails ==>
        && versions == old(versions) - {id}
        && elements == set e | e in old(elements) && e.versionId != id
      ensures r.Err? && !(Accepted(t, version, elementIds) && !fetchFails) ==>
        versions == old(versions) && elements == old(elements)
      ensures r.Ok? ==>
        && id !in old(versions)
        && (HasVersion(old(versions), t, r.value - 1)
            || (r.value == 1 && forall v :: !HasVersion(old(versions), t, v)))
        && (forall v :: HasVersion(old(versions), t, v) ==> v < r.value)
        && versions == old(versions)[id := VersionRow(r.value, t, userId, Dirty, "", None, None)]
        && elements == old(elements) + ElementRows(id, t, elementIds)
      ensures FreshId(old(versions), old(elements), id) ==>
        (r.Ok? <==> t != "" && (elementIds != [] || t == "log_pipelines") && version == 0
                    && !fetchFails && !rowFails && NoRepeats(elementIds)
                    && forall i: nat :: i < |elementIds| ==> i !in elementFails)
    {
      if t == "" {
        return Err(BadRequest);
      }
      // allowed for log pipelines: deleting all of them
      if elementIds == [] && t != LOG_PIPELINES {
        return Err(BadRequest);
      }
      if version != 0 {
        return Err(BadRequest);
      }
      if fetchFails {
        return Err(Internal);
      }
      var latest := GetLatestVersion(t);
      var newVersion := if latest.Some? then versions[latest.value].version + 1 else 1;
      assert forall v :: HasVersion(versions, t, v) ==> v < newVersion;
      assert latest.Some? ==> IsRow(versions, latest.value, t, newVersion - 1);
      var ok := InsertVersion(id, VersionRow(newVersion, t, userId, Dirty, "", None, None), rowFails);
      if !ok {
        CleanUp(id);
        return Err(Internal);
      }
      ok := InsertElements(id, t, elementIds, elementFails);
      if !ok {
        CleanUp(id);
        return Err(Internal);
      }
      r := Ok(newVersion);
    }

    method UpdateDeployStatus(t: ElementType, version: int, status: DeployStatus, result: string,
                              lastHash: string, lastConf: string)
      modifies this`versions
      ensures versions.Keys == old(versions).Keys
      ensures forall id :: id in versions ==>
        var row := old(versions)[id];
        versions[id] == if row.version == version && row.elementType == t
          then row.(status := status, result := result, lastHash := Some(lastHash), lastConf := Some(lastConf))
          else row
    {
      versions := map id | id in versions ::
        if versions[id].version == version && versions[id].elementType == t
        then versions[id].(status := status, result := result, lastHash := Some(lastHash), lastConf := Some(lastConf))
        else versions[id];
    }

    method UpdateDeployStatusByHash(hash: string, status: DeployStatus, result: string)
      modifies this`versions
      ensures versions.Keys == old(versions).Keys
      ensures forall id :: id in versions ==>
        var row := old(versions)[id];
        versions[id] == if row.lastHash == Some(hash) then row.(status := status, result := result) else row
    {
      versions := map id | id in versions ::
        if versions[id].lastHash == Some(hash) then versions[id].(status := status, result := result) else versions[id];
    }

    // ---- manager.go ----

    /** StartNewVersion; id is the new uuid. */
    method StartNewVersion(id: string, userId: string, t: ElementType, elementIds: seq<string>,
                           fetchFails: bool, rowFails: bool, elementFails: set<nat>)
      returns (r: Result<int, ConfError>)
      requires Valid() && FreshId(versions, elements, id)
      modifies this`versions, this`elements, this`log, this`texts
      ensures Valid()
      ensures r.Err? ==>
        versions == old(versions) && elements == old(elements) && log == old(log) && texts == old(texts)
      ensures r.Ok? ==>
        && log == old(log) + [Inserted(t, r.value)] && texts == old(texts) + [""]
        && versions == old(versions)[id := VersionRow(r.value, t, userId, Dirty, "", None, None)]
        && forall e :: e in elements <==>
             e in old(elements) || (e.versionId == id && e.elementType == t && e.elementId in elementIds)
      ensures r.Ok? <==>
        && t != "" && (elementIds != [] || t == "log_pipelines")
        && !fetchFails && !rowFails && NoRepeats(elementIds)
        && forall i: nat :: i < |elementIds| ==> i !in elementFails
    {
      hide IsStateOf, TextsMatch, Dense, HasVersion, NoRepeats, ElementRows;
      r := InsertConfig(id, userId, t, 0, elementIds, fetchFails, rowFails, elementFails);
      if r.Err? {
        NothingToCleanUp(old(versions), old(elements), id);
        assert versions == old(versions) && elements == old(elements);
        return;
      }
      ElementsGrow(old(elements), id, t, elementIds);
      NewVersionIsPositive(old(versions), old(elements), log, t, r.value);
      InsertKeepsState(old(versions), old(elements), log, id, t, userId, elementIds, r.value);
      NewIsUnmarked(old(versions), old(elements), log, t, r.value);
      InsertKeepsTexts(old(versions), log, texts, id, versions[id]);
      log, texts := log + [Inserted(t, r.value)], texts + [""];
    }

    method MarkUsed(t: ElementType, version: int, setting: string)
      modifies this`versions
      ensures MarkedOne(old(versions), versions, Used(t, version), setting)
    {
      hide ConfigId;
      UpdateDeployStatus(t, version, InProgress, "Deployment has started", ConfigId(t, version), setting);
    }

    /** RecommendAgentConfig; fetchFails says for which features the database refuses to read the latest version. */
    method RecommendAgentConfig(conf: string, fetchFails: set<nat>, sha: string -> string)
      returns (r: Result<(string, string), string>,
               ghost used: seq<Used>, ghost settings: seq<string>, ghost confs: seq<string>)
      requires Valid()
      modifies this`versions, this`log, this`texts
      ensures Valid() && log == old(log) + MarkedAll(used) && texts == old(texts) + settings
      ensures Recommended(old(versions), features, conf, used, settings, confs)
      ensures MarkedRows(old(versions), versions, used, settings)
      ensures r.Ok? ==>
        && |used| == |features| && r.value.0 == confs[|used|]
        && r.value.1 == if features == [] then sha(r.value.0) else Join(UsedIds(used))
      ensures r.Err? ==> |used| < |features|
      ensures r.Err? && |used| !in fetchFails ==>
        exists e :: Recommends(old(versions), features[|used|], confs[|used|], Err(e))
    {
      hide IsStateOf, TextsMatch, HasVersion, IsLatestVersion, IsLatest, ConfigId, IsSelectedLatest, Recommended,
           MarkedRows, MarkedOne, Join, UsedIds, MarkedAll, UsesFirst, NotUsedYet, DistinctTypes;
      var recommendation := conf;
      var ids := [];
      NothingUsed(versions, features, conf);
      used, settings, confs := [], [], [conf];
      ghost var rows := versions;
      for i := 0 to |features|
        invariant Valid() && log == old(log) + MarkedAll(used) && texts == old(texts) + settings
        invariant |used| == |settings| == i && |confs| == i + 1
        invariant Recommended(rows, features, conf, used, settings, confs)
        invariant ids == UsedIds(used) && confs[i] == recommendation
        invariant UsesFirst(used, features)
        invariant MarkedRows(rows, versions, used, settings)
      {
        var t := features[i].elementType;
        if i in fetchFails {
          return Err("failed to get latest agent config version"), used, settings, confs;
        }
        var id := GetLatestVersion(t);
        var latest := if id.Some? then Some(versions[id.value].(lastHash := None, lastConf := None)) else None;
        LatestUnchanged(rows, versions, used, settings, features, i, id);
        var reply := features[i].recommend(recommendation, latest);
        assert Recommends(rows, features[i], recommendation, reply);
        if reply.Err? {
          return Err("failed to generate agent config recommendation for " + t), used, settings, confs;
        }
        recommendation := reply.value.0;
        var configVersion := if latest.Some? then latest.value.version else -1;
        var configId := ConfigId(t, configVersion);
        ids := ids + [configId];
        ghost var before := versions;
        MarkUsed(t, configVersion, reply.value.1);
        MarkKeepsState(before, versions, elements, log, t, configVersion, reply.value.1);
        MarkKeepsTexts(before, versions, log, texts, t, configVersion, reply.value.1);
        MarkedOneMore(rows, before, versions, used, settings, Used(t, configVersion), reply.value.1);
        RecommendedOneMore(rows, features, conf, used, settings, confs, Used(t, configVersion), reply.value);
        used, settings, confs := used + [Used(t, configVersion)], settings + [reply.value.1], confs + [recommendation];
        log, texts := log + [Marked(t, configVersion)], texts + [reply.value.1];
      }
      var configId := if ids != [] then Join(ids) else sha(recommendation);
      r := Ok((recommendation, configId));
    }

    /** ReportConfigDeploymentStatus: every row whose hash is among the parts of the id takes the outcome. */
    method ReportConfigDeploymentStatus(agentId: string, configId: string, err: Option<string>)
      requires Valid()
      modifies this`versions, this`log, this`texts
      ensures Valid() && log == old(log) + [Reported(configId, err.None?)]
      ensures texts == old(texts) + [if err.None? then "Deployment was successful" else agentId + ": " + err.value]
      ensures ReportedRows(old(versions), versions, Split(configId), if err.None? then Deployed else Failed,
                           if err.None? then "Deployment was successful" else agentId + ": " + err.value)
    {
      var newStatus := if err.None? then Deployed else Failed;
      var message := if err.None? then "Deployment was successful" else agentId + ": " + err.value;
      var parts := Split(configId);
      ghost var rows := versions;
      for i := 0 to |parts|
        invariant log == old(log) && texts == old(texts) && ReportedRows(rows, versions, parts[..i], newStatus, message)
      {
        UpdateDeployStatusByHash(parts[i], newStatus, message);
        assert parts[..i + 1] == parts[..i] + [parts[i]];
      }
      assert parts[..|parts|] == parts;
      ReportKeepsState(rows, versions, elements, log, configId, err.None?, message);
      ReportKeepsTexts(rows, versions, log, texts, configId, err.None?, message);
      log, texts := log + [Reported(configId, err.None?)], texts + [message];
    }
  }

  /** Initiate: a manager, or None where the source panics over two features of one type. */
  method Initiate(features: seq<Feature>) returns (m: Option<Manager>)
    ensures m.Some? <==> DistinctTypes(features)
    ensures m.Some? ==> fresh(m.value) && m.value.Valid() && m.value.features == features && m.value.log == []
  {
    var seen: set<ElementType> := {};
    for i := 0 to |features|
      invariant DistinctTypes(features[..i])
      invariant forall t :: t in seen <==> exists j :: 0 <= j < i && features[j].elementType == t
    {
      var t := features[i].elementType;
      if t in seen {
        return None;
      }
      seen := seen + {t};
    }
    var manager := new Manager(features);
    m := Some(manager);
  }

  lemma {:induction false} NeverMarkedIsDirty(log: seq<Event>, t: ElementType, v: int)
    requires !WasMarked(log, t, v)
    ensures StatusOf(log, t, v) == Dirty
  {
    if log != [] {
      var before := log[..|log| - 1];
      assert forall e :: e in before ==> e in log;
      assert log[|log| - 1] in log;
      NeverMarkedIsDirty(before, t, v);
    }
  }

  lemma OneMoreVersion(rows: Table, id: string, row: VersionRow)
    requires id !in rows
    ensures forall t, v ::
      HasVersion(rows[id := row], t, v) <==> HasVersion(rows, t, v) || (t == row.elementType && v == row.version)
  {
    var rows' := rows[id := row];
    assert IsRow(rows', id, row.elementType, row.version);
    forall t, v
      ensures HasVersion(rows', t, v) <==> HasVersion(rows, t, v) || (t == row.elementType && v == row.version)
    {
      if HasVersion(rows, t, v) {
        var i :| IsRow(rows, i, t, v);
        assert IsRow(rows', i, t, v);
      }
      if HasVersion(rows', t, v) {
        var i :| IsRow(rows', i, t, v);
        assert i != id ==> IsRow(rows, i, t, v);
      }
    }
  }

  lemma DenseOneMore(rows: Table, id: string, row: VersionRow)
    requires Dense(rows) && id !in rows
    requires HasVersion(rows, row.elementType, row.version - 1)
      || (row.version == 1 && forall w :: !HasVersion(rows, row.elementType, w))
    requires forall w :: HasVersion(rows, row.elementType, w) ==> w < row.version
    ensures Dense(rows[id := row]) && row.version >= 1
  {
    var rows', t := rows[id := row], row.elementType;
    OneMoreVersion(rows, id, row);
    assert DenseFor(rows, t);
    var n: nat :| VersionsUpTo(rows, t, n);
    assert n >= 1 ==> HasVersion(rows, t, n);
    assert HasVersion(rows, t, 1) <==> 1 <= n;
    assert row.version == n + 1;
    forall t' ensures DenseFor(rows', t') {
      assert DenseFor(rows, t');
      var n': nat :| VersionsUpTo(rows, t', n');
      if t' == t {
        forall v ensures HasVersion(rows', t, v) <==> 1 <= v <= n + 1 {
          assert HasVersion(rows, t, v) <==> 1 <= v <= n;
        }
        assert VersionsUpTo(rows', t, n + 1);
      } else {
        assert forall v :: HasVersion(rows', t', v) <==> HasVersion(rows, t', v);
        assert VersionsUpTo(rows', t', n');
      }
    }
  }

  lemma InsertKeepsState(rows: Table, elements: set<ElementRow>, log: seq<Event>, id: string, t: ElementType,
                         userId: string, elementIds: seq<string>, v: int)
    requires IsStateOf(rows, elements, log) && id !in rows
    requires HasVersion(rows, t, v - 1) || (v == 1 && forall w :: !HasVersion(rows, t, w))
    requires forall w :: HasVersion(rows, t, w) ==> w < v
    ensures IsStateOf(rows[id := VersionRow(v, t, userId, Dirty, "", None, None)],
                      elements + ElementRows(id, t, elementIds), log + [Inserted(t, v)])
  {
    var row := VersionRow(v, t, userId, Dirty, "", None, None);
    OneMoreVersion(rows, id, row);
    DenseOneMore(rows, id, row);
    UniqueOneMore(rows, id, row);
    InsertedLog(log, t, v);
    assert !WasMarked(log, t, v) by {
      assert v >= 1 && !HasVersion(rows, t, v);
    }
    hide Unique, Dense, HasVersion, Ordered;
    InsertKeepsRows(rows, log, id, row);
  }

  lemma NothingToCleanUp(rows: Table, elements: set<ElementRow>, id: string)
    requires FreshId(rows, elements, id)
    ensures rows - {id} == rows && (set e | e in elements && e.versionId != id) == elements
  {
  }

  lemma ElementsGrow(elements: set<ElementRow>, id: string, t: ElementType, elementIds: seq<string>)
    ensures forall e :: e in elements + ElementRows(id, t, elementIds) <==>
      e in elements || (e.versionId == id && e.elementType == t && e.elementId in elementIds)
  {
    forall e: ElementRow | e.versionId == id && e.elementType == t && e.elementId in elementIds
      ensures e in ElementRows(id, t, elementIds)
    {
      assert e == ElementRow(id, e.elementId, t);
    }
  }

  lemma NewVersionIsPositive(rows: Table, elements: set<ElementRow>, log: seq<Event>, t: ElementType, v: int)
    requires IsStateOf(rows, elements, log) && (HasVersion(rows, t, v - 1) || v == 1)
    ensures v >= 1
  {
    assert DenseFor(rows, t);
  }

  lemma NewIsUnmarked(rows: Table, elements: set<ElementRow>, log: seq<Event>, t: ElementType, v: int)
    requires IsStateOf(rows, elements, log) && v >= 1 && !HasVersion(rows, t, v)
    ensures !WasMarked(log, t, v)
  {
  }

  lemma InsertKeepsRows(rows: Table, log: seq<Event>, id: string, row: VersionRow)
    requires RowsMatch(rows, log) && !WasMarked(log, row.elementType, row.version)
    requires row.status == Dirty && row.lastHash == None
    ensures RowsMatch(rows[id := row], log + [Inserted(row.elementType, row.version)])
  {
    var log' := log + [Inserted(row.elementType, row.version)];
    assert log'[..|log|] == log;
    NeverMarkedIsDirty(log, row.elementType, row.version);
  }

  lemma UniqueOneMore(rows: Table, id: string, row: VersionRow)
    requires Unique(rows) && forall w :: HasVersion(rows, row.elementType, w) ==> w < row.version
    ensures Unique(rows[id := row])
  {
    forall i | i in rows && rows[i].elementType == row.elementType ensures rows[i].version < row.version {
      assert IsRow(rows, i, row.elementType, rows[i].version);
      assert HasVersion(rows, row.elementType, rows[i].version);
    }
  }

  lemma InsertedLog(log: seq<Event>, t: ElementType, v: int)
    requires Ordered(log)
    ensures var log' := log + [Inserted(t, v)];
      && Ordered(log')
      && (forall e :: e in log' <==> e in log || e == Inserted(t, v))
      && (forall t', v' :: StatusOf(log', t', v') == StatusOf(log, t', v'))
      && (forall t', v' :: WasMarked(log', t', v') <==> WasMarked(log, t', v'))
  {
    assert (log + [Inserted(t, v)])[..|log|] == log;
  }

  predicate UsesFirst(used: seq<Used>, features: seq<Feature>) {
    |used| <= |features| && forall i :: 0 <= i < |used| ==> used[i].elementType == features[i].elementType
  }

  predicate NotUsedYet(used: seq<Used>, t: ElementType) {
    forall i :: 0 <= i < |used| ==> used[i].elementType != t
  }

  lemma LatestUnchanged(rows: Table, rows': Table, used: seq<Used>, settings: seq<string>, features: seq<Feature>,
                        n: nat, id: Option<string>)
    requires |used| == |settings| == n < |features| && DistinctTypes(features)
    requires UsesFirst(used, features) && MarkedRows(rows, rows', used, settings)
    requires id.Some? ==> IsLatest(rows', features[n].elementType, id.value)
    requires id.None? ==> forall i :: i in rows' ==> rows'[i].elementType != features[n].elementType
    ensures NotUsedYet(used, features[n].elementType)
    ensures var latest := if id.Some? then Some(rows'[id.value].(lastHash := None, lastConf := None)) else None;
      && IsSelectedLatest(rows, features[n].elementType, latest)
      && IsLatestVersion(rows, features[n].elementType, if latest.Some? then latest.value.version else -1)
      && IsLatestVersion(rows', features[n].elementType, if latest.Some? then latest.value.version else -1)
  {
    var t := features[n].elementType;
    assert NotUsedYet(used, t);
    OtherTypesStay(rows, rows', used, settings, t);
    hide MarkedRows, DistinctTypes, UsesFirst;
    if id.Some? {
      assert IsRow(rows, id.value, t, rows[id.value].version) && IsRow(rows', id.value, t, rows[id.value].version);
      assert IsLatest(rows, t, id.value);
    }
  }

  lemma OtherTypesStay(rows: Table, rows': Table, used: seq<Used>, settings: seq<string>, t: ElementType)
    requires |used| == |settings| && MarkedRows(rows, rows', used, settings) && NotUsedYet(used, t)
    ensures rows'.Keys == rows.Keys
    ensures forall i :: i in rows ==>
      && rows'[i].elementType == rows[i].elementType && rows'[i].version == rows[i].version
      && (rows[i].elementType == t ==> rows'[i] == rows[i])
  {
    forall i | i in rows
      ensures rows'[i].elementType == rows[i].elementType && rows'[i].version == rows[i].version
      ensures rows[i].elementType == t ==> rows'[i] == rows[i]
    {
      if UsedOf(rows[i]) in used {
        var j :| 0 <= j < |used| && used[j] == UsedOf(rows[i]);
      }
    }
  }

  lemma NothingUsed(rows: Table, features: seq<Feature>, conf: string)
    ensures Recommended(rows, features, conf, [], [], [conf])
    ensures MarkedRows(rows, rows, [], []) && UsesFirst([], features)
  {
  }

  lemma RecommendedOneMore(rows: Table, features: seq<Feature>, conf: string, used: seq<Used>, settings: seq<string>,
                           confs: seq<string>, u: Used, reply: (string, string))
    requires Recommended(rows, features, conf, used, settings, confs) && |used| < |features|
    requires u.elementType == features[|used|].elementType && IsLatestVersion(rows, u.elementType, u.version)
    requires Recommends(rows, features[|used|], confs[|used|], Ok(reply))
    ensures Recommended(rows, features, conf, used + [u], settings + [reply.1], confs + [reply.0])
    ensures UsesFirst(used + [u], features)
    ensures UsedIds(used + [u]) == UsedIds(used) + [ConfigId(u.elementType, u.version)]
    ensures MarkedAll(used + [u]) == MarkedAll(used) + [Marked(u.elementType, u.version)]
  {
    hide IsLatestVersion, Recommends;
    var used', settings', confs' := used + [u], settings + [reply.1], confs + [reply.0];
    forall i | 0 <= i < |used'|
      ensures used'[i].elementType == features[i].elementType
      ensures IsLatestVersion(rows, used'[i].elementType, used'[i].version)
      ensures Recommends(rows, features[i], confs'[i], Ok((confs'[i + 1], settings'[i])))
    {
      if i < |used| {
        assert used'[i] == used[i] && confs'[i] == confs[i] && confs'[i + 1] == confs[i + 1];
      }
    }
  }

  /** after is before with the row of u marked. */
  ghost predicate MarkedOne(before: Table, after: Table, u: Used, setting: string) {
    && after.Keys == before.Keys
    && forall id :: id in before ==>
      after[id] ==
        if UsedOf(before[id]) == u
        then before[id].(status := InProgress, result := "Deployment has started",
                         lastHash := Some(ConfigId(u.elementType, u.version)), lastConf := Some(setting))
        else before[id]
  }

  lemma MarkedOneMore(rows: Table, before: Table, after: Table, used: seq<Used>, settings: seq<string>, u: Used,
                      setting: string)
    requires |used| == |settings| && MarkedRows(rows, before, used, settings)
    requires MarkedOne(before, after, u, setting)
    requires NotUsedYet(used, u.elementType)
    ensures MarkedRows(rows, after, used + [u], settings + [setting])
  {
    forall id | id in rows ensures UsedOf(before[id]) == UsedOf(rows[id]) {
      if UsedOf(rows[id]) in used {
        var j :| 0 <= j < |used| && used[j] == UsedOf(rows[id]);
      }
    }
    assert forall x :: x in used + [u] <==> x in used || x == u;
  }

  lemma SameVersions(rows: Table, rows': Table)
    requires rows'.Keys == rows.Keys && forall id :: id in rows ==> UsedOf(rows'[id]) == UsedOf(rows[id])
    ensures forall t, v :: HasVersion(rows', t, v) <==> HasVersion(rows, t, v)
    ensures Unique(rows) ==> Unique(rows')
    ensures Dense(rows) ==> Dense(rows')
  {
    assert forall i :: i in rows ==>
      && UsedOf(rows'[i]) == UsedOf(rows[i])
      && rows'[i].elementType == rows[i].elementType && rows'[i].version == rows[i].version;
    assert forall i, t, v :: IsRow(rows', i, t, v) <==> IsRow(rows, i, t, v);
    forall t, v ensures HasVersion(rows', t, v) <==> HasVersion(rows, t, v) {
      if HasVersion(rows, t, v) {
        var i :| IsRow(rows, i, t, v);
        assert IsRow(rows', i, t, v);
      }
      if HasVersion(rows', t, v) {
        var i :| IsRow(rows', i, t, v);
        assert IsRow(rows, i, t, v);
      }
    }
    if Dense(rows) {
      forall t ensures DenseFor(rows', t) {
        assert DenseFor(rows, t);
        var n: nat :| VersionsUpTo(rows, t, n);
        assert forall v :: HasVersion(rows', t, v) <==> HasVersion(rows, t, v);
        assert VersionsUpTo(rows', t, n);
      }
    }
  }

  lemma MarkedLog(log: seq<Event>, t: ElementType, v: int)
    ensures var log' := log + [Marked(t, v)];
      && (forall e :: e in log' <==> e in log || e == Marked(t, v))
      && (forall t', v' :: StatusOf(log', t', v') == if t' == t && v' == v then InProgress else StatusOf(log, t', v'))
      && (forall t', v' :: WasMarked(log', t', v') <==> WasMarked(log, t', v') || (t' == t && v' == v))
  {
    assert (log + [Marked(t, v)])[..|log|] == log;
  }

  lemma MarkKeepsOrder(rows: Table, log: seq<Event>, t: ElementType, v: int)
    requires Ordered(log) && RowsAreInserted(rows, log) && IsLatestVersion(rows, t, v)
    ensures Ordered(log + [Marked(t, v)])
  {
    forall i | 0 <= i < |log| && log[i].Inserted? && log[i].elementType == t ensures log[i].version <= v {
      assert Inserted(t, log[i].version) in log;
      assert HasVersion(rows, t, log[i].version);
    }
  }

  /** A step that leaves types and versions alone, and marks only inserted versions, keeps all but the row contents. */
  lemma SameStory(before: Table, after: Table, elements: set<ElementRow>, log: seq<Event>, log': seq<Event>)
    requires IsStateOf(before, elements, log) && Ordered(log')
    requires after.Keys == before.Keys && forall id :: id in before ==> UsedOf(after[id]) == UsedOf(before[id])
    requires forall t, v :: Inserted(t, v) in log' <==> Inserted(t, v) in log
    requires forall t, v :: Marked(t, v) in log' ==> Marked(t, v) in log || v == -1 || Inserted(t, v) in log
    requires RowsMatch(after, log')
    ensures IsStateOf(after, elements, log')
  {
    hide Unique, Dense, Ordered, HasVersion, RowsMatch;
    SameVersions(before, after);
    assert forall id :: id in before ==> UsedOf(before[id]).elementType == before[id].elementType
                                         && UsedOf(after[id]).elementType == after[id].elementType;
  }

  lemma MarkKeepsState(before: Table, after: Table, elements: set<ElementRow>, log: seq<Event>,
                       t: ElementType, v: int, setting: string)
    requires IsStateOf(before, elements, log) && IsLatestVersion(before, t, v)
    requires MarkedOne(before, after, Used(t, v), setting)
    ensures IsStateOf(after, elements, log + [Marked(t, v)])
  {
    MarkedLog(log, t, v);
    MarkKeepsOrder(before, log, t, v);
    assert v == -1 || Inserted(t, v) in log by {
      assert HasVersion(before, t, v) ==> Inserted(t, v) in log;
    }
    hide *;
    RowsOf(before, elements, log);
    MarkKeepsRows(before, after, log, t, v, setting);
    MarkedSame(before, after, Used(t, v), setting);
    SameStory(before, after, elements, log, log + [Marked(t, v)]);
  }

  lemma RowsOf(rows: Table, elements: set<ElementRow>, log: seq<Event>)
    requires IsStateOf(rows, elements, log)
    ensures RowsMatch(rows, log) && Ordered(log)
  {
  }

  lemma MarkedSame(before: Table, after: Table, u: Used, setting: string)
    requires MarkedOne(before, after, u, setting)
    ensures after.Keys == before.Keys && forall id :: id in before ==> UsedOf(after[id]) == UsedOf(before[id])
  {
  }

  lemma MarkKeepsRows(before: Table, after: Table, log: seq<Event>, t: ElementType, v: int, setting: string)
    requires RowsMatch(before, log) && MarkedOne(before, after, Used(t, v), setting)
    ensures RowsMatch(after, log + [Marked(t, v)])
  {
    MarkedLog(log, t, v);
    hide StatusOf, ConfigId, WasMarked;
    forall id | id in after ensures RowMatches(after[id], log + [Marked(t, v)]) {
      assert RowMatches(before[id], log);
    }
  }

  lemma ReportedLog(log: seq<Event>, configId: string, ok: bool)
    ensures var log' := log + [Reported(configId, ok)];
      && (forall e :: e in log' <==> e in log || e == Reported(configId, ok))
      && (forall t, v :: StatusOf(log', t, v)
            == (if ConfigId(t, v) in Split(configId) && WasMarked(log, t, v)
                then (if ok then Deployed else Failed) else StatusOf(log, t, v)))
      && (forall t, v :: WasMarked(log', t, v) <==> WasMarked(log, t, v))
      && (Ordered(log) ==> Ordered(log'))
  {
    assert (log + [Reported(configId, ok)])[..|log|] == log;
  }

  lemma ReportKeepsState(before: Table, after: Table, elements: set<ElementRow>, log: seq<Event>,
                         configId: string, ok: bool, message: string)
    requires IsStateOf(before, elements, log)
    requires ReportedRows(before, after, Split(configId), if ok then Deployed else Failed, message)
    ensures IsStateOf(after, elements, log + [Reported(configId, ok)])
  {
    hide *;
    RowsOf(before, elements, log);
    ReportedLog(log, configId, ok);
    ReportKeepsRows(before, after, log, configId, ok, message);
    ReportedSame(before, after, Split(configId), if ok then Deployed else Failed, message);
    SameStory(before, after, elements, log, log + [Reported(configId, ok)]);
  }

  lemma ReportedSame(before: Table, after: Table, parts: seq<string>, status: DeployStatus, message: string)
    requires ReportedRows(before, after, parts, status, message)
    ensures after.Keys == before.Keys && forall id :: id in before ==> UsedOf(after[id]) == UsedOf(before[id])
  {
  }

  lemma ReportKeepsRows(before: Table, after: Table, log: seq<Event>, configId: string, ok: bool, message: string)
    requires RowsMatch(before, log)
    requires ReportedRows(before, after, Split(configId), if ok then Deployed else Failed, message)
    ensures RowsMatch(after, log + [Reported(configId, ok)])
  {
    ReportedLog(log, configId, ok);
    hide StatusOf, ConfigId, WasMarked, Split, Ordered;
    forall id | id in after ensures RowMatches(after[id], log + [Reported(configId, ok)]) {
      assert RowMatches(before[id], log);
    }
  }
}
