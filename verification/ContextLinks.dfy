/** The filters of an alert's related-logs and related-traces links: PrepareFilters in contextlinks/links.go. */
module ContextLinks {
  import opened Wrappers

  datatype AttributeKey = AttributeKey(key: string, dataType: string, keyType: string, isColumn: bool, isJSON: bool)

  datatype Value = Text(text: string) | Number(number: real) | Flag(flag: bool) | Many(values: seq<Value>)

  datatype Operator = Equal | Other(name: string)

  datatype FilterItem = FilterItem(key: AttributeKey, operator: Operator, value: Value)

  type Labels = map<string, string>

  // ---- what a list of filters means ----

  /** A record gives each attribute key a value or none. */
  type Record = AttributeKey -> Option<Value>

  /** What the operators other than equality mean is left open. */
  type Semantics = (Operator, Option<Value>, Value) -> bool

  ghost predicate MeansEqual(sem: Semantics) {
    forall x: Option<Value>, v: Value :: sem(Equal, x, v) <==> x == Some(v)
  }

  predicate Satisfies(sem: Semantics, rec: Record, item: FilterItem) {
    sem(item.operator, rec(item.key), item.value)
  }

  /** Filters are joined by AND. */
  ghost predicate Accepts(sem: Semantics, items: seq<FilterItem>, rec: Record) {
    forall i :: 0 <= i < |items| ==> Satisfies(sem, rec, items[i])
  }

  // ---- the attribute key a label stands for ----

  /** The names GenerateLogEnrichmentKeys gives a key whose type and data type are not known. */
  function EnrichmentNames(key: string): seq<string> {
    [key + "##tag##float64", key + "##tag##int64", key + "##tag##string", key + "##tag##bool",
     key + "##resource##float64", key + "##resource##int64", key + "##resource##string", key + "##resource##bool"]
  }

  function FirstKnown(names: seq<string>, keys: map<string, AttributeKey>): Option<AttributeKey> {
    if names == [] then None
    else if names[0] in keys then Some(keys[names[0]])
    else FirstKnown(names[1..], keys)
  }

  function FirstNamed(items: seq<AttributeKey>, name: string): Option<AttributeKey> {
    if items == [] then None
    else if items[0].key == name then Some(items[0])
    else FirstNamed(items[1..], name)
  }

  /** A group-by item wins over a known key, and an enrichment name over the plain one. */
  function ResolveKey(name: string, groupBy: seq<AttributeKey>, keys: map<string, AttributeKey>): AttributeKey {
    if FirstNamed(groupBy, name).Some? then FirstNamed(groupBy, name).value
    else if FirstKnown(EnrichmentNames(name), keys).Some? then FirstKnown(EnrichmentNames(name), keys).value
    else if name in keys then keys[name]
    else AttributeKey(name, "", "", false, false)
  }

  ghost predicate IsNamedBy(groupBy: seq<AttributeKey>, j: int, name: string) {
    0 <= j < |groupBy| && groupBy[j].key == name && forall i :: 0 <= i < j ==> groupBy[i].key != name
  }

  /** The key of a label is the first group-by item of its name; without one the key known under the first of eight
      names that is; else the one known under its plain name; else a new one without type. */
  ghost predicate IsLabelKey(r: AttributeKey, name: string, groupBy: seq<AttributeKey>, keys: map<string, AttributeKey>)
  {
    && (forall j :: IsNamedBy(groupBy, j, name) ==> r == groupBy[j])
    && ((forall j :: 0 <= j < |groupBy| ==> groupBy[j].key != name) ==>
          if name + "##tag##float64" in keys then r == keys[name + "##tag##float64"]
          else if name + "##tag##int64" in keys then r == keys[name + "##tag##int64"]
          else if name + "##tag##string" in keys then r == keys[name + "##tag##string"]
          else if name + "##tag##bool" in keys then r == keys[name + "##tag##bool"]
          else if name + "##resource##float64" in keys then r == keys[name + "##resource##float64"]
          else if name + "##resource##int64" in keys then r == keys[name + "##resource##int64"]
          else if name + "##resource##string" in keys then r == keys[name + "##resource##string"]
          else if name + "##resource##bool" in keys then r == keys[name + "##resource##bool"]
          else if name in keys then r == keys[name]
          else r == AttributeKey(name, "", "", false, false))
  }

  lemma ResolvedIsLabelKey(name: string, groupBy: seq<AttributeKey>, keys: map<string, AttributeKey>)
    ensures IsLabelKey(ResolveKey(name, groupBy, keys), name, groupBy, keys)
  {
    hide FirstNamed, FirstKnown;
    FirstNamedIsFirst(groupBy, name);
    FirstKnownIsFirst(EnrichmentNames(name), keys);
    var names := EnrichmentNames(name);
    assert names[0] in keys || names[1] in keys || names[2] in keys || names[3] in keys || names[4] in keys
      || names[5] in keys || names[6] in keys || names[7] in keys || FirstKnown(names, keys).None?;
  }

  lemma {:induction false} FirstNamedIsFirst(items: seq<AttributeKey>, name: string)
    ensures FirstNamed(items, name).None? <==> forall j :: 0 <= j < |items| ==> items[j].key != name
    ensures forall j :: IsNamedBy(items, j, name) ==> FirstNamed(items, name) == Some(items[j])
  {
    if items != [] {
      FirstNamedIsFirst(items[1..], name);
      forall j | IsNamedBy(items, j, name) && j > 0 ensures IsNamedBy(items[1..], j - 1, name) {
        assert forall i :: 0 <= i < j - 1 ==> items[1..][i] == items[i + 1];
      }
      assert forall j :: 1 <= j < |items| ==> items[j] == items[1..][j - 1];
    }
  }

  lemma {:induction false} FirstKnownIsFirst(names: seq<string>, keys: map<string, AttributeKey>)
    ensures FirstKnown(names, keys).None? <==> forall j :: 0 <= j < |names| ==> names[j] !in keys
    ensures forall j :: 0 <= j < |names| && names[j] in keys && (forall i :: 0 <= i < j ==> names[i] !in keys) ==>
      FirstKnown(names, keys) == Some(keys[names[j]])
  {
    if names != [] {
      FirstKnownIsFirst(names[1..], keys);
      assert forall j :: 1 <= j < |names| ==> names[j] == names[1..][j - 1];
    }
  }

  // ---- PrepareFilters ----

  function Replace(item: FilterItem, labels: Labels): FilterItem {
    if item.key.key in labels then FilterItem(item.key, Equal, Text(labels[item.key.key])) else item
  }

  function Replaced(whereItems: seq<FilterItem>, labels: Labels): seq<FilterItem> {
    seq(|whereItems|, i requires 0 <= i < |whereItems| => Replace(whereItems[i], labels))
  }

  predicate IsNamedIn(name: string, whereItems: seq<FilterItem>) {
    exists i :: 0 <= i < |whereItems| && whereItems[i].key.key == name
  }

  function AddedItem(name: string, labels: Labels, groupBy: seq<AttributeKey>, keys: map<string, AttributeKey>)
    : FilterItem
    requires name in labels
  {
    FilterItem(ResolveKey(name, groupBy, keys), Equal, Text(labels[name]))
  }

  predicate AllIn(order: seq<string>, labels: Labels) {
    forall i :: 0 <= i < |order| ==> order[i] in labels
  }

  function Added(order: seq<string>, labels: Labels, groupBy: seq<AttributeKey>, keys: map<string, AttributeKey>)
    : seq<FilterItem>
    requires AllIn(order, labels)
  {
    seq(|order|, i requires 0 <= i < |order| => AddedItem(order[i], labels, groupBy, keys))
  }

  /** Every label without a filter item once, in some order. */
  ghost predicate IsOrder(order: seq<string>, labels: Labels, whereItems: seq<FilterItem>) {
    && (forall i, j :: 0 <= i < j < |order| ==> order[i] != order[j])
    && (forall l :: l in order <==> l in labels && !IsNamedIn(l, whereItems))
  }

  /** The search through the labels, in any order, for the one an item is about. */
  method FindLabel(labels: Labels, name: string) returns (r: Option<string>)
    ensures r == if name in labels then Some(labels[name]) else None
  {
    var todo := labels.Keys;
    while todo != {}
      invariant todo <= labels.Keys && (name in labels ==> name in todo)
      decreases todo
    {
      var key :| key in todo;
      todo := todo - {key};
      if name == key {
        return Some(labels[key]);
      }
    }
    return None;
  }

  method FindKey(name: string, groupBy: seq<AttributeKey>, keys: map<string, AttributeKey>) returns (r: AttributeKey)
    ensures r == ResolveKey(name, groupBy, keys)
    ensures IsLabelKey(r, name, groupBy, keys)
    ensures forall j :: 0 <= j < |groupBy| && groupBy[j].key == name ==>
      r == groupBy[j] || exists i :: 0 <= i < j && groupBy[i].key == name
    ensures (forall j :: 0 <= j < |groupBy| ==> groupBy[j].key != name) ==>
      if name + "##tag##float64" in keys then r == keys[name + "##tag##float64"]
      else if name + "##tag##int64" in keys then r == keys[name + "##tag##int64"]
      else if name + "##tag##string" in keys then r == keys[name + "##tag##string"]
      else if name + "##tag##bool" in keys then r == keys[name + "##tag##bool"]
      else if name + "##resource##float64" in keys then r == keys[name + "##resource##float64"]
      else if name + "##resource##int64" in keys then r == keys[name + "##resource##int64"]
      else if name + "##resource##string" in keys then r == keys[name + "##resource##string"]
      else if name + "##resource##bool" in keys then r == keys[name + "##resource##bool"]
      else if name in keys then r == keys[name]
      else r == AttributeKey(name, "", "", false, false)
  {
    ResolvedIsLabelKey(name, groupBy, keys);
    var names := EnrichmentNames(name);
    var found := None;
    var i := 0;
    while i < |names| && found.None?
      invariant 0 <= i <= |names|
      invariant found == None ==> FirstKnown(names, keys) == FirstKnown(names[i..], keys)
      invariant found.Some? ==> FirstKnown(names, keys) == found
    {
      assert names[i..][1..] == names[i + 1..];
      if names[i] in keys {
        found := Some(keys[names[i]]);
      }
      i := i + 1;
    }
    if found.Some? {
      r := found.value;
    } else if name in keys {
      r := keys[name];
    } else {
      r := AttributeKey(name, "", "", false, false);
    }
    var j := 0;
    while j < |groupBy|
      invariant 0 <= j <= |groupBy| && FirstNamed(groupBy, name) == FirstNamed(groupBy[j..], name)
    {
      assert groupBy[j..][1..] == groupBy[j + 1..];
      if groupBy[j].key == name {
        return groupBy[j];
      }
      j := j + 1;
    }
  }

  /** Every filter item in its place, compared with its label if it has one. */
  ghost predicate ItemsKept(items: seq<FilterItem>, whereItems: seq<FilterItem>, labels: Labels) {
    |items| == |whereItems| && forall i :: 0 <= i < |whereItems| ==>
      var item := whereItems[i];
      && (item.key.key in labels ==> items[i] == FilterItem(item.key, Equal, Text(labels[item.key.key])))
      && (item.key.key !in labels ==> items[i] == item)
  }

  /** One item for each of some labels, on that label's own key. */
  ghost predicate LabelsAdded(items: seq<FilterItem>, order: seq<string>, labels: Labels, groupBy: seq<AttributeKey>,
                              keys: map<string, AttributeKey>)
  {
    |items| == |order| && forall i :: 0 <= i < |order| ==>
      && order[i] in labels && items[i].operator == Equal && items[i].value == Text(labels[order[i]])
      && IsLabelKey(items[i].key, order[i], groupBy, keys)
  }

  method PrepareFilters(labels: Labels, whereItems: seq<FilterItem>, groupBy: seq<AttributeKey>,
                        keys: map<string, AttributeKey>)
    returns (filterItems: seq<FilterItem>, ghost order: seq<string>)
    ensures IsOrder(order, labels, whereItems) && AllIn(order, labels)
    ensures filterItems == Replaced(whereItems, labels) + Added(order, labels, groupBy, keys)
    ensures ItemsKept(filterItems[..|whereItems|], whereItems, labels)
    ensures LabelsAdded(filterItems[|whereItems|..], order, labels, groupBy, keys)
  {
    hide *;
    var added, extra;
    filterItems, added := ReplaceLabelled(labels, whereItems);
    extra, order := AddMissing(labels, added, groupBy, keys);
    OrderIs(order, labels, added, whereItems);
    ItemsAre(order, labels, whereItems, groupBy, keys);
    assert filterItems == (filterItems + extra)[..|whereItems|] && extra == (filterItems + extra)[|whereItems|..];
    filterItems := filterItems + extra;
  }

  /** The first loop, over the filter items. */
  method ReplaceLabelled(labels: Labels, whereItems: seq<FilterItem>)
    returns (filterItems: seq<FilterItem>, added: set<string>)
    ensures filterItems == Replaced(whereItems, labels)
    ensures forall l :: l in added <==> l in labels && IsNamedIn(l, whereItems)
  {
    filterItems, added := [], {};
    for i := 0 to |whereItems|
      invariant filterItems == Replaced(whereItems[..i], labels)
      invariant forall l :: l in added <==> l in labels && IsNamedIn(l, whereItems[..i])
    {
      var item := whereItems[i];
      NamedOneMore(whereItems[..i], item);
      assert whereItems[..i + 1] == whereItems[..i] + [item];
      var value := FindLabel(labels, item.key.key);
      if value.Some? {
        filterItems := filterItems + [FilterItem(item.key, Equal, Text(value.value))];
        added := added + {item.key.key};
      } else {
        filterItems := filterItems + [item];
      }
    }
    assert whereItems[..|whereItems|] == whereItems;
  }

  lemma OrderIs(order: seq<string>, labels: Labels, added: set<string>, whereItems: seq<FilterItem>)
    requires forall i, j :: 0 <= i < j < |order| ==> order[i] != order[j]
    requires forall l :: l in order <==> l in labels && l !in added
    requires forall l :: l in added <==> l in labels && IsNamedIn(l, whereItems)
    ensures IsOrder(order, labels, whereItems)
  {
  }

  lemma ItemsAre(order: seq<string>, labels: Labels, whereItems: seq<FilterItem>, groupBy: seq<AttributeKey>,
                 keys: map<string, AttributeKey>)
    requires AllIn(order, labels)
    ensures ItemsKept(Replaced(whereItems, labels), whereItems, labels)
    ensures |Replaced(whereItems, labels)| == |whereItems|
    ensures LabelsAdded(Added(order, labels, groupBy, keys), order, labels, groupBy, keys)
  {
    hide IsLabelKey, ResolveKey;
    forall i | 0 <= i < |order|
      ensures IsLabelKey(Added(order, labels, groupBy, keys)[i].key, order[i], groupBy, keys)
    {
      ResolvedIsLabelKey(order[i], groupBy, keys);
    }
  }

  lemma NamedOneMore(items: seq<FilterItem>, item: FilterItem)
    ensures forall l :: IsNamedIn(l, items + [item]) <==> IsNamedIn(l, items) || l == item.key.key
  {
    assert (items + [item])[|items|] == item && forall i :: 0 <= i < |items| ==> (items + [item])[i] == items[i];
  }

  /** The second loop, over the labels in any order. */
  method AddMissing(labels: Labels, added: set<string>, groupBy: seq<AttributeKey>, keys: map<string, AttributeKey>)
    returns (extra: seq<FilterItem>, ghost order: seq<string>)
    ensures forall i, j :: 0 <= i < j < |order| ==> order[i] != order[j]
    ensures forall l :: l in order <==> l in labels && l !in added
    ensures AllIn(order, labels) && extra == Added(order, labels, groupBy, keys)
  {
    extra, order := [], [];
    var todo := labels.Keys;
    while todo != {}
      invariant todo <= labels.Keys
      invariant forall i, j :: 0 <= i < j < |order| ==> order[i] != order[j]
      invariant forall l :: l in order <==> l in labels && l !in todo && l !in added
      invariant AllIn(order, labels) && extra == Added(order, labels, groupBy, keys)
      decreases todo
    {
      var key :| key in todo;
      todo := todo - {key};
      if key !in added {
        var attributeKey := FindKey(key, groupBy, keys);
        extra := extra + [FilterItem(attributeKey, Equal, Text(labels[key]))];
        order := order + [key];
      }
    }
  }

  // ---- what the filters accept ----

  /** The attribute keys on which a label is compared: those of the filter items that name it, else the resolved one. */
  ghost predicate IsKeyOf(a: AttributeKey, name: string, whereItems: seq<FilterItem>, groupBy: seq<AttributeKey>,
                          keys: map<string, AttributeKey>)
  {
    if IsNamedIn(name, whereItems)
    then exists i :: 0 <= i < |whereItems| && whereItems[i].key == a && a.key == name
    else a == ResolveKey(name, groupBy, keys)
  }

  ghost predicate EqualsLabels(labels: Labels, whereItems: seq<FilterItem>, groupBy: seq<AttributeKey>,
                               keys: map<string, AttributeKey>, rec: Record)
  {
    forall l, a :: l in labels && IsKeyOf(a, l, whereItems, groupBy, keys) ==> rec(a) == Some(Text(labels[l]))
  }

  ghost predicate SatisfiesUnlabelled(sem: Semantics, labels: Labels, whereItems: seq<FilterItem>, rec: Record) {
    forall i :: 0 <= i < |whereItems| && whereItems[i].key.key !in labels ==> Satisfies(sem, rec, whereItems[i])
  }

  /** The filters of a link accept exactly the records that equal every label on that label's key and satisfy
      every filter item of the alert whose key has no label. */
  lemma FiltersMean(sem: Semantics, labels: Labels, whereItems: seq<FilterItem>, groupBy: seq<AttributeKey>,
                    keys: map<string, AttributeKey>, order: seq<string>, rec: Record)
    requires MeansEqual(sem) && IsOrder(order, labels, whereItems) && AllIn(order, labels)
    ensures Accepts(sem, Replaced(whereItems, labels) + Added(order, labels, groupBy, keys), rec)
            <==> EqualsLabels(labels, whereItems, groupBy, keys, rec)
                 && SatisfiesUnlabelled(sem, labels, whereItems, rec)
  {
    var a, b := Replaced(whereItems, labels), Added(order, labels, groupBy, keys);
    AcceptsBoth(sem, a, b, rec);
    if Accepts(sem, a, rec) && Accepts(sem, b, rec) {
      AcceptedEqualsLabels(sem, labels, whereItems, groupBy, keys, order, rec);
      forall i | 0 <= i < |whereItems| && whereItems[i].key.key !in labels ensures Satisfies(sem, rec, whereItems[i]) {
        assert Satisfies(sem, rec, a[i]);
      }
    }
    if EqualsLabels(labels, whereItems, groupBy, keys, rec) && SatisfiesUnlabelled(sem, labels, whereItems, rec) {
      forall i | 0 <= i < |a| ensures Satisfies(sem, rec, a[i]) {
        var item := whereItems[i];
        if item.key.key in labels {
          assert IsKeyOf(item.key, item.key.key, whereItems, groupBy, keys);
        }
      }
      forall i | 0 <= i < |b| ensures Satisfies(sem, rec, b[i]) {
        assert order[i] in order;
        assert IsKeyOf(b[i].key, order[i], whereItems, groupBy, keys);
      }
    }
  }

  lemma AcceptsBoth(sem: Semantics, a: seq<FilterItem>, b: seq<FilterItem>, rec: Record)
    ensures Accepts(sem, a + b, rec) <==> Accepts(sem, a, rec) && Accepts(sem, b, rec)
  {
    assert forall i :: 0 <= i < |a| ==> (a + b)[i] == a[i];
    assert forall i :: 0 <= i < |b| ==> (a + b)[|a| + i] == b[i];
  }

  lemma AcceptedEqualsLabels(sem: Semantics, labels: Labels, whereItems: seq<FilterItem>, groupBy: seq<AttributeKey>,
                             keys: map<string, AttributeKey>, order: seq<string>, rec: Record)
    requires MeansEqual(sem) && IsOrder(order, labels, whereItems) && AllIn(order, labels)
    requires Accepts(sem, Replaced(whereItems, labels), rec) && Accepts(sem, Added(order, labels, groupBy, keys), rec)
    ensures EqualsLabels(labels, whereItems, groupBy, keys, rec)
  {
    forall l, a | l in labels && IsKeyOf(a, l, whereItems, groupBy, keys) ensures rec(a) == Some(Text(labels[l])) {
      if IsNamedIn(l, whereItems) {
        var i :| 0 <= i < |whereItems| && whereItems[i].key == a && a.key == l;
        assert Satisfies(sem, rec, Replaced(whereItems, labels)[i]);
      } else {
        assert l in order;
        var i :| 0 <= i < |order| && order[i] == l;
        assert Satisfies(sem, rec, Added(order, labels, groupBy, keys)[i]);
      }
    }
  }

  /** The order in which the labels were visited does not matter. */
  lemma OrderDoesNotMatter(sem: Semantics, labels: Labels, whereItems: seq<FilterItem>, groupBy: seq<AttributeKey>,
                           keys: map<string, AttributeKey>, order: seq<string>, order': seq<string>, rec: Record)
    requires MeansEqual(sem)
    requires IsOrder(order, labels, whereItems) && AllIn(order, labels)
    requires IsOrder(order', labels, whereItems) && AllIn(order', labels)
    ensures Accepts(sem, Replaced(whereItems, labels) + Added(order, labels, groupBy, keys), rec)
            <==> Accepts(sem, Replaced(whereItems, labels) + Added(order', labels, groupBy, keys), rec)
  {
    FiltersMean(sem, labels, whereItems, groupBy, keys, order, rec);
    FiltersMean(sem, labels, whereItems, groupBy, keys, order', rec);
  }

  /** The labels of the alert satisfy the filter items that name them. */
  ghost predicate LabelsSatisfy(sem: Semantics, labels: Labels, whereItems: seq<FilterItem>) {
    forall i :: 0 <= i < |whereItems| && whereItems[i].key.key in labels ==>
      sem(whereItems[i].operator, Some(Text(labels[whereItems[i].key.key])), whereItems[i].value)
  }

  ghost predicate SameAsConjunction(sem: Semantics, labels: Labels, whereItems: seq<FilterItem>,
                                    groupBy: seq<AttributeKey>, keys: map<string, AttributeKey>,
                                    filterItems: seq<FilterItem>)
  {
    forall rec: Record :: Accepts(sem, filterItems, rec)
      <==> Accepts(sem, whereItems, rec) && EqualsLabels(labels, whereItems, groupBy, keys, rec)
  }

  /** No record has the labels and satisfies the filter items without a label. */
  ghost predicate NothingFits(sem: Semantics, labels: Labels, whereItems: seq<FilterItem>, groupBy: seq<AttributeKey>,
                              keys: map<string, AttributeKey>)
  {
    forall rec: Record ::
      !(EqualsLabels(labels, whereItems, groupBy, keys, rec) && SatisfiesUnlabelled(sem, labels, whereItems, rec))
  }

  /** The link shows the records of the alert's own filter that carry its labels exactly when those labels satisfy the
      filter, or when nothing fits the labels and the rest of the filter. */
  lemma SameAsConjunctionIff(sem: Semantics, labels: Labels, whereItems: seq<FilterItem>, groupBy: seq<AttributeKey>,
                             keys: map<string, AttributeKey>, order: seq<string>, filterItems: seq<FilterItem>)
    requires MeansEqual(sem) && IsOrder(order, labels, whereItems) && AllIn(order, labels)
    requires filterItems == Replaced(whereItems, labels) + Added(order, labels, groupBy, keys)
    ensures SameAsConjunction(sem, labels, whereItems, groupBy, keys, filterItems)
            <==> LabelsSatisfy(sem, labels, whereItems) || NothingFits(sem, labels, whereItems, groupBy, keys)
  {
    forall rec: Record
      ensures Accepts(sem, filterItems, rec) <==>
        EqualsLabels(labels, whereItems, groupBy, keys, rec) && SatisfiesUnlabelled(sem, labels, whereItems, rec)
      ensures Accepts(sem, whereItems, rec) ==> SatisfiesUnlabelled(sem, labels, whereItems, rec)
      ensures Accepts(sem, filterItems, rec) ==>
        (Accepts(sem, whereItems, rec) <==> LabelsSatisfy(sem, labels, whereItems))
    {
      FiltersMean(sem, labels, whereItems, groupBy, keys, order, rec);
      if Accepts(sem, filterItems, rec) {
        SatisfiesWhereIff(sem, labels, whereItems, groupBy, keys, rec);
      }
    }
  }

  /** An alert labelled env = prod with the filter env != prod: its link shows records that the filter rejects. */
  lemma LabelAgainstFilter(sem: Semantics, filterItems: seq<FilterItem>)
    requires MeansEqual(sem) && forall x, v :: sem(Other("!="), x, v) <==> x != Some(v)
    requires var env := AttributeKey("env", "", "", false, false);
      var whereItems := [FilterItem(env, Other("!="), Text("prod"))];
      filterItems == Replaced(whereItems, map["env" := "prod"]) + Added([], map["env" := "prod"], [], map[])
    ensures var env := AttributeKey("env", "", "", false, false);
      var whereItems := [FilterItem(env, Other("!="), Text("prod"))];
      !SameAsConjunction(sem, map["env" := "prod"], whereItems, [], map[], filterItems)
  {
    var env := AttributeKey("env", "", "", false, false);
    var labels, whereItems := map["env" := "prod"], [FilterItem(env, Other("!="), Text("prod"))];
    assert whereItems[0].key.key == "env" && IsNamedIn("env", whereItems);
    assert IsOrder([], labels, whereItems);
    assert !LabelsSatisfy(sem, labels, whereItems);
    var rec: Record := a => Some(Text("prod"));
    assert EqualsLabels(labels, whereItems, [], map[], rec) && SatisfiesUnlabelled(sem, labels, whereItems, rec);
    SameAsConjunctionIff(sem, labels, whereItems, [], map[], [], filterItems);
  }

  lemma SatisfiesWhereIff(sem: Semantics, labels: Labels, whereItems: seq<FilterItem>, groupBy: seq<AttributeKey>,
                          keys: map<string, AttributeKey>, rec: Record)
    requires EqualsLabels(labels, whereItems, groupBy, keys, rec) && SatisfiesUnlabelled(sem, labels, whereItems, rec)
    ensures Accepts(sem, whereItems, rec) <==> LabelsSatisfy(sem, labels, whereItems)
  {
    forall i | 0 <= i < |whereItems| && whereItems[i].key.key in labels
      ensures rec(whereItems[i].key) == Some(Text(labels[whereItems[i].key.key]))
    {
      assert IsKeyOf(whereItems[i].key, whereItems[i].key.key, whereItems, groupBy, keys);
    }
    if Accepts(sem, whereItems, rec) {
      forall i | 0 <= i < |whereItems| && whereItems[i].key.key in labels
        ensures sem(whereItems[i].operator, Some(Text(labels[whereItems[i].key.key])), whereItems[i].value)
      {
        assert Satisfies(sem, rec, whereItems[i]);
      }
    }
  }

  // ---- records that tell attribute keys apart by name only ----

  /** The known keys are filed under their own names. */
  ghost predicate FiledByName(keys: map<string, AttributeKey>, name: string) {
    forall n :: n in keys && (n == name || n in EnrichmentNames(name)) ==> keys[n].key == name
  }

  lemma ResolvedKeyKeepsName(name: string, groupBy: seq<AttributeKey>, keys: map<string, AttributeKey>)
    requires FiledByName(keys, name)
    ensures ResolveKey(name, groupBy, keys).key == name
  {
    FirstNamedHasName(groupBy, name);
    FirstKnownIsKnown(EnrichmentNames(name), keys);
  }

  lemma {:induction false} FirstNamedHasName(items: seq<AttributeKey>, name: string)
    ensures FirstNamed(items, name).Some? ==> FirstNamed(items, name).value.key == name
  {
    if items != [] {
      FirstNamedHasName(items[1..], name);
    }
  }

  lemma {:induction false} FirstKnownIsKnown(names: seq<string>, keys: map<string, AttributeKey>)
    ensures FirstKnown(names, keys).Some? ==>
      exists n :: n in names && n in keys && keys[n] == FirstKnown(names, keys).value
  {
    if names != [] {
      assert names[0] in names;
      FirstKnownIsKnown(names[1..], keys);
    }
  }

  /** On records by name: every label has its value, and the unlabelled filter items hold. */
  lemma FiltersMeanByName(sem: Semantics, labels: Labels, whereItems: seq<FilterItem>, groupBy: seq<AttributeKey>,
                          keys: map<string, AttributeKey>, order: seq<string>, named: string -> Option<Value>)
    requires MeansEqual(sem) && IsOrder(order, labels, whereItems) && AllIn(order, labels)
    requires forall l :: l in labels ==> FiledByName(keys, l)
    ensures var rec := (a: AttributeKey) => named(a.key);
      Accepts(sem, Replaced(whereItems, labels) + Added(order, labels, groupBy, keys), rec)
      <==> (forall l :: l in labels ==> named(l) == Some(Text(labels[l])))
           && SatisfiesUnlabelled(sem, labels, whereItems, rec)
  {
    var rec := (a: AttributeKey) => named(a.key);
    FiltersMean(sem, labels, whereItems, groupBy, keys, order, rec);
    forall l | l in labels ensures exists a :: IsKeyOf(a, l, whereItems, groupBy, keys) && a.key == l {
      var a := ResolveKey(l, groupBy, keys);
      ResolvedKeyKeepsName(l, groupBy, keys);
      if IsNamedIn(l, whereItems) {
        var i :| 0 <= i < |whereItems| && whereItems[i].key.key == l;
        a := whereItems[i].key;
      }
      assert IsKeyOf(a, l, whereItems, groupBy, keys);
    }
    forall l, a | l in labels && IsKeyOf(a, l, whereItems, groupBy, keys) ensures a.key == l {
      ResolvedKeyKeepsName(l, groupBy, keys);
    }
  }
}
