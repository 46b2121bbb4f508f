/** The serializer over the mutable graph: the printer fills a document in loops, the parser
    builds a fresh graph through the authoring operations. */
module Serialization {
  import opened Wrappers
  import opened Json
  import opened Ir
  import opened Schema
  import opened Documents
  import opened RoundTrips
  import opened DocumentMeaning
  import SG = StructuralGraph
  import Sorting
  import Text

  method PrintUnits(units: map<string, Unit>) returns (printed: Fields)
    ensures printed == UnitDocuments(units)
  {
    var sortedIds := Text.SortedStrings(units.Keys);
    RestrictEnds(units, sortedIds);
    hide *;
    printed := map[];
    for i := 0 to |sortedIds|
      invariant printed == PrintedFirst(units, sortedIds, i)
    {
      NextUnit(units, sortedIds, i);
      printed := printed[Key(sortedIds[i]) := UnitDocument(units[sortedIds[i]])];
    }
  }

  /** What has been printed of the units after `n` of the sorted identifiers. */
  function PrintedFirst(units: map<string, Unit>, ids: seq<string>, n: nat): Fields
    requires n <= |ids|
  {
    UnitDocuments(Restrict(units, ids[..n]))
  }

  lemma NextUnit(units: map<string, Unit>, ids: seq<string>, i: nat)
    requires i < |ids| && Sorting.NoDuplicates(ids) && forall id :: id in ids <==> id in units
    ensures ids[i] in units
    ensures PrintedFirst(units, ids, i + 1) == PrintedFirst(units, ids, i)[Key(ids[i]) := UnitDocument(units[ids[i]])]
  {
    hide UnitDocument;
    hide UnitDocuments;
    hide Restrict;
    assert ids[i] in ids;
    assert ids[i] !in ids[..i];
    assert ids[..i + 1] == ids[..i] + [ids[i]];
    UnitDocumentAdded(units, ids[..i], ids[i]);
  }

  lemma RestrictEnds(units: map<string, Unit>, ids: seq<string>)
    requires forall id :: id in ids <==> id in units
    ensures PrintedFirst(units, ids, 0) == map[]
    ensures PrintedFirst(units, ids, |ids|) == UnitDocuments(units)
  {
    hide UnitDocument;
    assert Restrict(units, ids[..0]) == map[];
    assert ids[..|ids|] == ids;
    assert Restrict(units, ids) == units;
  }

  method PrintEdges(sortedEdges: seq<Edge>) returns (printed: seq<Json>)
    ensures printed == EdgeDocuments(sortedEdges)
  {
    hide EdgeDocument;
    printed := [];
    for i := 0 to |sortedEdges|
      invariant printed == EdgeDocuments(sortedEdges[..i])
    {
      printed := printed + [EdgeDocument(sortedEdges[i])];
    }
    assert sortedEdges[..|sortedEdges|] == sortedEdges;
  }

  method ToDict(graph: SG.StructuralGraph) returns (data: Json)
    requires graph.Valid()
    ensures data == GraphDocument(graph.View())
    ensures graph.View().Valid() ==> ReadGraph(data) == Ok(Canonical(graph.View()))
    ensures graph.View().Valid() ==> GraphSays(data, Canonical(graph.View()))
  {
    hide SortEdges;
    hide GraphSays;
    var units := PrintUnits(graph.units);
    var edges := PrintEdges(SortEdges(graph.edges));
    if graph.View().Valid() {
      PrintThenParse(graph.View());
      PrintedSaysGraph(graph.View());
    }
    hide UnitDocuments;
    hide EdgeDocuments;
    hide ReadGraph;
    data := Obj(map[
      SCHEMA_ID := Str(SCHEMA_TEXT),
      SCHEMA_VERSION := Str(LATEST_VERSION),
      COMPATIBILITY_VERSION := Str(COMPATIBILITY_TEXT),
      GRAPH_ID := Str(graph.graphId),
      VERSION := VersionDocument(graph.version),
      UNITS := Obj(units),
      EDGES := Arr(edges),
      METADATA := graph.metadata]);
  }

  lemma UnitDocumentAdded(units: map<string, Unit>, ids: seq<string>, uid: string)
    requires uid in units && uid !in ids
    ensures UnitDocuments(Restrict(units, ids + [uid]))
            == UnitDocuments(Restrict(units, ids))[Key(uid) := UnitDocument(units[uid])]
  {
    hide UnitDocument;
    RestrictStep(units, ids, uid);
  }

  lemma {:induction false} ReadUnitsPrefix(ids: seq<string>, units: Fields, k: nat)
    requires k <= |ids| && forall id | id in ids :: Key(id) in units
    ensures forall id | id in ids[..k] :: Key(id) in units
    ensures ReadUnits(ids[..k], units).Err? ==> ReadUnits(ids, units).Err?
    decreases |ids|
  {
    hide ReadUnit;
    forall id | id in ids[..k] ensures Key(id) in units { assert id in ids; }
    if k < |ids| {
      var front := ids[..|ids| - 1];
      forall id | id in front ensures Key(id) in units { assert id in ids; }
      assert front[..k] == ids[..k];
      ReadUnitsPrefix(front, units, k);
    } else {
      assert ids[..k] == ids;
    }
  }

  lemma {:induction false} ReadEdgesPrefix(items: seq<Json>, k: nat)
    requires k <= |items|
    ensures ReadEdges(items[..k]).Err? ==> ReadEdges(items).Err?
    decreases |items|
  {
    hide ReadEdge;
    if k < |items| {
      var front := items[..|items| - 1];
      assert front[..k] == items[..k];
      ReadEdgesPrefix(front, k);
    } else {
      assert items[..k] == items;
    }
  }

  /** The loop that adds units; it stops at the first unreadable one. */
  method AddUnits(graph: SG.StructuralGraph, units: Fields) returns (ok: bool)
    requires graph.Valid() && graph.units == map[]
    modifies graph
    ensures graph.Valid()
    ensures ok <==> ReadUnits(UnitKeys(units), units).Ok?
    ensures ok ==> graph.View() == old(graph.View()).(units := ReadUnits(UnitKeys(units), units).value)
  {
    hide ReadUnit;
    hide UnitKeys;
    hide Unit.Valid;
    var ids := UnitKeys(units);
    for i := 0 to |ids|
      invariant graph.Valid()
      invariant forall id | id in ids[..i] :: Key(id) in units
      invariant ReadUnits(ids[..i], units).Ok?
      invariant graph.View() == old(graph.View()).(units := ReadUnits(ids[..i], units).value)
    {
      ReadUnitsPrefix(ids, units, i + 1);
      assert ids[..i + 1][..i] == ids[..i];
      var u := ReadUnit(units[Key(ids[i])]);
      if u.Err? { return false; }
      var added := graph.AddUnit(u.value);
      if added.Err? { return false; }
    }
    assert ids[..|ids|] == ids;
    ok := true;
  }

  method AddEdges(graph: SG.StructuralGraph, items: seq<Json>) returns (ok: bool)
    requires graph.Valid() && graph.edges == []
    modifies graph
    ensures graph.Valid()
    ensures ok <==> ReadEdges(items).Ok?
    ensures ok ==> graph.View() == old(graph.View()).(edges := ReadEdges(items).value)
  {
    hide ReadEdge;
    for i := 0 to |items|
      invariant graph.Valid()
      invariant ReadEdges(items[..i]).Ok?
      invariant graph.View() == old(graph.View()).(edges := ReadEdges(items[..i]).value)
    {
      ReadEdgesPrefix(items, i + 1);
      assert items[..i + 1][..i] == items[..i];
      var e := ReadEdge(items[i]);
      if e.Err? { return false; }
      graph.AddEdge(e.value);
    }
    assert items[..|items|] == items;
    ok := true;
  }

  method FromDict(data: Json) returns (r: Parsed<SG.StructuralGraph>)
    ensures r.Ok? <==> ReadGraph(data).Ok?
    ensures r.Ok? ==> fresh(r.value) && r.value.Valid() && r.value.View() == ReadGraph(data).value
    ensures r.Ok? ==> Acceptable(data) && GraphSays(data, r.value.View())
  {
    if !Acceptable(data) { return Err(InvalidDocument); }
    if ReadGraph(data).Ok? { GraphRead(data); }
    hide GraphSays;
    hide ReadUnits;
    hide ReadEdges;
    hide ReadVersion;
    hide UnitKeys;
    var o := data.fields;
    if !Normalized(o[GRAPH_ID].s) { return Err(InvalidDocument); }
    var version := ReadVersion(Get(o, VERSION, Obj(map[])));
    if version.Err? { return Err(InvalidDocument); }
    var graph := new SG.StructuralGraph(o[GRAPH_ID].s, version.value, Get(o, METADATA, Obj(map[])));
    hide Acceptable;
    var units := AsFields(Get(o, UNITS, Obj(map[])));
    if units.Err? { return Err(InvalidDocument); }
    var ok := AddUnits(graph, units.value);
    if !ok { return Err(InvalidDocument); }
    var items := AsItems(Get(o, EDGES, Arr([])));
    if items.Err? { return Err(InvalidDocument); }
    ok := AddEdges(graph, items.value);
    if !ok { return Err(InvalidDocument); }
    r := Ok(graph);
  }
}
