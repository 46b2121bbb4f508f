/** Cognitive state: dependency invalidation as a fixpoint over two kinds of dependency
    links, and action lifecycles replayed from the event log. */
module Cognition {
  import opened Wrappers
  import opened Walks
  import Sorting
  import Text

  datatype InvalidationStatus = Current | Stale | Invalid | Superseded

  datatype Item = Item(itemId: string, tenantId: string, content: string, dependsOn: seq<string>,
      status: InvalidationStatus)

  datatype RelationType = Supports | Contradicts | DependsOn | Invalidates

  datatype Relation = Relation(relationId: string, relationType: RelationType, sourceId: string, targetId: string)

  datatype ActionState =
    | Proposed | Validated | PolicyChecked | Authorized | Prepared
    | Executing | Observed | Verified | Assessed | Closed
    | Rejected | Cancelled | TimedOut | Failed | CompensationRequired | Quarantined

  datatype Event =
    | ItemAppended(itemId: string)
    | RelationAppended(relationId: string)
    | DependencyInvalidation(rootId: string, invalidatedIds: seq<string>, reason: string)
    | ActionTransition(actionId: string, from: Option<ActionState>, to: ActionState)

  datatype State = State(
    tenantId: string,
    items: seq<Item>,
    relations: seq<Relation>,
    actionStates: map<string, ActionState>,
    views: map<string, seq<string>>,
    invalidatedViews: seq<string>,
    events: seq<Event>)

  datatype StateError = UnknownItem | DuplicateItem | WrongTenant | UnknownEndpoint | DuplicateRelation
                      | UnknownDependency | EmptyActionId | IllegalTransition

  // ----- Dependencies -----

  function ItemIds(s: State): set<string> { set i | i in s.items :: i.itemId }

  /** A link leads from what is depended on to what depends on it. */
  ghost function Links(s: State): set<Link> {
    (set i, d | i in s.items && d in i.dependsOn :: (d, i.itemId))
    + (set r | r in s.relations && r.relationType == DependsOn :: (r.targetId, r.sourceId))
  }

  ghost function Dependents(s: State): set<string> {
    ItemIds(s) + set r | r in s.relations :: r.sourceId
  }

  /** Everything that depends on `root`, directly or not, and `root` itself. */
  ghost function Affected(s: State, root: string): set<string> {
    set x | x in Dependents(s) + {root} && Reaches(Links(s), root, x)
  }

  lemma AffectedIsReachable(s: State, root: string, x: string)
    ensures x in Affected(s, root) <==> Reaches(Links(s), root, x)
  {
    if Reaches(Links(s), root, x) {
      var walk :| Leads(Links(s), walk, root, x);
      if |walk| >= 2 {
        assert (walk[|walk| - 2], walk[|walk| - 1]) in Links(s);
      }
    }
  }

  predicate Touches(ids: seq<string>, invalid: set<string>) { exists d | d in ids :: d in invalid }

  /** The fixpoint loop of the invalidation. */
  method DependencyClosure(s: State, root: string) returns (invalid: set<string>)
    ensures invalid == Affected(s, root)
  {
    ReachesSelf(Links(s), root);
    invalid := {root};
    var changed := true;
    while changed
      invariant root in invalid && invalid <= Affected(s, root)
      invariant !changed ==> forall l | l in Links(s) && l.0 in invalid :: l.1 in invalid
      decreases Affected(s, root) - invalid, changed
    {
      ghost var start := invalid;
      changed := false;
      for i := 0 to |s.items|
        invariant start <= invalid <= Affected(s, root)
        invariant changed ==> start < invalid
        invariant !changed ==> invalid == start
        invariant !changed ==> forall k | 0 <= k < i :: Touches(s.items[k].dependsOn, invalid) ==>
            s.items[k].itemId in invalid
      {
        var item := s.items[i];
        if item.itemId !in invalid && Touches(item.dependsOn, invalid) {
          var d :| d in item.dependsOn && d in invalid;
          AddDependent(s, root, d, item.itemId);
          invalid := invalid + {item.itemId};
          changed := true;
        }
      }
      for i := 0 to |s.relations|
        invariant start <= invalid <= Affected(s, root)
        invariant changed ==> start < invalid
        invariant !changed ==> invalid == start
        invariant !changed ==> forall k | 0 <= k < |s.items| :: Touches(s.items[k].dependsOn, invalid) ==>
            s.items[k].itemId in invalid
        invariant !changed ==> forall k | 0 <= k < i ::
                    s.relations[k].relationType == DependsOn && s.relations[k].targetId in invalid ==>
                        s.relations[k].sourceId in invalid
      {
        var r := s.relations[i];
        if r.relationType == DependsOn && r.targetId in invalid && r.sourceId !in invalid {
          AddDependent(s, root, r.targetId, r.sourceId);
          invalid := invalid + {r.sourceId};
          changed := true;
        }
      }
      if !changed { ClosedUnderLinks(s, invalid); }
    }
    forall x | x in Affected(s, root) ensures x in invalid {
      AffectedIsReachable(s, root, x);
      ClosedHoldsReachable(Links(s), invalid, root, x);
    }
  }

  lemma AddDependent(s: State, root: string, d: string, x: string)
    requires d in Affected(s, root) && (d, x) in Links(s)
    ensures x in Affected(s, root)
  {
    AffectedIsReachable(s, root, d);
    LinkReaches(Links(s), d, x);
    ReachesTransitive(Links(s), root, d, x);
    AffectedIsReachable(s, root, x);
  }

  lemma ClosedUnderLinks(s: State, invalid: set<string>)
    requires forall k | 0 <= k < |s.items| :: Touches(s.items[k].dependsOn, invalid) ==> s.items[k].itemId in invalid
    requires forall k | 0 <= k < |s.relations| ::
               s.relations[k].relationType == DependsOn && s.relations[k].targetId in invalid ==>
                   s.relations[k].sourceId in invalid
    ensures forall l | l in Links(s) && l.0 in invalid :: l.1 in invalid
  {
    forall l | l in Links(s) && l.0 in invalid ensures l.1 in invalid {
      if i, d :| i in s.items && d in i.dependsOn && l == (d, i.itemId) {
        var k :| 0 <= k < |s.items| && s.items[k] == i;
        assert Touches(i.dependsOn, invalid);
      } else {
        var r :| r in s.relations && r.relationType == DependsOn && l == (r.targetId, r.sourceId);
        var k :| 0 <= k < |s.relations| && s.relations[k] == r;
      }
    }
  }

  // ----- Invalidation -----

  function MarkItem(i: Item, invalid: set<string>): Item {
    if i.itemId in invalid && i.status == Current then i.(status := Invalid) else i
  }

  function MarkItems(items: seq<Item>, invalid: set<string>): (r: seq<Item>)
    ensures |r| == |items|
  {
    seq(|items|, k requires 0 <= k < |items| => MarkItem(items[k], invalid))
  }

  function TouchedViews(views: map<string, seq<string>>, invalid: set<string>): set<string> {
    set v | v in views && Touches(views[v], invalid)
  }

  function MarkViews(marked: seq<string>, views: map<string, seq<string>>, invalid: set<string>): seq<string> {
    Text.SortedStrings((set v | v in marked) + TouchedViews(views, invalid))
  }

  ghost function Invalidated(s: State, root: string, reason: string): State {
    var invalid := Affected(s, root);
    s.(items := MarkItems(s.items, invalid),
       invalidatedViews := MarkViews(s.invalidatedViews, s.views, invalid),
       events := s.events + [DependencyInvalidation(root, Text.SortedStrings(invalid), reason)])
  }

  /** The effect of an invalidation, item by item: a current item that the root reaches becomes
      invalid, every other one is as it was. */
  ghost predicate MarksReached(s: State, root: string, t: State) {
    |t.items| == |s.items| &&
    forall k | 0 <= k < |s.items| ::
      t.items[k] ==
        if s.items[k].status == Current && Reaches(Links(s), root, s.items[k].itemId)
        then s.items[k].(status := Invalid) else s.items[k]
  }

  /** The views are those listed before and those over something the root reaches, in order. */
  ghost predicate ListsTouched(s: State, root: string, t: State) {
    && (forall v :: v in t.invalidatedViews <==>
          v in s.invalidatedViews || (v in s.views && exists d | d in s.views[v] :: Reaches(Links(s), root, d)))
    && Sorting.NoDuplicates(t.invalidatedViews) && Sorting.SortedBy(t.invalidatedViews, Text.StringLeq)
  }

  /** One event is logged, with everything the root reaches, in order. */
  ghost predicate LogsInvalidation(s: State, root: string, reason: string, t: State) {
    && |t.events| == |s.events| + 1 && t.events[..|s.events|] == s.events
    && var e := t.events[|s.events|];
    && e.DependencyInvalidation? && e.rootId == root && e.reason == reason
    && (forall x :: x in e.invalidatedIds <==> Reaches(Links(s), root, x))
    && Sorting.NoDuplicates(e.invalidatedIds) && Sorting.SortedBy(e.invalidatedIds, Text.StringLeq)
  }

  lemma InvalidatedMarks(s: State, root: string, reason: string)
    ensures MarksReached(s, root, Invalidated(s, root, reason))
  {
    forall k | 0 <= k < |s.items|
      ensures s.items[k].itemId in Affected(s, root) <==> Reaches(Links(s), root, s.items[k].itemId)
    {
      AffectedIsReachable(s, root, s.items[k].itemId);
    }
    hide Affected;
    hide Links;
    hide Reaches;
  }

  lemma InvalidatedLists(s: State, root: string, reason: string)
    ensures ListsTouched(s, root, Invalidated(s, root, reason))
    ensures LogsInvalidation(s, root, reason, Invalidated(s, root, reason))
  {
    var invalid := Affected(s, root);
    Text.SortedStringsSorted((set v | v in s.invalidatedViews) + TouchedViews(s.views, invalid));
    Text.SortedStringsSorted(invalid);
    forall x ensures x in invalid <==> Reaches(Links(s), root, x) { AffectedIsReachable(s, root, x); }
    hide Affected;
    hide Links;
    hide Reaches;
  }

  method InvalidateFrom(s: State, root: string, reason: string) returns (r: Result<State, StateError>)
    ensures r.Err? <==> root !in ItemIds(s)
    ensures r.Ok? ==>
              && MarksReached(s, root, r.value) && ListsTouched(s, root, r.value)
              && LogsInvalidation(s, root, reason, r.value)
              && r.value == s.(items := r.value.items, invalidatedViews := r.value.invalidatedViews, events :=
                  r.value.events)
    ensures r.Ok? ==> r.value == Invalidated(s, root, reason)
  {
    if root !in ItemIds(s) { return Err(UnknownItem); }
    var invalid := DependencyClosure(s, root);
    InvalidatedMarks(s, root, reason);
    InvalidatedLists(s, root, reason);
    hide MarksReached;
    hide ListsTouched;
    hide LogsInvalidation;
    hide Affected;
    r := Ok(s.(items := MarkItems(s.items, invalid),
               invalidatedViews := MarkViews(s.invalidatedViews, s.views, invalid),
               events := s.events + [DependencyInvalidation(root, Text.SortedStrings(invalid), reason)]));
  }

  lemma SameLinks(s: State, t: State)
    requires |s.items| == |t.items| && s.relations == t.relations
    requires forall k | 0 <= k < |s.items| ::
               s.items[k].itemId == t.items[k].itemId && s.items[k].dependsOn == t.items[k].dependsOn
    ensures Links(s) == Links(t) && Dependents(s) == Dependents(t)
    ensures forall root :: Affected(s, root) == Affected(t, root)
  {
    assert Links(s) <= Links(t) by { LinksInclude(s, t); }
    assert Links(t) <= Links(s) by { LinksInclude(t, s); }
    assert ItemIds(s) == ItemIds(t) by { IdsInclude(s, t); IdsInclude(t, s); }
  }

  lemma LinksInclude(s: State, t: State)
    requires |s.items| == |t.items| && s.relations == t.relations
    requires forall k | 0 <= k < |s.items| ::
               s.items[k].itemId == t.items[k].itemId && s.items[k].dependsOn == t.items[k].dependsOn
    ensures Links(s) <= Links(t)
  {
    forall l | l in Links(s) ensures l in Links(t) {
      if i, d :| i in s.items && d in i.dependsOn && l == (d, i.itemId) {
        var k :| 0 <= k < |s.items| && s.items[k] == i;
        assert t.items[k] in t.items && d in t.items[k].dependsOn;
      }
    }
  }

  lemma IdsInclude(s: State, t: State)
    requires |s.items| == |t.items|
    requires forall k | 0 <= k < |s.items| :: s.items[k].itemId == t.items[k].itemId
    ensures ItemIds(s) <= ItemIds(t)
  {
    forall x | x in ItemIds(s) ensures x in ItemIds(t) {
      var i :| i in s.items && i.itemId == x;
      var k :| 0 <= k < |s.items| && s.items[k] == i;
      assert t.items[k] in t.items;
    }
  }

  lemma InvalidationKeepsLinks(s: State, root: string, reason: string)
    ensures Links(Invalidated(s, root, reason)) == Links(s)
    ensures forall x :: Affected(Invalidated(s, root, reason), x) == Affected(s, x)
  {
    SameLinks(s, Invalidated(s, root, reason));
  }

  lemma MarkViewsTwice(marked: seq<string>, views: map<string, seq<string>>, a: set<string>, b: set<string>)
    ensures MarkViews(MarkViews(marked, views, a), views, b)
            == Text.SortedStrings((set v | v in marked) + TouchedViews(views, a) + TouchedViews(views, b))
  {
    var first := (set v | v in marked) + TouchedViews(views, a);
    assert (set v | v in Text.SortedStrings(first)) == first;
  }

  /** Invalidating again from the same root changes no item and no view. */
  lemma InvalidationIdempotent(s: State, root: string, reason: string, again: string)
    ensures var t := Invalidated(s, root, reason);
            var u := Invalidated(t, root, again);
            u.items == t.items && u.invalidatedViews == t.invalidatedViews
  {
    var a := Affected(s, root);
    InvalidationKeepsLinks(s, root, reason);
    MarkViewsTwice(s.invalidatedViews, s.views, a, a);
    assert (set v | v in s.invalidatedViews) + TouchedViews(s.views, a) + TouchedViews(s.views, a)
        == (set v | v in s.invalidatedViews) + TouchedViews(s.views, a);
  }

  /** On items and views, two invalidations commute. */
  lemma InvalidationsCommute(s: State, x: string, y: string, reason: string, other: string)
    ensures var xy := Invalidated(Invalidated(s, x, reason), y, other);
            var yx := Invalidated(Invalidated(s, y, other), x, reason);
            xy.items == yx.items && xy.invalidatedViews == yx.invalidatedViews
  {
    var a, b := Affected(s, x), Affected(s, y);
    InvalidationKeepsLinks(s, x, reason);
    InvalidationKeepsLinks(s, y, other);
    hide Affected;
    hide TouchedViews;
    hide Text.SortedStrings;
    assert MarkItems(MarkItems(s.items, a), b) == MarkItems(MarkItems(s.items, b), a);
    MarkViewsTwice(s.invalidatedViews, s.views, a, b);
    MarkViewsTwice(s.invalidatedViews, s.views, b, a);
    assert (set v | v in s.invalidatedViews) + TouchedViews(s.views, a) + TouchedViews(s.views, b)
        == (set v | v in s.invalidatedViews) + TouchedViews(s.views, b) + TouchedViews(s.views, a);
  }

  // ----- What stays sound between invalidations -----

  /** Some invalid item reaches `id`. */
  ghost predicate Tainted(s: State, id: string) {
    exists i :: i in s.items && i.status == Invalid && Reaches(Links(s), i.itemId, id)
  }

  /** No current item depends, however remotely, on an invalid one. */
  ghost predicate Sound(s: State) {
    forall i | i in s.items && i.status == Current :: !Tainted(s, i.itemId)
  }

  /** `id` reaches a current item. */
  ghost predicate ReachesCurrent(s: State, id: string) {
    exists i :: i in s.items && i.status == Current && Reaches(Links(s), id, i.itemId)
  }

  lemma InvalidationKeepsSound(s: State, root: string, reason: string)
    requires Sound(s)
    ensures Sound(Invalidated(s, root, reason))
    ensures !ReachesCurrent(Invalidated(s, root, reason), root)
  {
    var t, a := Invalidated(s, root, reason), Affected(s, root);
    InvalidationKeepsLinks(s, root, reason);
    forall j | j in t.items && j.status == Current ensures j.itemId !in a && j in s.items {
      var k :| 0 <= k < |t.items| && t.items[k] == j;
      assert t.items[k] == MarkItem(s.items[k], a);
    }
    forall j | j in t.items && j.status == Current ensures !Tainted(t, j.itemId) && !Reaches(Links(t), root, j.itemId) {
      AffectedIsReachable(s, root, j.itemId);
      if Tainted(t, j.itemId) {
        var i :| i in t.items && i.status == Invalid && Reaches(Links(t), i.itemId, j.itemId);
        var k :| 0 <= k < |t.items| && t.items[k] == i;
        assert i == MarkItem(s.items[k], a);
        if s.items[k].status != Invalid {
          AffectedIsReachable(s, root, i.itemId);
          ReachesTransitive(Links(s), root, i.itemId, j.itemId);
        }
      }
    }
  }

  /** After invalidating from a current item, everything it reaches counts as tainted: whatever is
      made to depend on any of it later is known to rest on something invalid. */
  lemma InvalidationTaints(s: State, root: Item, reason: string, x: string)
    requires root in s.items && root.status == Current && Reaches(Links(s), root.itemId, x)
    ensures Tainted(Invalidated(s, root.itemId, reason), x)
  {
    var t := Invalidated(s, root.itemId, reason);
    InvalidatedMarks(s, root.itemId, reason);
    InvalidationKeepsLinks(s, root.itemId, reason);
    ReachesSelf(Links(s), root.itemId);
    var k :| 0 <= k < |s.items| && s.items[k] == root;
    assert t.items[k] in t.items && t.items[k].status == Invalid && t.items[k].itemId == root.itemId;
    hide Invalidated;
  }

  function WithItem(s: State, x: Item): Result<State, StateError> {
    if x.itemId in ItemIds(s) then Err(DuplicateItem)
    else if x.tenantId != s.tenantId then Err(WrongTenant)
    else Ok(s.(items := s.items + [x], events := s.events + [ItemAppended(x.itemId)]))
  }

  ghost predicate TaintedDependency(s: State, x: Item) { exists d :: d in x.dependsOn && Tainted(s, d) }

  /** A new item is not invalidated by what it depends on: soundness survives it exactly when a
      current item is not tainted from the start, and an invalid or tainted one is not already
      awaited by something current. */
  lemma ItemKeepsSoundIff(s: State, x: Item)
    requires Sound(s) && WithItem(s, x).Ok?
    ensures Sound(WithItem(s, x).value) <==>
              && (x.status == Current ==> !Tainted(s, x.itemId) && !TaintedDependency(s, x))
              && (x.status == Invalid || TaintedDependency(s, x) ==> !ReachesCurrent(s, x.itemId))
  {
    var t := WithItem(s, x).value;
    assert Links(t) == Links(s) + LinksInto(x.dependsOn, x.itemId);
    ReachesSelf(Links(s), x.itemId);
    forall id ensures Tainted(t, id) <==>
        || Tainted(s, id) || (TaintedDependency(s, x) && Reaches(Links(s), x.itemId, id))
        || (x.status == Invalid && Reaches(Links(s), x.itemId, id))
    {
      TaintAfterItem(s, x, t, id);
    }
    hide Tainted;
    hide TaintedDependency;
    assert forall j :: j in t.items <==> j in s.items || j == x;
    assert x in t.items;
  }

  lemma TaintAfterItem(s: State, x: Item, t: State, id: string)
    requires t.items == s.items + [x] && Links(t) == Links(s) + LinksInto(x.dependsOn, x.itemId)
    ensures Tainted(t, id) <==>
              || Tainted(s, id) || (TaintedDependency(s, x) && Reaches(Links(s), x.itemId, id))
              || (x.status == Invalid && Reaches(Links(s), x.itemId, id))
  {
    forall i ensures Reaches(Links(t), i, id) <==>
        Reaches(Links(s), i, id) || (ReachesAny(Links(s), i, x.dependsOn) && Reaches(Links(s), x.itemId, id))
    {
      NewLinksInto(Links(s), x.dependsOn, x.itemId, i, id);
    }
    hide Links;
    hide Reaches;
    assert forall i :: i in t.items <==> i in s.items || i == x;
    if Tainted(t, id) {
      var i :| i in t.items && i.status == Invalid && Reaches(Links(t), i.itemId, id);
      if i in s.items && !Reaches(Links(s), i.itemId, id) {
        var d :| d in x.dependsOn && Reaches(Links(s), i.itemId, d);
        assert Tainted(s, d);
      }
    }
    if Tainted(s, id) {
      var i :| i in s.items && i.status == Invalid && Reaches(Links(s), i.itemId, id);
      assert i in t.items;
    }
    if TaintedDependency(s, x) && Reaches(Links(s), x.itemId, id) {
      var d :| d in x.dependsOn && Tainted(s, d);
      var i :| i in s.items && i.status == Invalid && Reaches(Links(s), i.itemId, d);
      assert i in t.items && ReachesAny(Links(s), i.itemId, x.dependsOn);
    }
    if x.status == Invalid && Reaches(Links(s), x.itemId, id) { assert x in t.items; }
  }

  function WithRelation(s: State, r: Relation): Result<State, StateError> {
    if r.sourceId !in ItemIds(s) || r.targetId !in ItemIds(s) then Err(UnknownEndpoint)
    else if exists q | q in s.relations :: q.relationId == r.relationId then Err(DuplicateRelation)
    else Ok(s.(relations := s.relations + [r], events := s.events + [RelationAppended(r.relationId)]))
  }

  /** A new relation does not propagate old invalidations: soundness survives it exactly when
      it is not a dependency of something that reaches a current item on something tainted. */
  lemma RelationKeepsSoundIff(s: State, r: Relation)
    requires Sound(s) && WithRelation(s, r).Ok?
    ensures Sound(WithRelation(s, r).value) <==>
              !(r.relationType == DependsOn && Tainted(s, r.targetId) && ReachesCurrent(s, r.sourceId))
  {
    var t := WithRelation(s, r).value;
    if r.relationType == DependsOn {
      assert Links(t) == Links(s) + {(r.targetId, r.sourceId)};
      if Tainted(s, r.targetId) && ReachesCurrent(s, r.sourceId) {
        var i :| i in s.items && i.status == Invalid && Reaches(Links(s), i.itemId, r.targetId);
        var j :| j in s.items && j.status == Current && Reaches(Links(s), r.sourceId, j.itemId);
        NewLink(Links(s), r.targetId, r.sourceId, i.itemId, j.itemId);
        assert Tainted(t, j.itemId);
      } else {
        forall j | j in t.items && j.status == Current ensures !Tainted(t, j.itemId) {
          if i :| i in t.items && i.status == Invalid && Reaches(Links(t), i.itemId, j.itemId) {
            NewLink(Links(s), r.targetId, r.sourceId, i.itemId, j.itemId);
          }
        }
      }
    } else {
      assert Links(t) == Links(s);
      assert forall id :: Tainted(t, id) <==> Tainted(s, id);
    }
  }

  function WithMaterializedView(s: State, viewId: string, dependencies: seq<string>): Result<State, StateError> {
    if exists d | d in dependencies :: d !in ItemIds(s) then Err(UnknownDependency)
    else Ok(s.(views := s.views[viewId := dependencies]))
  }

  /** Every view that touches an item marked from `root` is listed after the invalidation, and
      listed views stay listed. */
  lemma ViewsFollowItems(s: State, root: string, reason: string, v: string)
    ensures var t := Invalidated(s, root, reason);
            v in t.invalidatedViews <==>
              v in s.invalidatedViews || (v in s.views && exists d | d in s.views[v] :: Reaches(Links(s), root, d))
  {
    var a := Affected(s, root);
    if v in s.views {
      forall d | d in s.views[v] ensures d in a <==> Reaches(Links(s), root, d) { AffectedIsReachable(s, root, d); }
    }
  }

  ghost function InvalidIds(s: State): set<string> { set i | i in s.items && i.status == Invalid :: i.itemId }

  /** Every view over an invalid item is listed as invalidated. */
  ghost predicate ViewsAgree(s: State) {
    forall v | v in s.views && Touches(s.views[v], InvalidIds(s)) :: v in s.invalidatedViews
  }

  lemma InvalidationKeepsViewsAgree(s: State, root: string, reason: string)
    requires ViewsAgree(s)
    ensures ViewsAgree(Invalidated(s, root, reason))
  {
    var t, a := Invalidated(s, root, reason), Affected(s, root);
    forall id | id in InvalidIds(t) ensures id in InvalidIds(s) || id in a {
      var i :| i in t.items && i.status == Invalid && i.itemId == id;
      var k :| 0 <= k < |t.items| && t.items[k] == i;
      assert i == MarkItem(s.items[k], a);
    }
    forall v | v in t.views && Touches(t.views[v], InvalidIds(t)) ensures v in t.invalidatedViews {
      var d :| d in t.views[v] && d in InvalidIds(t);
      ViewsFollowItems(s, root, reason, v);
      AffectedIsReachable(s, root, d);
    }
  }

  /** A view registered over an invalid item is not listed, so the agreement survives exactly
      when the view avoids invalid items or its name is listed already. */
  lemma NewViewAgreesIff(s: State, viewId: string, dependencies: seq<string>)
    requires ViewsAgree(s) && WithMaterializedView(s, viewId, dependencies).Ok?
    ensures ViewsAgree(WithMaterializedView(s, viewId, dependencies).value) <==>
              (Touches(dependencies, InvalidIds(s)) ==> viewId in s.invalidatedViews)
  {
    var t := WithMaterializedView(s, viewId, dependencies).value;
    assert InvalidIds(t) == InvalidIds(s);
    assert t.views[viewId] == dependencies && viewId in t.views;
    hide Touches;
  }

  // ----- Action lifecycles -----

  const STAGES := 10

  /** The normal lifecycle, stage by stage. */
  function Stage(i: nat): ActionState
    requires i < STAGES
  {
    match i
    case 0 => Proposed
    case 1 => Validated
    case 2 => PolicyChecked
    case 3 => Authorized
    case 4 => Prepared
    case 5 => Executing
    case 6 => Observed
    case 7 => Verified
    case 8 => Assessed
    case _ => Closed
  }

  predicate IsAlternativeTerminal(a: ActionState) {
    a in {Rejected, Cancelled, TimedOut, Failed, CompensationRequired, Quarantined}
  }

  function SequenceIndex(a: ActionState): nat
    requires !IsAlternativeTerminal(a)
    ensures SequenceIndex(a) < STAGES && Stage(SequenceIndex(a)) == a
  {
    match a
    case Proposed => 0
    case Validated => 1
    case PolicyChecked => 2
    case Authorized => 3
    case Prepared => 4
    case Executing => 5
    case Observed => 6
    case Verified => 7
    case Assessed => 8
    case Closed => 9
  }

  /** `validate_action_transition` raises nothing. */
  predicate TransitionAllowed(current: Option<ActionState>, next: ActionState) {
    if current == Some(next) then true
    else if current.None? then next == Proposed
    else if IsAlternativeTerminal(current.value) || current.value == Closed then false
    else IsAlternativeTerminal(next) || next == Stage(SequenceIndex(current.value) + 1)
  }

  function CurrentAction(s: State, actionId: string): Option<ActionState> {
    if actionId in s.actionStates then Some(s.actionStates[actionId]) else None
  }

  function WithActionTransition(s: State, actionId: string, next: ActionState): Result<State, StateError> {
    var previous := CurrentAction(s, actionId);
    if actionId == "" then Err(EmptyActionId)
    else if previous == Some(next) then Ok(s)
    else if !TransitionAllowed(previous, next) then Err(IllegalTransition)
    else Ok(s.(actionStates := s.actionStates[actionId := next],
               events := s.events + [ActionTransition(actionId, previous, next)]))
  }

  /** The states an action went through, read off the event log. */
  function Trail(events: seq<Event>, actionId: string): seq<ActionState> {
    if events == [] then []
    else
      var last := events[|events| - 1];
      Trail(events[..|events| - 1], actionId)
      + (if last.ActionTransition? && last.actionId == actionId then [last.to] else [])
  }

  ghost predicate StagesInOrder(t: seq<ActionState>, n: nat) {
    n <= |t| && n <= STAGES && forall i: nat | i < n :: t[i] == Stage(i)
  }

  /** The normal sequence up to some stage, possibly cut short by one alternative terminal. */
  ghost predicate LawfulTrail(t: seq<ActionState>) {
    || StagesInOrder(t, |t|)
    || (2 <= |t| <= STAGES && StagesInOrder(t, |t| - 1) && IsAlternativeTerminal(t[|t| - 1]))
  }

  function LastOf(t: seq<ActionState>): Option<ActionState> {
    if t == [] then None else Some(t[|t| - 1])
  }

  ghost predicate Explained(s: State, actionId: string) {
    LawfulTrail(Trail(s.events, actionId)) && CurrentAction(s, actionId) == LastOf(Trail(s.events, actionId))
  }

  /** The recorded action states are what the event log replays to, along lawful trails. */
  ghost predicate LogExplainsActions(s: State) {
    forall id :: Explained(s, id)
  }

  lemma TrailAppend(events: seq<Event>, e: Event, id: string)
    ensures Trail(events + [e], id)
            == Trail(events, id) + (if e.ActionTransition? && e.actionId == id then [e.to] else [])
  {
    assert (events + [e])[..|events|] == events;
  }

  lemma LawfulStep(t: seq<ActionState>, next: ActionState)
    requires LawfulTrail(t)
    requires TransitionAllowed(LastOf(t), next) && LastOf(t) != Some(next)
    ensures LawfulTrail(t + [next])
  {
    if t != [] {
      StageOfIndex(|t| - 1, t);
    }
  }

  lemma StageOfIndex(i: nat, t: seq<ActionState>)
    requires i < |t| && LawfulTrail(t) && i == |t| - 1
    ensures !IsAlternativeTerminal(t[i]) ==> i < STAGES && StagesInOrder(t, |t|) && SequenceIndex(t[i]) == i
  {
    assert StagesInOrder(t, |t|) ==> t[i] == Stage(i);
  }

  /** Every accepted action transition keeps the log and the states in agreement. */
  lemma ActionTransitionKeepsLog(s: State, actionId: string, next: ActionState)
    requires LogExplainsActions(s)
    requires WithActionTransition(s, actionId, next).Ok?
    ensures LogExplainsActions(WithActionTransition(s, actionId, next).value)
  {
    var t := WithActionTransition(s, actionId, next).value;
    hide Explained;
    forall id ensures Explained(t, id) { TransitionExplained(s, actionId, next, id); }
  }

  lemma TransitionExplained(s: State, actionId: string, next: ActionState, id: string)
    requires Explained(s, id) && WithActionTransition(s, actionId, next).Ok?
    ensures Explained(WithActionTransition(s, actionId, next).value, id)
  {
    var t := WithActionTransition(s, actionId, next).value;
    if t != s {
      hide LawfulTrail;
      hide Trail;
      hide TransitionAllowed;
      TrailAppend(s.events, ActionTransition(actionId, CurrentAction(s, actionId), next), id);
      if id == actionId { LawfulStep(Trail(s.events, id), next); }
    }
  }

  lemma OtherEventsKeepLog(s: State, t: State, e: Event)
    requires LogExplainsActions(s) && !e.ActionTransition?
    requires t.actionStates == s.actionStates && t.events == s.events + [e]
    ensures LogExplainsActions(t)
  {
    forall id ensures Explained(t, id) {
      assert Explained(s, id);
      TrailAppend(s.events, e, id);
    }
  }

  // ----- Runs -----

  datatype Operation =
    | AddItem(item: Item)
    | AddRelation(relation: Relation)
    | RegisterView(viewId: string, dependencies: seq<string>)
    | Invalidate(root: string, reason: string)
    | Act(actionId: string, next: ActionState)

  /** An operation that raises leaves the state as it was. */
  ghost function Step(s: State, op: Operation): State {
    match op
    case AddItem(x) => WithItem(s, x).UnwrapOr(s)
    case AddRelation(r) => WithRelation(s, r).UnwrapOr(s)
    case RegisterView(v, dependencies) => WithMaterializedView(s, v, dependencies).UnwrapOr(s)
    case Invalidate(root, reason) => if root in ItemIds(s) then Invalidated(s, root, reason) else s
    case Act(actionId, next) => WithActionTransition(s, actionId, next).UnwrapOr(s)
  }

  ghost function Run(start: State, ops: seq<Operation>): State {
    if ops == [] then start else Step(Run(start, ops[..|ops| - 1]), ops[|ops| - 1])
  }

  lemma StepKeepsLog(s: State, op: Operation)
    requires LogExplainsActions(s)
    ensures LogExplainsActions(Step(s, op))
  {
    hide LogExplainsActions;
    hide Links;
    match op
    case AddItem(x) => if WithItem(s, x).Ok? { OtherEventsKeepLog(s, Step(s, op), ItemAppended(x.itemId)); }
    case AddRelation(r) =>
      if WithRelation(s, r).Ok? { OtherEventsKeepLog(s, Step(s, op), RelationAppended(r.relationId)); }
    case RegisterView(v, dependencies) =>
      SameLog(s, Step(s, op));
    case Invalidate(root, reason) =>
      if root in ItemIds(s) {
        OtherEventsKeepLog(s, Step(s, op), DependencyInvalidation(root, Text.SortedStrings(Affected(s, root)), reason));
      }
    case Act(actionId, next) =>
      if WithActionTransition(s, actionId, next).Ok? { ActionTransitionKeepsLog(s, actionId, next); }
  }

  lemma SameLog(s: State, t: State)
    requires LogExplainsActions(s) && t.actionStates == s.actionStates && t.events == s.events
    ensures LogExplainsActions(t)
  {
    forall id ensures Explained(t, id) { assert Explained(s, id); }
  }

  /** In every run that starts without events, the log explains every action state. */
  lemma {:induction false} RunKeepsLog(start: State, ops: seq<Operation>)
    requires start.events == [] && start.actionStates == map[]
    ensures LogExplainsActions(Run(start, ops))
  {
    if ops == [] {
      forall id ensures Explained(start, id) { assert Trail(start.events, id) == []; }
    } else {
      RunKeepsLog(start, ops[..|ops| - 1]);
      StepKeepsLog(Run(start, ops[..|ops| - 1]), ops[|ops| - 1]);
    }
  }

  /** In every such run, a closed action went through every stage, in order. */
  lemma ClosedMeansFullTrail(start: State, ops: seq<Operation>, actionId: string)
    requires start.events == [] && start.actionStates == map[]
    requires CurrentAction(Run(start, ops), actionId) == Some(Closed)
    ensures var trail := Trail(Run(start, ops).events, actionId); |trail| == STAGES && StagesInOrder(trail, STAGES)
  {
    RunKeepsLog(start, ops);
    var s := Run(start, ops);
    var t := Trail(s.events, actionId);
    hide Trail;
    hide Run;
    assert Explained(s, actionId);
    StageOfIndex(|t| - 1, t);
  }

  /** The operation adds no item and no relation that would leave a current item depending on an
      invalid one. */
  ghost predicate AddsSoundly(s: State, op: Operation) {
    match op
    case AddItem(x) =>
      && (x.status == Current ==> !Tainted(s, x.itemId) && !TaintedDependency(s, x))
      && (x.status == Invalid || TaintedDependency(s, x) ==> !ReachesCurrent(s, x.itemId))
    case AddRelation(r) => !(r.relationType == DependsOn && Tainted(s, r.targetId) && ReachesCurrent(s, r.sourceId))
    case _ => true
  }

  lemma StepKeepsSoundIff(s: State, op: Operation)
    requires Sound(s)
    ensures Sound(Step(s, op)) <==> (Step(s, op) == s || AddsSoundly(s, op))
  {
    match op
    case AddItem(x) => if WithItem(s, x).Ok? { ItemKeepsSoundIff(s, x); }
    case AddRelation(r) => if WithRelation(s, r).Ok? { RelationKeepsSoundIff(s, r); }
    case Invalidate(root, reason) => if root in ItemIds(s) { InvalidationKeepsSound(s, root, reason); }
    case _ => SameDependencies(s, Step(s, op));
  }

  lemma SameDependencies(s: State, t: State)
    requires Sound(s) && t.items == s.items && t.relations == s.relations
    ensures Sound(t)
  {
    assert Links(t) == Links(s);
    assert forall id :: Tainted(t, id) <==> Tainted(s, id);
  }

  /** In every run whose additions are sound, no current item depends on an invalid one. */
  lemma {:induction false} RunIsSound(start: State, ops: seq<Operation>)
    requires Sound(start)
    requires forall i | 0 <= i < |ops| :: AddsSoundly(Run(start, ops[..i]), ops[i])
    ensures Sound(Run(start, ops))
  {
    if ops != [] {
      var front := ops[..|ops| - 1];
      assert forall i | 0 <= i < |front| :: ops[..i] == front[..i];
      RunIsSound(start, front);
      StepKeepsSoundIff(Run(start, front), ops[|ops| - 1]);
      assert AddsSoundly(Run(start, ops[..|ops| - 1]), ops[|ops| - 1]);
    }
  }
}
