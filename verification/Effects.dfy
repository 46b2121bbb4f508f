/** The ledger of side effects of a branch, and the reconciler that compensates the committed
    reversible ones. */
module Effects {
  import opened Wrappers
  import Ir
  import Sorting
  import Text

  datatype Entry = Entry(
    effectId: string, effectType: Ir.EffectType, target: string, reversible: bool, committed: bool,
    compensatedBy: Option<string>, metadata: map<string, string>)
  {
    predicate Open() { committed && reversible && compensatedBy.None? }
  }

  datatype LedgerError = ConflictingEffect | UnknownEffect | EmptyIdentifier | LeftUncompensated

  type Entries = map<string, Entry>

  function CleanupId(id: string): string { "cleanup:" + id }

  function CleanupRecord(id: string, cleanupId: string, target: string): Entry {
    Entry(cleanupId, Ir.Cleanup, target, false, true, None, map["compensates" := id])
  }

  function Compensated(entries: Entries, id: string, cleanupId: string): Entries {
    if id !in entries then entries
    else
      entries[id := entries[id].(compensatedBy := Some(cleanupId))]
             [cleanupId := CleanupRecord(id, cleanupId, entries[id].target)]
  }

  /** The effect names its cleanup; the cleanup is a committed, irreversible effect on the same
      target that names what it compensates. */
  ghost predicate CleansUp(before: Entries, after: Entries, id: string, cleanupId: string)
    requires id in before
  {
    && (forall k :: k in after <==> k in before || k == cleanupId)
    && (id != cleanupId ==> id in after && after[id] == before[id].(compensatedBy := Some(cleanupId)))
    && (cleanupId in after && var c := after[cleanupId];
        && c.effectId == cleanupId && c.effectType == Ir.Cleanup && c.target == before[id].target
        && !c.reversible && c.committed && c.compensatedBy == None
        && c.metadata.Keys == {"compensates"} && c.metadata["compensates"] == id)
    && (forall k | k in before && k != id && k != cleanupId :: k in after && after[k] == before[k])
  }

  function OpenIds(ids: seq<string>, entries: Entries): (r: seq<string>)
    ensures forall id :: id in r <==> id in ids && id in entries && entries[id].Open()
  {
    if ids == [] then []
    else (if ids[0] in entries && entries[ids[0]].Open() then [ids[0]] else []) + OpenIds(ids[1..], entries)
  }

  /** Compensates the effects one after another, each with its own cleanup record. */
  function CompensateAll(entries: Entries, open: seq<string>): Entries {
    if open == [] then entries
    else
      var id := open[|open| - 1];
      Compensated(CompensateAll(entries, open[..|open| - 1]), id, CleanupId(id))
  }

  // ----- The ledger -----

  function EntriesOf(entries: Entries, keys: seq<string>): (r: seq<Entry>)
    requires forall k | k in keys :: k in entries && entries[k].effectId == k
    ensures |r| == |keys| && forall i | 0 <= i < |keys| :: r[i] == entries[keys[i]] && r[i].effectId == keys[i]
    ensures forall e: Entry :: e in r <==> e.effectId in keys && entries[e.effectId] == e
  {
    var r := seq(|keys|, i requires 0 <= i < |keys| => entries[keys[i]]);
    assert forall i | 0 <= i < |keys| :: r[i] == entries[keys[i]] && keys[i] in keys;
    r
  }

  class EffectLedger {
    /** The identifiers in insertion order. */
    var ids: seq<string>
    var entries: Entries

    ghost predicate Valid()
      reads this
    {
      && (forall id :: id in ids <==> id in entries)
      && Sorting.NoDuplicates(ids)
      && (forall id | id in entries :: entries[id].effectId == id)
    }

    constructor ()
      ensures Valid() && entries == map[]
    {
      ids, entries := [], map[];
    }

    method Put(id: string, entry: Entry)
      requires Valid() && entry.effectId == id
      modifies this
      ensures Valid() && entries == old(entries)[id := entry]
    {
      if id !in entries { ids := ids + [id]; }
      entries := entries[id := entry];
    }

    method Add(entry: Entry) returns (error: Option<LedgerError>)
      requires Valid()
      modifies this
      ensures Valid()
      ensures error.Some? <==> entry.effectId in old(entries) && old(entries)[entry.effectId] != entry
      ensures error.Some? ==> entries == old(entries) && error == Some(ConflictingEffect)
      ensures error.None? ==> entries == old(entries)[entry.effectId := entry]
    {
      if entry.effectId in entries && entries[entry.effectId] != entry { return Some(ConflictingEffect); }
      Put(entry.effectId, entry);
      error := None;
    }

    method Compensate(effectId: string, cleanupId: string) returns (error: Option<LedgerError>)
      requires Valid()
      modifies this
      ensures Valid()
      ensures error.None? <==> effectId in old(entries) && cleanupId != ""
      ensures error.Some? ==> error.value == if effectId in old(entries) then EmptyIdentifier else UnknownEffect
      ensures error.None? ==> CleansUp(old(entries), entries, effectId, cleanupId)
      ensures entries == if error.None? then Compensated(old(entries), effectId, cleanupId) else old(entries)
    {
      if effectId !in entries { return Some(UnknownEffect); }
      if cleanupId == "" { return Some(EmptyIdentifier); }
      var entry := entries[effectId];
      Put(effectId, entry.(compensatedBy := Some(cleanupId)));
      Put(cleanupId, CleanupRecord(effectId, cleanupId, entry.target));
      error := None;
    }

    function Uncompensated(): seq<string>
      reads this
    {
      OpenIds(ids, entries)
    }

    /** Every entry, once, in the order of the identifiers. */
    function All(): (r: seq<Entry>)
      requires Valid()
      reads this
      ensures forall e: Entry :: e in r <==> e.effectId in entries && entries[e.effectId] == e
      ensures forall i, j | 0 <= i < j < |r| ::
                r[i].effectId != r[j].effectId && Text.StringLeq(r[i].effectId, r[j].effectId)
    {
      var keys := Text.SortedStrings(entries.Keys);
      Text.SortedStringsSorted(entries.Keys);
      EntriesOf(entries, keys)
    }

    /** Never fails: whatever the ledger holds, no effect is left open. */
    method Reconcile() returns (r: Result<seq<Entry>, LedgerError>)
      requires Valid()
      modifies this
      ensures Valid()
      ensures entries == CompensateAll(old(entries), old(Uncompensated()))
      ensures Uncompensated() == [] && r == Ok(All())
      ensures forall e | e in All() :: !e.Open()
    {
      hide CleansUp;
      var open := Uncompensated();
      ghost var before := entries;
      for i := 0 to |open|
        invariant Valid()
        invariant entries == CompensateAll(before, open[..i])
        invariant forall id | id in before :: id in entries
      {
        assert open[..i + 1][..i] == open[..i];
        assert open[i] in open;
        hide Compensated;
        var error := Compensate(open[i], CleanupId(open[i]));
        KeysGrow(before, open[..i + 1]);
      }
      assert open[..|open|] == open;
      NothingLeftOpen(before, open);
      var remaining := Uncompensated();
      NoneOpen(ids, entries);
      r := if remaining == [] then Ok(All()) else Err(LeftUncompensated);
    }
  }

  // ----- What reconciliation does to a ledger -----

  ghost predicate AllOpen(entries: Entries, open: seq<string>) {
    forall id | id in open :: id in entries && entries[id].Open()
  }

  lemma {:induction false} KeysGrow(entries: Entries, open: seq<string>)
    ensures forall k | k in entries :: k in CompensateAll(entries, open)
  {
    if open != [] { KeysGrow(entries, open[..|open| - 1]); }
  }

  /** What is open afterwards was open before and was not on the list. */
  lemma {:induction false} NothingLeftOpen(entries: Entries, open: seq<string>)
    requires forall id | id in open :: id in entries
    ensures forall k | k in CompensateAll(entries, open) && CompensateAll(entries, open)[k].Open() ::
              k in entries && entries[k].Open() && k !in open
  {
    if open != [] {
      var front, id := open[..|open| - 1], open[|open| - 1];
      NothingLeftOpen(entries, front);
      KeysGrow(entries, front);
      assert open == front + [id];
      assert id in CompensateAll(entries, front);
    }
  }

  lemma {:induction false} NoneOpen(ids: seq<string>, entries: Entries)
    requires forall k | k in entries :: !entries[k].Open()
    ensures OpenIds(ids, entries) == []
  {
    if ids != [] { NoneOpen(ids[1..], entries); }
  }

  /** A second reconciliation finds nothing to do. */
  lemma ReconcileTwice(entries: Entries, ids: seq<string>, laterIds: seq<string>)
    requires forall id :: id in ids <==> id in entries
    ensures var after := CompensateAll(entries, OpenIds(ids, entries));
            OpenIds(laterIds, after) == [] && CompensateAll(after, OpenIds(laterIds, after)) == after
  {
    var open := OpenIds(ids, entries);
    var after := CompensateAll(entries, open);
    NothingLeftOpen(entries, open);
    NoneOpen(laterIds, after);
  }

  predicate IsCleanupOf(k: string, open: seq<string>) { exists id | id in open :: k == CleanupId(id) }

  lemma CleanupIdInjective(a: string, b: string)
    ensures CleanupId(a) == CleanupId(b) ==> a == b
    ensures CleanupId(a) != a
  {
    assert CleanupId(a)[8..] == a && CleanupId(b)[8..] == b;
    assert |CleanupId(a)| == |a| + 8;
  }

  /** No open effect carries the identifier of another's cleanup. */
  ghost predicate NoNesting(open: seq<string>) { forall id | id in open :: !IsCleanupOf(id, open) }

  /** What key k holds after the effects of the list are compensated. */
  ghost predicate Settled(entries: Entries, open: seq<string>, after: Entries, k: string) {
    && (k in after <==> k in entries || IsCleanupOf(k, open))
    && (forall id | id in open && k == CleanupId(id) ::
          k in after && id in entries && after[k] == CleanupRecord(id, k, entries[id].target))
    && (k in entries && k in open ==> k in after && after[k] == entries[k].(compensatedBy := Some(CleanupId(k))))
    && (k in entries && k !in open && !IsCleanupOf(k, open) ==> k in after && after[k] == entries[k])
  }

  lemma {:induction false} AllSettled(entries: Entries, open: seq<string>, k: string)
    requires (forall id | id in open :: id in entries) && NoNesting(open) && Sorting.NoDuplicates(open)
    ensures Settled(entries, open, CompensateAll(entries, open), k)
  {
    if open != [] {
      var front, id := open[..|open| - 1], open[|open| - 1];
      assert open == front + [id];
      assert NoNesting(front) by {
        forall i | i in front ensures !IsCleanupOf(i, front) { assert !IsCleanupOf(i, open); }
      }
      var before := CompensateAll(entries, front);
      AllSettled(entries, front, k);
      AllSettled(entries, front, id);
      assert !IsCleanupOf(id, open);
      assert !IsCleanupOf(id, front);
      assert before[id] == entries[id];
      SettleOne(entries, front, before, id, k);
    }
  }

  lemma SettleOne(entries: Entries, front: seq<string>, before: Entries, id: string, k: string)
    requires id in entries && id in before && before[id] == entries[id] && id !in front
    requires forall i | i in front :: i in entries
    requires Settled(entries, front, before, k)
    requires !IsCleanupOf(id, front + [id])
    requires NoNesting(front + [id])
    ensures Settled(entries, front + [id], Compensated(before, id, CleanupId(id)), k)
  {
    forall i ensures CleanupId(i) == CleanupId(id) ==> i == id { CleanupIdInjective(i, id); }
    hide CleanupId;
    var open := front + [id];
    assert IsCleanupOf(k, open) <==> IsCleanupOf(k, front) || k == CleanupId(id) by {
      assert forall i :: i in open <==> i in front || i == id;
    }
    assert k == id ==> !IsCleanupOf(k, open);
  }

  lemma {:induction false} OpenIdsUnique(ids: seq<string>, entries: Entries)
    requires Sorting.NoDuplicates(ids)
    ensures Sorting.NoDuplicates(OpenIds(ids, entries))
  {
    if ids != [] {
      Sorting.NoDuplicatesTail(ids);
      OpenIdsUnique(ids[1..], entries);
    }
  }

  /** Each open effect is compensated, once, and every other entry is as it was. */
  ghost predicate NothingLost(entries: Entries, open: seq<string>, after: Entries) {
    forall k | k in entries ::
      k in after && after[k] == if k in open then entries[k].(compensatedBy := Some(CleanupId(k))) else entries[k]
  }

  /** No identifier a cleanup record needs is taken, except by that very record. */
  ghost predicate NoCollision(entries: Entries, open: seq<string>) {
    forall id | id in open && id in entries && CleanupId(id) in entries ::
      entries[CleanupId(id)] == CleanupRecord(id, CleanupId(id), entries[id].target)
  }

  lemma NoCollisionMeansNoNesting(entries: Entries, open: seq<string>)
    requires AllOpen(entries, open) && NoCollision(entries, open)
    ensures NoNesting(open)
  {
    forall k | k in open ensures !IsCleanupOf(k, open) { TakenIsIrreversible(entries, open, k); }
  }

  lemma TakenIsIrreversible(entries: Entries, open: seq<string>, k: string)
    requires AllOpen(entries, open) && NoCollision(entries, open)
    ensures k in entries && IsCleanupOf(k, open) ==> !entries[k].reversible
  {
    hide CleanupId;
    if k in entries && IsCleanupOf(k, open) {
      var id :| id in open && k == CleanupId(id);
    }
  }

  /** Once b is compensated, what is stored under its cleanup identifier is irreversible. */
  lemma {:induction false} CleanupIrreversible(entries: Entries, open: seq<string>, b: string)
    requires (forall id | id in open :: id in entries) && b in open
    ensures CleanupId(b) in CompensateAll(entries, open) && !CompensateAll(entries, open)[CleanupId(b)].reversible
  {
    var front, id := open[..|open| - 1], open[|open| - 1];
    assert open == front + [id];
    KeysGrow(entries, front);
    assert id in CompensateAll(entries, front);
    if id != b { CleanupIrreversible(entries, front, b); }
    hide CleanupId;
  }

  /** Reconciliation loses no entry exactly when no cleanup identifier collides. */
  lemma NothingLostIff(entries: Entries, ids: seq<string>)
    requires (forall id :: id in ids <==> id in entries) && Sorting.NoDuplicates(ids)
    ensures var open := OpenIds(ids, entries);
            NothingLost(entries, open, CompensateAll(entries, open)) <==> NoCollision(entries, open)
  {
    var open := OpenIds(ids, entries);
    var after := CompensateAll(entries, open);
    OpenIdsUnique(ids, entries);
    hide CompensateAll;
    if NoNesting(open) {
      forall k ensures Settled(entries, open, after, k) { AllSettled(entries, open, k); }
      LostIffCollision(entries, open, after);
    } else {
      var k :| k in open && IsCleanupOf(k, open);
      var b :| b in open && k == CleanupId(b);
      CleanupIrreversible(entries, open, b);
      assert entries[k].reversible && !after[k].reversible;
      if NoCollision(entries, open) { NoCollisionMeansNoNesting(entries, open); }
    }
  }

  lemma LostIffCollision(entries: Entries, open: seq<string>, after: Entries)
    requires AllOpen(entries, open) && NoNesting(open)
    requires forall k :: Settled(entries, open, after, k)
    ensures NothingLost(entries, open, after) <==> NoCollision(entries, open)
  {
    hide CleanupId;
    if NothingLost(entries, open, after) {
      forall id | id in open && CleanupId(id) in entries
        ensures entries[CleanupId(id)] == CleanupRecord(id, CleanupId(id), entries[id].target)
      {
        var k := CleanupId(id);
        assert Settled(entries, open, after, k);
        assert IsCleanupOf(k, open);
        assert k !in open;
      }
    }
    if NoCollision(entries, open) {
      forall k | k in entries
        ensures k in after && after[k] == if k in open then entries[k].(compensatedBy := Some(CleanupId(k)))
            else entries[k]
      {
        assert Settled(entries, open, after, k);
        if IsCleanupOf(k, open) { var id :| id in open && k == CleanupId(id); }
      }
    }
  }

  /** Without collisions there is one new entry for each open effect, its cleanup record. */
  lemma OneCleanupEach(entries: Entries, ids: seq<string>)
    requires (forall id :: id in ids <==> id in entries) && Sorting.NoDuplicates(ids)
    requires NoCollision(entries, OpenIds(ids, entries))
    ensures var open := OpenIds(ids, entries);
            var after := CompensateAll(entries, open);
            && (forall k :: k in after <==> k in entries || IsCleanupOf(k, open))
            && (forall id | id in open :: CleanupId(id) in after
                  && after[CleanupId(id)] == CleanupRecord(id, CleanupId(id), entries[id].target))
  {
    var open := OpenIds(ids, entries);
    var after := CompensateAll(entries, open);
    OpenIdsUnique(ids, entries);
    NoCollisionMeansNoNesting(entries, open);
    forall k ensures Settled(entries, open, after, k) { AllSettled(entries, open, k); }
    hide *;
    SettledEverywhere(entries, open, after);
  }

  lemma SettledEverywhere(entries: Entries, open: seq<string>, after: Entries)
    requires forall id | id in open :: id in entries
    requires forall k :: Settled(entries, open, after, k)
    ensures forall k :: k in after <==> k in entries || IsCleanupOf(k, open)
    ensures forall id | id in open :: CleanupId(id) in after
              && after[CleanupId(id)] == CleanupRecord(id, CleanupId(id), entries[id].target)
  {
    forall id | id in open
      ensures CleanupId(id) in after && after[CleanupId(id)] == CleanupRecord(id, CleanupId(id), entries[id].target)
    {
      assert Settled(entries, open, after, CleanupId(id));
    }
    forall k ensures k in after <==> k in entries || IsCleanupOf(k, open) { assert Settled(entries, open, after, k); }
  }
}
