/** The versioned knowledge base, and the bisection that looks for the earliest version that
    violates an invariant. */
module KnowledgeBase {
  import opened Wrappers

  datatype Snapshot<V> = Snapshot(modules: map<string, V>, plans: map<string, V>, costs: map<string, real>)

  datatype MissingVersion = MissingVersion(version: int)

  class KnowledgeBase<V> {
    var kbVersion: int
    var modules: map<string, V>
    var plans: map<string, V>
    var costs: map<string, real>
    var versions: map<int, Snapshot<V>>

    constructor ()
      ensures kbVersion == 0 && Contents() == Empty() && versions == map[]
    {
      kbVersion, modules, plans, costs, versions := 0, map[], map[], map[], map[];
    }

    function Contents(): Snapshot<V>
      reads this
    {
      Snapshot(modules, plans, costs)
    }

    ghost function State(): Store<V>
      reads this
    {
      Store(kbVersion, Contents(), versions)
    }

    method Commit() returns (version: int)
      modifies this
      ensures State() == Step(old(State()), CommitOp) && version == kbVersion
      ensures kbVersion == old(kbVersion) + 1 && Contents() == old(Contents())
      ensures forall v :: v in versions <==> v in old(versions) || v == version
      ensures forall v | v in versions :: versions[v] == if v == version then Contents() else old(versions)[v]
    {
      kbVersion := kbVersion + 1;
      versions := versions[kbVersion := Contents()];
      version := kbVersion;
    }

    method GetVersion(version: int) returns (r: Result<Snapshot<V>, MissingVersion>)
      ensures r == if version in versions then Ok(versions[version]) else Err(MissingVersion(version))
    {
      if version !in versions { return Err(MissingVersion(version)); }
      r := Ok(versions[version]);
    }

    method RollbackTo(target: int) returns (error: Option<MissingVersion>)
      modifies this
      ensures error == if target in old(versions) then None else Some(MissingVersion(target))
      ensures State() == Step(old(State()), RollbackOp(target))
      ensures versions == old(versions)
      ensures error.None? ==> kbVersion == target && Contents() == versions[target]
    {
      var snapshot := GetVersion(target);
      if snapshot.Err? { return Some(snapshot.error); }
      modules, plans, costs := snapshot.value.modules, snapshot.value.plans, snapshot.value.costs;
      kbVersion := target;
      error := None;
    }
  }

  // ----- Runs of the knowledge base -----

  function Empty<V>(): Snapshot<V> { Snapshot(map[], map[], map[]) }

  datatype Store<V> = Store(current: int, contents: Snapshot<V>, versions: map<int, Snapshot<V>>)

  datatype Operation<V> = EditOp(contents: Snapshot<V>) | CommitOp | RollbackOp(target: int)

  function Step<V>(s: Store<V>, op: Operation<V>): Store<V> {
    match op
    case EditOp(contents) => s.(contents := contents)
    case CommitOp => Store(s.current + 1, s.contents, s.versions[s.current + 1 := s.contents])
    case RollbackOp(target) => if target in s.versions then Store(target, s.versions[target], s.versions) else s
  }

  function Run<V>(ops: seq<Operation<V>>): Store<V> {
    if ops == [] then Store(0, Empty(), map[]) else Step(Run(ops[..|ops| - 1]), ops[|ops| - 1])
  }

  /** The stored versions are numbered without gaps from 1, and the current one is among them
      (or nothing is stored yet). */
  ghost predicate Contiguous<V>(s: Store<V>) {
    && (forall v :: v in s.versions <==> 1 <= v <= |s.versions.Keys|)
    && 0 <= s.current <= |s.versions.Keys|
    && (s.current == 0 ==> s.versions == map[])
  }

  lemma CommitIsContiguous<V>(s: Store<V>)
    requires Contiguous(s)
    ensures Contiguous(Step(s, CommitOp))
  {
    var next := s.current + 1;
    var after := Step(s, CommitOp);
    assert after.versions.Keys == s.versions.Keys + {next};
    var count, grown := |s.versions.Keys|, |after.versions.Keys|;
    assert grown == if next in s.versions then count else count + 1 by {
      if next in s.versions { assert after.versions.Keys == s.versions.Keys; }
    }
    assert next in s.versions <==> next <= count;
    forall v ensures v in after.versions <==> 1 <= v <= grown {
      assert v in after.versions <==> v in s.versions || v == next;
    }
  }

  lemma {:induction false} RunIsContiguous<V>(ops: seq<Operation<V>>)
    ensures Contiguous(Run(ops))
  {
    if ops != [] {
      var before, op := Run(ops[..|ops| - 1]), ops[|ops| - 1];
      RunIsContiguous(ops[..|ops| - 1]);
      assert Run(ops) == Step(before, op);
      hide Run;
      if op.CommitOp? { CommitIsContiguous(before); }
    }
  }

  ghost predicate Preserves<V>(before: map<int, Snapshot<V>>, after: map<int, Snapshot<V>>) {
    forall v | v in before :: v in after && after[v] == before[v]
  }

  /** A commit leaves every stored version as it was exactly when the current version is the
      newest one, or the version after the current one already holds the same contents. */
  lemma CommitPreservesIff<V>(ops: seq<Operation<V>>)
    ensures var s := Run(ops);
            Preserves(s.versions, Step(s, CommitOp).versions)
            <==> || s.current == |s.versions.Keys|
                 || (s.current + 1 in s.versions && s.versions[s.current + 1] == s.contents)
  {
    RunIsContiguous(ops);
    var s := Run(ops);
    if s.current + 1 in s.versions { assert s.versions[s.current + 1 := s.contents][s.current + 1] == s.contents; }
  }

  /** A concrete overwrite: commit, edit, commit, roll back to 1, edit, commit. */
  lemma CommitOverwritesAfterRollback<V>(a: Snapshot<V>, b: Snapshot<V>, c: Snapshot<V>)
    ensures var ops := [EditOp(a)] + [CommitOp] + [EditOp(b)] + [CommitOp] + [RollbackOp(1)] + [EditOp(c)];
            && Run(ops) == Store(1, c, map[1 := a, 2 := b])
            && Run(ops + [CommitOp]) == Store(2, c, map[1 := a, 2 := c])
  {
    var none: seq<Operation<V>> := [];
    assert none + [EditOp(a)] == [EditOp(a)];
    RunAppend(none, EditOp(a));
    var o1 := [EditOp(a)];
    RunAppend(o1, CommitOp);
    var o2 := o1 + [CommitOp];
    assert Run(o2) == Store(1, a, map[1 := a]);
    RunAppend(o2, EditOp(b));
    var o3 := o2 + [EditOp(b)];
    RunAppend(o3, CommitOp);
    var o4 := o3 + [CommitOp];
    assert Run(o4) == Store(2, b, map[1 := a, 2 := b]);
    RunAppend(o4, RollbackOp(1));
    var o5 := o4 + [RollbackOp(1)];
    RunAppend(o5, EditOp(c));
    RunAppend(o5 + [EditOp(c)], CommitOp);
  }

  lemma RunAppend<V>(ops: seq<Operation<V>>, op: Operation<V>)
    ensures Run(ops + [op]) == Step(Run(ops), op)
  {
    assert (ops + [op])[..|ops|] == ops;
  }

  // ----- Bisection -----

  /** The number of binary digits of n: floor(log2 n) + 1 when n is positive. */
  function Bits(n: nat): nat { if n == 0 then 0 else 1 + Bits(n / 2) }

  function Power2(k: nat): nat { if k == 0 then 1 else 2 * Power2(k - 1) }

  lemma {:induction false} BitsIsLog2(n: nat)
    requires n > 0
    ensures Bits(n) > 0 && Power2(Bits(n) - 1) <= n < Power2(Bits(n))
  {
    if n > 1 { BitsIsLog2(n / 2); }
  }

  lemma {:induction false} BitsMonotone(m: nat, n: nat)
    requires m <= n
    ensures Bits(m) <= Bits(n)
  {
    if m > 0 { BitsMonotone(m / 2, n / 2); }
  }

  lemma BitsOfHalf(n: nat, m: nat)
    requires n > 0 && m <= n / 2
    ensures Bits(m) + 1 <= Bits(n)
  {
    BitsMonotone(m, n / 2);
  }

  lemma OracleAnswer<V>(versions: map<int, Snapshot<V>>, isViolating: Snapshot<V> -> bool, v: int)
    requires v in versions
    ensures Violates(versions, isViolating, v) <==> isViolating(versions[v])
  {
  }

  function Target(violating: int): int { if violating > 1 then violating - 1 else 1 }

  ghost predicate Violates<V>(versions: map<int, Snapshot<V>>, isViolating: Snapshot<V> -> bool, v: int) {
    v in versions && isViolating(versions[v])
  }

  /** The position found is violating, and either it is the first or its predecessor is clean. */
  ghost predicate Boundary<V>(
    versions: map<int, Snapshot<V>>, list: seq<int>, isViolating: Snapshot<V> -> bool, k: nat)
  {
    && k < |list| && Violates(versions, isViolating, list[k])
    && (k > 0 ==> !Violates(versions, isViolating, list[k - 1]))
  }

  ghost predicate Monotone<V>(versions: map<int, Snapshot<V>>, list: seq<int>, isViolating: Snapshot<V> -> bool) {
    forall i, j | 0 <= i < j < |list| && Violates(versions, isViolating, list[i]) ::
        Violates(versions, isViolating, list[j])
  }

  method IdentifyViolatingVersion<V>(kb: KnowledgeBase<V>, list: seq<int>, isViolating: Snapshot<V> -> bool)
      returns (r: Result<Option<int>, MissingVersion>, ghost found: Option<nat>, ghost probes: nat)
    modifies kb
    ensures kb.versions == old(kb.versions)
    ensures probes <= Bits(|list|)
    // Whatever the oracle answers, the search ends at a boundary, or at a clean last version.
    ensures found.Some? ==> Boundary(kb.versions, list, isViolating, found.value)
    ensures r.Ok? && found.None? && list != [] ==> !Violates(kb.versions, isViolating, list[|list| - 1])
    ensures r.Ok? ==> r.value == if found.Some? then Some(list[found.value]) else None
    // It fails for a probed version or a rollback target that is not stored.
    ensures r.Err? ==> r.error.version !in kb.versions
    ensures r.Err? ==> if found.Some? then r.error.version == Target(list[found.value]) else r.error.version in list
    ensures found.Some? && Target(list[found.value]) !in kb.versions ==> r.Err?
    // Where the knowledge base is left.
    ensures list == [] ==> kb.State() == old(kb.State())
    ensures r.Ok? && list != [] ==>
              var target := if found.Some? then Target(list[found.value]) else list[|list| - 1];
              target in kb.versions && kb.kbVersion == target && kb.Contents() == kb.versions[target]
  {
    hide Step;
    hide Violates;
    hide Bits;
    found, probes := None, 0;
    if list == [] { return Ok(None), found, probes; }
    var lo, hi := 0, |list| - 1;
    var result: Option<int> := None;
    while lo <= hi
      invariant 0 <= lo <= hi + 1 <= |list|
      invariant kb.versions == old(kb.versions)
      invariant probes + Bits(hi + 1 - lo) <= Bits(|list|)
      invariant found.None? <==> hi == |list| - 1
      invariant found.Some? ==> found.value == hi + 1 && Violates(kb.versions, isViolating, list[hi + 1])
      invariant result == if found.Some? then Some(list[found.value]) else None
      invariant lo > 0 ==> list[lo - 1] in kb.versions && !Violates(kb.versions, isViolating, list[lo - 1])
      invariant lo > 0 && found.None? ==> kb.kbVersion == list[lo - 1] && kb.Contents() == kb.versions[list[lo - 1]]
    {
      var mid := (lo + hi) / 2;
      var version := list[mid];
      var snapshot := kb.GetVersion(version);
      if snapshot.Err? { return Err(snapshot.error), None, probes; }
      var error := kb.RollbackTo(version);
      probes := probes + 1;
      BitsOfHalf(hi + 1 - lo, mid - lo);
      BitsOfHalf(hi + 1 - lo, hi - mid);
      OracleAnswer(kb.versions, isViolating, version);
      if isViolating(snapshot.value) {
        result, found := Some(version), Some(mid);
        hi := mid - 1;
      } else {
        lo := mid + 1;
      }
    }
    if result.Some? {
      var target := if result.value > 1 then result.value - 1 else 1;
      var error := kb.RollbackTo(target);
      if error.Some? { return Err(error.value), found, probes; }
    }
    r := Ok(result);
  }

  /** When violation is monotone along the list, a boundary is the earliest violating position. */
  lemma BoundaryIsEarliest<V>(
    versions: map<int, Snapshot<V>>, list: seq<int>, isViolating: Snapshot<V> -> bool, k: nat)
    requires Monotone(versions, list, isViolating) && k < |list|
    ensures Boundary(versions, list, isViolating, k)
            <==> forall j | 0 <= j < |list| :: Violates(versions, isViolating, list[j]) <==> k <= j
  {
  }

  /** When violation is monotone, a clean last version means that none violates. */
  lemma CleanLastMeansNone<V>(versions: map<int, Snapshot<V>>, list: seq<int>, isViolating: Snapshot<V> -> bool)
    requires Monotone(versions, list, isViolating) && list != []
    ensures !Violates(versions, isViolating, list[|list| - 1])
            <==> forall v | v in list :: !Violates(versions, isViolating, v)
  {
    assert list[|list| - 1] in list;
  }

  ghost predicate Consecutive(list: seq<int>) {
    forall i | 0 <= i < |list| :: list[i] == list[0] + i
  }

  /** On consecutive stored versions the rollback target is clean exactly when the found
      version is not the first of the list; it is then the newest clean version. When the
      found version is version 1, the target is version 1 itself. */
  lemma TargetIsNewestCleanIff<V>(
    versions: map<int, Snapshot<V>>, list: seq<int>, isViolating: Snapshot<V> -> bool, k: nat)
    requires Consecutive(list) && list != [] && list[0] >= 1
    requires Monotone(versions, list, isViolating) && Boundary(versions, list, isViolating, k)
    ensures k > 0 <==> (Target(list[k]) in list && !Violates(versions, isViolating, Target(list[k])))
    ensures k > 0 <==> !Violates(versions, isViolating, list[0])
    ensures k > 0 ==> forall v | v in list && !Violates(versions, isViolating, v) :: v <= Target(list[k])
    ensures list[k] == 1 ==> Target(list[k]) == 1 && Violates(versions, isViolating, 1)
  {
    BoundaryIsEarliest(versions, list, isViolating, k);
    if k > 0 {
      assert list[k - 1] == Target(list[k]);
      forall v | v in list && !Violates(versions, isViolating, v) ensures v <= Target(list[k]) {
        var j :| 0 <= j < |list| && list[j] == v;
      }
    } else if Target(list[0]) in list {
      var j :| 0 <= j < |list| && list[j] == Target(list[0]);
    }
  }

  /** The whole run: consecutive stored versions of which the first is clean leave the
      knowledge base at its newest clean version. */
  method RestoreNewestClean<V>(kb: KnowledgeBase<V>, list: seq<int>, isViolating: Snapshot<V> -> bool)
      returns (r: Result<Option<int>, MissingVersion>)
    requires forall v | v in list :: v in kb.versions
    requires Consecutive(list) && list != [] && list[0] >= 1
    requires Monotone(kb.versions, list, isViolating) && !Violates(kb.versions, isViolating, list[0])
    modifies kb
    ensures r.Ok? && kb.versions == old(kb.versions)
    ensures r.value.None? <==> forall v | v in list :: !Violates(kb.versions, isViolating, v)
    ensures kb.kbVersion in list && !isViolating(kb.Contents()) && kb.Contents() == kb.versions[kb.kbVersion]
    ensures forall v | v in list && v > kb.kbVersion :: Violates(kb.versions, isViolating, v)
  {
    ghost var found, probes;
    r, found, probes := IdentifyViolatingVersion(kb, list, isViolating);
    if found.Some? {
      TargetIsNewestCleanIff(kb.versions, list, isViolating, found.value);
      assert list[found.value] in list;
    } else {
      CleanLastMeansNone(kb.versions, list, isViolating);
    }
  }
}
