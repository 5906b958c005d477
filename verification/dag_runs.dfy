/** Whole runs of the interlock DAG: any sequence of adds and harvests from an empty store. */
module DagRuns {
  import opened Names
  import opened Reachability
  import opened Sets
  import opened DagSpec
  import opened DagTheorems

  datatype Op = Add(record: Record) | Harvest(threshold: nat)

  ghost function Apply(s: Store, score: Score, op: Op): Store {
    match op
    case Add(r) => AddStore(s, r)
    case Harvest(threshold) => HarvestStore(s, score, threshold)
  }

  ghost function Run(score: Score, ops: seq<Op>): Store {
    if ops == [] then map[]
    else Apply(Run(score, ops[..|ops| - 1]), score, ops[|ops| - 1])
  }

  /** The records a run accepted: the first one under each name. */
  function RecordsAdded(ops: seq<Op>): map<Name, Record> {
    if ops == [] then map[]
    else
      var before := RecordsAdded(ops[..|ops| - 1]);
      var op := ops[|ops| - 1];
      if op.Add? && ToStateName(op.record.name) !in before
      then before[ToStateName(op.record.name) := op.record]
      else before
  }

  // ----- Every run -----

  /** In every run, whatever the order and the thresholds: the store is well formed, holds
      exactly the records added, and no descendant is false. */
  lemma {:induction false} RunSound(score: Score, ops: seq<Op>)
    ensures WellFormed(Run(score, ops)) && Sound(Run(score, ops))
    ensures Records(Run(score, ops)) == RecordsAdded(ops)
  {
    if ops != [] {
      var before, op := Run(score, ops[..|ops| - 1]), ops[|ops| - 1];
      RunSound(score, ops[..|ops| - 1]);
      match op
      case Add(r) =>
        AddWellFormed(before, r);
        AddSound(before, r);
        AddRecords(before, r);
      case Harvest(threshold) =>
        HarvestWellFormed(before, score, threshold);
        HarvestSound(before, score, threshold);
        HarvestRecords(before, score, threshold);
    }
  }

  /** An interlocked record keeps the score that interlocked it. */
  ghost predicate Scored(s: Store, score: Score, threshold: nat) {
    forall n :: n in s && s[n].status == INTERLOCKED ==> score(s[n].descendants) >= threshold
  }

  ghost predicate HarvestsAtLeast(ops: seq<Op>, threshold: nat) {
    forall i :: 0 <= i < |ops| && ops[i].Harvest? ==> ops[i].threshold >= threshold
  }

  lemma {:induction false} RunScored(score: Score, ops: seq<Op>, threshold: nat)
    requires HarvestsAtLeast(ops, threshold)
    ensures Scored(Run(score, ops), score, threshold)
  {
    if ops != [] {
      var before, op := Run(score, ops[..|ops| - 1]), ops[|ops| - 1];
      RunScored(score, ops[..|ops| - 1], threshold);
      forall n | n in Run(score, ops) && Run(score, ops)[n].status == INTERLOCKED
        ensures score(Run(score, ops)[n].descendants) >= threshold
      {
        match op
        case Add(r) =>
          if Lookup(before, ToStateName(r.name)).status == INITIALIZED {
            AddEffect(before, r, n);
          }
        case Harvest(h) =>
          HarvestAt(before, score, h, n);
      }
    }
  }

  /** From any point of a run to any later point, states only move forward. */
  lemma {:induction false} RunEvolves(score: Score, ops: seq<Op>, k: nat)
    requires k <= |ops|
    ensures Evolves(Run(score, ops[..k]), Run(score, ops))
    decreases |ops| - k
  {
    if k == |ops| {
      assert ops[..k] == ops;
    } else {
      var op := ops[k];
      assert ops[..k + 1][..k] == ops[..k];
      match op {
        case Add(r) => AddEvolves(Run(score, ops[..k]), r);
        case Harvest(threshold) => HarvestEvolves(Run(score, ops[..k]), score, threshold);
      }
      RunEvolves(score, ops, k + 1);
    }
  }

  // ----- Runs that harvest only what is safe -----

  /** No harvest of the run interlocks a record that points at a missing one. */
  ghost predicate SafeRun(score: Score, ops: seq<Op>) {
    forall i :: 0 <= i < |ops| && ops[i].Harvest? ==>
      SafeToHarvest(Run(score, ops[..i]), score, ops[i].threshold)
  }

  lemma SafeRunPrefix(score: Score, ops: seq<Op>)
    requires ops != [] && SafeRun(score, ops)
    ensures SafeRun(score, ops[..|ops| - 1])
  {
    var before := ops[..|ops| - 1];
    forall i | 0 <= i < |before| && before[i].Harvest?
      ensures SafeToHarvest(Run(score, before[..i]), score, before[i].threshold)
    {
      assert before[..i] == ops[..i];
    }
  }

  /** Pruning is lossless in every safe run: interlocking is closed under ancestors and
      every other state has exactly its true descendants. */
  lemma {:induction false} RunExact(score: Score, ops: seq<Op>)
    requires Monotone(score) && SafeRun(score, ops)
    ensures Exact(Run(score, ops)) && Closed(Run(score, ops))
  {
    if ops != [] {
      var before, op := Run(score, ops[..|ops| - 1]), ops[|ops| - 1];
      SafeRunPrefix(score, ops);
      RunExact(score, ops[..|ops| - 1]);
      RunSound(score, ops[..|ops| - 1]);
      match op
      case Add(r) =>
        AddKeepsExact(before, r);
      case Harvest(threshold) =>
        assert SafeToHarvest(Run(score, ops[..|ops| - 1]), score, threshold);
        HarvestKeepsExact(before, score, threshold);
        SafeHarvestKeepsClosed(before, score, threshold);
    }
  }

  /** Delivery is causal when each record arrives after everything it points at, itself aside. */
  ghost predicate Causal(ops: seq<Op>) {
    forall i :: 0 <= i < |ops| && ops[i].Add? ==>
      Parents(ops[i].record) <= RecordsAdded(ops[..i]).Keys + {ToStateName(ops[i].record.name)}
  }

  lemma {:induction false} CausalPointersHeld(ops: seq<Op>, k: nat)
    requires Causal(ops) && k <= |ops|
    ensures PointersHeld(RecordsAdded(ops[..k]))
  {
    if k > 0 {
      CausalPointersHeld(ops, k - 1);
      assert ops[..k][..k - 1] == ops[..k - 1];
      var recs, before := RecordsAdded(ops[..k]), RecordsAdded(ops[..k - 1]);
      assert before.Keys <= recs.Keys;
      if ops[k - 1].Add? {
        assert Parents(ops[k - 1].record) <= before.Keys + {ToStateName(ops[k - 1].record.name)};
      }
    }
  }

  /** Under causal delivery every harvest is safe, at any threshold. */
  lemma CausalRunIsSafe(score: Score, ops: seq<Op>)
    requires Causal(ops)
    ensures SafeRun(score, ops)
  {
    forall i | 0 <= i < |ops| && ops[i].Harvest?
      ensures SafeToHarvest(Run(score, ops[..i]), score, ops[i].threshold)
    {
      var s := Run(score, ops[..i]);
      RunSound(score, ops[..i]);
      CausalPointersHeld(ops, i);
      forall b, a | Ripe(s, score, ops[i].threshold, b) && a in Parents(s[b].record)
        ensures Lookup(s, a).status != INITIALIZED
      {
        assert b in Records(s) && Records(s)[b] == s[b].record;
        assert a in Records(s);
      }
    }
  }

  // ----- Convergence -----

  /** The store determined by a set of records alone. */
  ghost function SpecStore(recs: map<Name, Record>): Store {
    map n | n in recs.Keys + PointedAt(recs) && (n in recs || TrueDescendants(recs, n) != {}) ::
      EdgeState(n,
                if n in recs then LOADED else INITIALIZED,
                if n in recs then recs[n] else Pending(n).record,
                TrueDescendants(recs, n))
  }

  function PointedAt(recs: map<Name, Record>): set<Name> {
    set n, p | n in recs && p in Parents(recs[n]) :: p
  }

  lemma SpecStoreAt(recs: map<Name, Record>, n: Name)
    ensures n in SpecStore(recs) <==> n in recs || TrueDescendants(recs, n) != {}
  {
    if TrueDescendants(recs, n) != {} {
      var d :| d in TrueDescendants(recs, n);
      ReachesTarget(PointerGraph(recs), Parents(recs[d]), n);
      assert n in PointedAt(recs);
    }
  }

  /** A well-formed store with nothing interlocked is exact only if it is the one its
      records determine. */
  lemma ExactStoreIsSpec(s: Store)
    requires WellFormed(s) && Exact(s)
    requires forall n :: n in s ==> s[n].status != INTERLOCKED
    ensures s == SpecStore(Records(s))
  {
    var recs := Records(s);
    var t := SpecStore(recs);
    forall n ensures n in s <==> n in t {
      SpecStoreAt(recs, n);
      assert Lookup(s, n).descendants == TrueDescendants(recs, n);
      if n in s {
        assert WellFormedState(s, n);
      }
    }
    forall n | n in s ensures s[n] == t[n] {
      assert WellFormedState(s, n);
      assert Lookup(s, n).descendants == TrueDescendants(recs, n);
    }
  }

  ghost predicate AddsOnly(ops: seq<Op>) {
    forall i :: 0 <= i < |ops| ==> ops[i].Add?
  }

  lemma {:induction false} AddsOnlyNothingInterlocked(score: Score, ops: seq<Op>)
    requires AddsOnly(ops)
    ensures forall n :: n in Run(score, ops) ==> Run(score, ops)[n].status != INTERLOCKED
  {
    if ops != [] {
      var before, r := Run(score, ops[..|ops| - 1]), ops[|ops| - 1].record;
      AddsOnlyNothingInterlocked(score, ops[..|ops| - 1]);
      forall n | n in Run(score, ops) ensures Run(score, ops)[n].status != INTERLOCKED {
        if Lookup(before, ToStateName(r.name)).status == INITIALIZED {
          AddEffect(before, r, n);
        }
      }
    }
  }

  lemma AddsOnlyExact(score: Score, ops: seq<Op>)
    requires AddsOnly(ops) && Monotone(score)
    ensures var s := Run(score, ops);
      && WellFormed(s) && Sound(s) && Exact(s) && Records(s) == RecordsAdded(ops)
      && forall n :: n in s ==> s[n].status != INTERLOCKED
  {
    RunSound(score, ops);
    RunExact(score, ops);
    AddsOnlyNothingInterlocked(score, ops);
  }

  /** Without harvests the store is a function of the records alone. */
  lemma AddsOnlyIsSpec(score: Score, ops: seq<Op>)
    requires AddsOnly(ops)
    ensures Run(score, ops) == SpecStore(RecordsAdded(ops))
  {
    SizeIsMonotone();
    AddsOnlyIgnoresScore(score, Size, ops);
    RunSound(Size, ops);
    RunExact(Size, ops);
    AddsOnlyNothingInterlocked(Size, ops);
    ExactStoreIsSpec(Run(Size, ops));
  }

  function Size(d: set<Name>): nat {
    |d|
  }

  lemma SizeIsMonotone()
    ensures Monotone(Size)
  {
    forall d: set<Name>, e: set<Name> ensures InOrder(Size, d, e) {
      if d <= e {
        SubsetSize(d, e);
      }
    }
  }

  lemma {:induction false} AddsOnlyIgnoresScore(score: Score, other: Score, ops: seq<Op>)
    requires AddsOnly(ops)
    ensures Run(score, ops) == Run(other, ops)
  {
    if ops != [] {
      AddsOnlyIgnoresScore(score, other, ops[..|ops| - 1]);
    }
  }

  function AddedSet(ops: seq<Op>): set<Record> {
    set i | 0 <= i < |ops| && ops[i].Add? :: ops[i].record
  }

  ghost predicate OneRecordPerName(recs: set<Record>) {
    forall r, q :: r in recs && q in recs && r.name == q.name ==> r == q
  }

  lemma {:induction false} RecordsAddedFromSet(ops: seq<Op>)
    ensures forall n :: n in RecordsAdded(ops) ==>
      RecordsAdded(ops)[n] in AddedSet(ops) && ToStateName(RecordsAdded(ops)[n].name) == n
    ensures forall r :: r in AddedSet(ops) ==> ToStateName(r.name) in RecordsAdded(ops)
  {
    if ops != [] {
      var before, op := ops[..|ops| - 1], ops[|ops| - 1];
      RecordsAddedFromSet(before);
      assert AddedSet(ops) == AddedSet(before) + (if op.Add? then {op.record} else {}) by {
        forall r | r in AddedSet(ops)
          ensures r in AddedSet(before) + (if op.Add? then {op.record} else {})
        {
          var i :| 0 <= i < |ops| && ops[i].Add? && ops[i].record == r;
          if i < |before| {
            assert before[i] == ops[i];
          }
        }
        forall r | r in AddedSet(before) ensures r in AddedSet(ops) {
          var i :| 0 <= i < |before| && before[i].Add? && before[i].record == r;
          assert ops[i] == before[i];
        }
      }
    }
  }

  lemma SameSetSameRecords(ops: seq<Op>, other: seq<Op>)
    requires AddedSet(ops) == AddedSet(other) && OneRecordPerName(AddedSet(ops))
    ensures RecordsAdded(ops) == RecordsAdded(other)
  {
    var a, b := RecordsAdded(ops), RecordsAdded(other);
    RecordsAddedFromSet(ops);
    RecordsAddedFromSet(other);
    forall n | n in a ensures n in b && a[n] == b[n] {
      ToStateNameInjective(a[n].name, b[n].name);
    }
    forall n | n in b ensures n in a {
      assert b[n] in AddedSet(ops);
    }
  }

  /** Convergence: two runs that add the same records, in any orders and with any
      repetitions, end in the same store. */
  lemma Convergence(score: Score, ops: seq<Op>, other: seq<Op>)
    requires AddsOnly(ops) && AddsOnly(other)
    requires AddedSet(ops) == AddedSet(other) && OneRecordPerName(AddedSet(ops))
    ensures Run(score, ops) == Run(score, other) == SpecStore(RecordsAdded(ops))
  {
    SameSetSameRecords(ops, other);
    AddsOnlyIsSpec(score, ops);
    AddsOnlyIsSpec(score, other);
  }

  // ----- Agreement between replicas that harvest -----

  ghost predicate HarvestsAt(ops: seq<Op>, threshold: nat) {
    forall i :: 0 <= i < |ops| && ops[i].Harvest? ==> ops[i].threshold == threshold
  }

  /** Right after a harvest of a safe run, a record is interlocked exactly when its true
      descendants score the threshold. */
  lemma InterlockedIff(score: Score, ops: seq<Op>, threshold: nat, n: Name)
    requires Monotone(score) && SafeRun(score, ops + [Harvest(threshold)]) && HarvestsAt(ops, threshold)
    ensures n in InterlockedNames(Run(score, ops + [Harvest(threshold)])) <==>
            n in RecordsAdded(ops) && score(TrueDescendants(RecordsAdded(ops), n)) >= threshold
  {
    var all := ops + [Harvest(threshold)];
    assert all[..|all| - 1] == ops;
    var s := Run(score, ops);
    SafeRunPrefix(score, all);
    RunSound(score, ops);
    RunExact(score, ops);
    RunScored(score, ops, threshold);
    HarvestAt(s, score, threshold, n);
    if n in s {
      assert SoundAt(s, n);
      assert InOrder(score, s[n].descendants, TrueDescendants(RecordsAdded(ops), n));
      if s[n].status == LOADED {
        assert Lookup(s, n).descendants == TrueDescendants(Records(s), n);
      }
    }
  }

  /** Replicas that hold the same records agree after harvesting, however their safe runs
      interleaved deliveries and harvests: on every status and record, and on every
      descendant of what is not interlocked. */
  lemma ReplicasAgree(score: Score, ops: seq<Op>, other: seq<Op>, threshold: nat)
    requires Monotone(score)
    requires SafeRun(score, ops + [Harvest(threshold)]) && HarvestsAt(ops, threshold)
    requires SafeRun(score, other + [Harvest(threshold)]) && HarvestsAt(other, threshold)
    requires AddedSet(ops) == AddedSet(other) && OneRecordPerName(AddedSet(ops))
    ensures Agree(Run(score, ops + [Harvest(threshold)]), Run(score, other + [Harvest(threshold)]))
  {
    var all, otherAll := ops + [Harvest(threshold)], other + [Harvest(threshold)];
    SameSetSameRecords(ops, other);
    forall n ensures n in InterlockedNames(Run(score, all)) <==> n in InterlockedNames(Run(score, otherAll)) {
      InterlockedIff(score, ops, threshold, n);
      InterlockedIff(score, other, threshold, n);
    }
    HarvestedRecords(score, ops, threshold);
    HarvestedRecords(score, other, threshold);
    ExactStoresAgree(Run(score, all), Run(score, otherAll));
  }

  lemma HarvestedRecords(score: Score, ops: seq<Op>, threshold: nat)
    requires Monotone(score) && SafeRun(score, ops + [Harvest(threshold)])
    ensures var s := Run(score, ops + [Harvest(threshold)]);
      WellFormed(s) && Exact(s) && Records(s) == RecordsAdded(ops)
  {
    var all := ops + [Harvest(threshold)];
    RunSound(score, all);
    RunExact(score, all);
    assert all[..|all| - 1] == ops;
  }

  // ----- What an unsafe harvest loses is lost for good -----

  ghost function Continue(s: Store, score: Score, ops: seq<Op>): Store {
    if ops == [] then s else Apply(Continue(s, score, ops[..|ops| - 1]), score, ops[|ops| - 1])
  }

  lemma {:induction false} RunContinues(score: Score, ops: seq<Op>, more: seq<Op>)
    ensures Run(score, ops + more) == Continue(Run(score, ops), score, more)
  {
    if more == [] {
      assert ops + more == ops;
    } else {
      RunContinues(score, ops, more[..|more| - 1]);
      RunLast(score, ops + more, ops + more[..|more| - 1], more[|more| - 1]);
    }
  }

  lemma RunLast(score: Score, all: seq<Op>, before: seq<Op>, op: Op)
    requires all == before + [op]
    ensures Run(score, all) == Apply(Run(score, before), score, op)
  {
    assert all[..|all| - 1] == before;
  }

  /** `d` truly leads to `a`, yet is not counted there. */
  ghost predicate Missed(s: Store, d: Name, a: Name) {
    d in TrueDescendants(Records(s), a) && d !in Lookup(s, a).descendants
  }

  /** `d` points at the interlocked record `b` alone and is counted nowhere. */
  ghost predicate Unseen(s: Store, d: Name, b: Name) {
    && WellFormed(s)
    && b in s && s[b].status == INTERLOCKED
    && d in s && s[d].status != INITIALIZED && !s[d].record.IsGenesis() && Parents(s[d].record) == {b}
    && forall n :: d !in Lookup(s, n).descendants
  }

  /** A later record cannot bring `d` back: the search from `d` stops at `b`. */
  lemma AddKeepsUnseen(s: Store, r: Record, d: Name, b: Name)
    requires Unseen(s, d, b)
    ensures Unseen(AddStore(s, r), d, b)
  {
    var x := ToStateName(r.name);
    AddWellFormed(s, r);
    if Lookup(s, x).status == INITIALIZED {
      var s1, t := Load(s, r), AddStore(s, r);
      AddEffect(s, r, b);
      AddEffect(s, r, d);
      forall n ensures d !in Lookup(t, n).descendants {
        AddEffect(s, r, n);
        if Reaches(Expandable(s1), {b}, n) {
          ReachesStaysInside(Expandable(s1), {b}, {b}, n);
        }
      }
    }
  }

  lemma HarvestKeepsUnseen(s: Store, score: Score, threshold: nat, d: Name, b: Name)
    requires Unseen(s, d, b)
    ensures Unseen(HarvestStore(s, score, threshold), d, b)
  {
    var t := HarvestStore(s, score, threshold);
    HarvestWellFormed(s, score, threshold);
    forall n ensures d !in Lookup(t, n).descendants {
      HarvestAt(s, score, threshold, n);
    }
  }

  lemma {:induction false} UnseenForever(s: Store, score: Score, ops: seq<Op>, d: Name, b: Name)
    requires Unseen(s, d, b)
    ensures Unseen(Continue(s, score, ops), d, b)
  {
    if ops != [] {
      var before := Continue(s, score, ops[..|ops| - 1]);
      UnseenForever(s, score, ops[..|ops| - 1], d, b);
      match ops[|ops| - 1]
      case Add(r) => AddKeepsUnseen(before, r, d, b);
      case Harvest(threshold) => HarvestKeepsUnseen(before, score, threshold, d, b);
    }
  }

  lemma {:induction false} ContinueEvolves(s: Store, score: Score, ops: seq<Op>, n: Name)
    requires n in s && s[n].status == INTERLOCKED
    ensures n in Continue(s, score, ops) && Continue(s, score, ops)[n] == s[n]
  {
    if ops != [] {
      var before := Continue(s, score, ops[..|ops| - 1]);
      ContinueEvolves(s, score, ops[..|ops| - 1], n);
      match ops[|ops| - 1]
      case Add(r) => AddEvolves(before, r);
      case Harvest(threshold) => HarvestEvolves(before, score, threshold);
    }
  }

  /** Whatever happens later, `d` is not counted for anything `b` points at. */
  lemma UnseenIsMissed(s: Store, score: Score, ops: seq<Op>, d: Name, b: Name, a: Name)
    requires Unseen(s, d, b) && a in Parents(s[b].record)
    ensures Missed(Continue(s, score, ops), d, a)
  {
    var t := Continue(s, score, ops);
    UnseenForever(s, score, ops, d, b);
    ContinueEvolves(s, score, ops, b);
    NewcomerIsDescendant(Records(t), d, b, a);
  }

  lemma NewcomerIsUnseen(s: Store, r: Record, b: Name)
    requires WellFormed(s) && b in s && s[b].status == INTERLOCKED
    requires ToStateName(r.name) !in s && !r.IsGenesis() && Parents(r) == {b}
    ensures Unseen(AddStore(s, r), ToStateName(r.name), b)
    ensures AddStore(s, r)[b] == s[b]
  {
    var x := ToStateName(r.name);
    AddWellFormed(s, r);
    AddEffect(s, r, b);
    AddEffect(s, r, x);
    forall n ensures x !in Lookup(AddStore(s, r), n).descendants {
      NewcomerUnseen(s, r, b, n);
    }
  }

  /** After a harvest that was not safe some record, once added, is missed for ever. */
  lemma UnsafeHarvestLosesForever(s: Store, score: Score, threshold: nat) returns (r: Record, a: Name)
    requires WellFormed(s) && !SafeToHarvest(s, score, threshold)
    ensures ToStateName(r.name) !in HarvestStore(s, score, threshold)
    ensures forall ops :: Missed(Continue(AddStore(HarvestStore(s, score, threshold), r), score, ops), ToStateName(r.name), a)
  {
    var t := HarvestStore(s, score, threshold);
    var b;
    b, a :| Ripe(s, score, threshold, b) && a in Parents(s[b].record) && Lookup(s, a).status == INITIALIZED;
    HarvestWellFormed(s, score, threshold);
    HarvestAt(s, score, threshold, b);
    r := NewcomerAt(t, b);
    NewcomerIsUnseen(t, r, b);
    forall ops ensures Missed(Continue(AddStore(t, r), score, ops), ToStateName(r.name), a) {
      UnseenIsMissed(AddStore(t, r), score, ops, ToStateName(r.name), b, a);
    }
  }

  // ----- Runs that lose a descendant -----

  lemma TwoAdds(score: Score, rb: Record, rc: Record)
    requires ToStateName(rb.name) != ToStateName(rc.name)
    ensures RecordsAdded([Add(rb), Add(rc)]) == map[ToStateName(rb.name) := rb, ToStateName(rc.name) := rc]
  {
    var ops := [Add(rb), Add(rc)];
    assert ops[..1] == [Add(rb)] && ops[..1][..0] == [];
    assert RecordsAdded(ops[..1]) == map[ToStateName(rb.name) := rb];
  }

  /** Once `b` is held before the record `a` it points at, and `c` cites `b`, the record
      `b` counts `c`, while `a` is still missing. */
  lemma MissingParent(s: Store, b: Name, c: Name, a: Name)
    requires WellFormed(s) && Exact(s)
    requires Records(s).Keys == {b, c} && a !in {b, c}
    requires !Records(s)[c].IsGenesis() && b in Parents(Records(s)[c])
    requires s[b].status != INTERLOCKED
    ensures c in s[b].descendants && Lookup(s, a).status == INITIALIZED
  {
    var recs := Records(s);
    ReachesStart(PointerGraph(recs), Parents(recs[c]), b);
    assert c in TrueDescendants(recs, b);
    assert Lookup(s, b).descendants == TrueDescendants(recs, b);
    assert a !in recs;
  }

  lemma NotMentioned(s: Store, b: Name, c: Name, a: Name, d: Name)
    requires WellFormed(s) && Sound(s)
    requires Records(s).Keys == {b, c} && d !in {a, b, c}
    requires Parents(Records(s)[b]) == {a} && Parents(Records(s)[c]) == {b}
    ensures d !in s
  {
    UnmentionedNotStored(s, d);
  }

  /** Harvesting at that point interlocks `b`; a later record `d` that points at `b` is then
      never counted for `a`, whatever arrives or is harvested afterwards. */
  lemma OutOfOrderHarvestLoses(score: Score, rb: Record, rc: Record, rd: Record, a: Name, threshold: nat)
    requires var b, c, d := ToStateName(rb.name), ToStateName(rc.name), ToStateName(rd.name);
      && a != b && a != c && b != c && d !in {a, b, c}
      && !rc.IsGenesis() && !rd.IsGenesis()
      && Parents(rb) == {a} && Parents(rc) == {b} && Parents(rd) == {b}
    requires Monotone(score) && score({ToStateName(rc.name)}) >= threshold
    ensures var ops := [Add(rb), Add(rc), Harvest(threshold), Add(rd)];
      && !Exact(Run(score, ops))
      && forall more :: Missed(Run(score, ops + more), ToStateName(rd.name), a)
  {
    var ops := [Add(rb), Add(rc), Harvest(threshold), Add(rd)];
    var two := [Add(rb), Add(rc)];
    TwoAdds(score, rb, rc);
    AddsOnlyExact(score, two);
    LossFrom(Run(score, two), score, rb, rc, rd, a, threshold);
    HarvestThenAdd(score, two, threshold, rd, ops);
    forall more ensures Missed(Run(score, ops + more), ToStateName(rd.name), a) {
      RunContinues(score, ops, more);
    }
  }

  lemma HarvestThenAdd(score: Score, before: seq<Op>, threshold: nat, r: Record, ops: seq<Op>)
    requires ops == before + [Harvest(threshold), Add(r)]
    ensures Run(score, ops) == AddStore(HarvestStore(Run(score, before), score, threshold), r)
  {
    RunLast(score, before + [Harvest(threshold)], before, Harvest(threshold));
    RunLast(score, ops, before + [Harvest(threshold)], Add(r));
  }

  lemma LossFrom(s: Store, score: Score, rb: Record, rc: Record, rd: Record, a: Name, threshold: nat)
    requires var b, c, d := ToStateName(rb.name), ToStateName(rc.name), ToStateName(rd.name);
      && a != b && a != c && b != c && d !in {a, b, c}
      && !rc.IsGenesis() && !rd.IsGenesis()
      && Parents(rb) == {a} && Parents(rc) == {b} && Parents(rd) == {b}
      && Records(s) == map[b := rb, c := rc]
    requires Monotone(score) && score({ToStateName(rc.name)}) >= threshold
    requires WellFormed(s) && Exact(s) && Sound(s)
    requires forall n :: n in s ==> s[n].status != INTERLOCKED
    ensures !Exact(AddStore(HarvestStore(s, score, threshold), rd))
    ensures forall more ::
      Missed(Continue(AddStore(HarvestStore(s, score, threshold), rd), score, more), ToStateName(rd.name), a)
  {
    var b, c, d := ToStateName(rb.name), ToStateName(rc.name), ToStateName(rd.name);
    var t := HarvestStore(s, score, threshold);
    var recs := Records(s);
    assert recs.Keys == {b, c} && recs[b] == rb && recs[c] == rc;
    assert s[b].record == rb;
    MissingParent(s, b, c, a);
    assert InOrder(score, {c}, s[b].descendants);
    assert Ripe(s, score, threshold, b);
    HarvestWellFormed(s, score, threshold);
    HarvestAt(s, score, threshold, b);
    HarvestAt(s, score, threshold, a);
    NotMentioned(s, b, c, a, d);
    NewcomerStops(t, rd, b, a);
    NewcomerIsUnseen(t, rd, b);
    forall more ensures Missed(Continue(AddStore(t, rd), score, more), d, a) {
      UnseenIsMissed(AddStore(t, rd), score, more, d, b, a);
    }
  }

  // The same with records under one-letter names.

  function Citing(letter: Byte, target: Byte): Record {
    Record(Plain(letter), GENERIC_RECORD, [Plain(target)], [])
  }

  lemma CitingParents(letter: Byte, target: Byte)
    ensures Parents(Citing(letter, target)) == {ToStateName(Plain(target))}
  {
    assert Citing(letter, target).pointers[0] == Plain(target);
  }

  lemma PlainDistinct(x: Byte, y: Byte)
    requires x != y
    ensures ToStateName(Plain(x)) != ToStateName(Plain(y))
  {
    assert ToStateName(Plain(x))[1].value[0] == x;
    assert ToStateName(Plain(y))[1].value[0] == y;
  }

  /** b -> a and c -> b arrive, one descendant interlocks, then d -> b arrives: a is left
      without d for ever, even when a arrives. */
  lemma FourRecordLoss(more: seq<Op>)
    ensures var ops := [Add(Citing(2, 1)), Add(Citing(3, 2)), Harvest(1), Add(Citing(4, 2))];
      Missed(Run(Size, ops + more), ToStateName(Plain(4)), ToStateName(Plain(1)))
  {
    CitingParents(2, 1);
    CitingParents(3, 2);
    CitingParents(4, 2);
    PlainDistinct(1, 2);
    PlainDistinct(1, 3);
    PlainDistinct(2, 3);
    PlainDistinct(1, 4);
    PlainDistinct(2, 4);
    PlainDistinct(3, 4);
    SizeIsMonotone();
    OutOfOrderHarvestLoses(Size, Citing(2, 1), Citing(3, 2), Citing(4, 2), ToStateName(Plain(1)), 1);
  }
}
