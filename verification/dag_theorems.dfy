/** What holds of the interlock DAG over whole runs: no false descendants, a one-way life
    cycle, exact descendants with the precise condition under which pruning at interlocked
    records loses nothing, and independence of the delivery order. */
module DagTheorems {
  import opened Names
  import opened Reachability
  import opened DagSpec

  // ----- Search graph against record graph -----

  lemma ExpandableInGraph(s: Store)
    ensures forall n :: n in Expandable(s) ==>
              n in PointerGraph(Records(s)) && PointerGraph(Records(s))[n] == Expandable(s)[n]
    ensures forall n :: n in PointerGraph(Records(s)) && n !in Expandable(s) ==>
              n in s && s[n].status == INTERLOCKED
  {
  }

  /** Found by the search means reached by pointers. */
  lemma AncestorIsReached(s: Store, r: Record, a: Name)
    requires IsAncestor(s, r, a)
    ensures Reaches(PointerGraph(Records(s)), Parents(r), a)
  {
    ExpandableInGraph(s);
    ReachesMonotone(Expandable(s), PointerGraph(Records(s)), Parents(r), Parents(r), a);
  }

  function InterlockedNames(s: Store): set<Name> {
    set n | n in s && s[n].status == INTERLOCKED
  }

  /** Pointers never lead out of a closed set of interlocked records. */
  lemma BehindInterlocked(s: Store, b: Name, a: Name)
    requires Closed(s)
    requires b in s && s[b].status == INTERLOCKED
    requires Reaches(PointerGraph(Records(s)), Parents(s[b].record), a)
    ensures Lookup(s, a).status == INTERLOCKED
  {
    var g := PointerGraph(Records(s));
    var inside := InterlockedNames(s);
    forall n | n in inside ensures Parents(s[n].record) <= inside {
      forall p | p in Parents(s[n].record) ensures p in inside {
        assert Lookup(s, p).status == INTERLOCKED;
      }
    }
    ReachesStaysInside(g, Parents(s[b].record), inside, a);
  }

  /** When interlocked records point at interlocked records only, stopping the search at
      them hides no state that is not interlocked. */
  lemma ReachedIsAncestor(s: Store, r: Record, a: Name)
    requires Closed(s)
    requires Lookup(s, a).status != INTERLOCKED
    requires Reaches(PointerGraph(Records(s)), Parents(r), a)
    ensures IsAncestor(s, r, a)
  {
    var f, g := Expandable(s), PointerGraph(Records(s));
    ExpandableInGraph(s);
    ReachesLeaves(f, g, Parents(r), a);
    if !Reaches(f, Parents(r), a) {
      var b :| b in g && b !in f && Reaches(f, Parents(r), b) && Reaches(g, g[b], a);
      BehindInterlocked(s, b, a);
    }
  }

  // ----- Soundness -----

  lemma MoreRecordsMoreDescendants(recs: map<Name, Record>, x: Name, r: Record, a: Name)
    requires x !in recs
    ensures TrueDescendants(recs, a) <= TrueDescendants(recs[x := r], a)
  {
    forall d | d in TrueDescendants(recs, a) ensures d in TrueDescendants(recs[x := r], a) {
      ReachesMonotone(PointerGraph(recs), PointerGraph(recs[x := r]), Parents(recs[d]), Parents(recs[d]), a);
    }
  }

  lemma AddSound(s: Store, r: Record)
    requires WellFormed(s) && Sound(s)
    ensures Sound(AddStore(s, r))
  {
    var x := ToStateName(r.name);
    var t := AddStore(s, r);
    if Lookup(s, x).status == INITIALIZED {
      var s1 := Load(s, r);
      AddRecords(s, r);
      LoadKeepsRecords(s, r);
      forall n ensures SoundAt(t, n) {
        assert SoundAt(s, n);
        AddEffect(s, r, n);
        MoreRecordsMoreDescendants(Records(s), x, r, n);
        ReachingSound(s, r, n);
      }
    }
  }

  lemma ReachingSound(s: Store, r: Record, n: Name)
    requires WellFormed(s) && Lookup(s, ToStateName(r.name)).status == INITIALIZED
    ensures var s1 := Load(s, r);
      Reaching(s1, Sources(s1, ToStateName(r.name)), n) <= TrueDescendants(Records(s1), n)
  {
    var s1 := Load(s, r);
    forall d | d in Reaching(s1, Sources(s1, ToStateName(r.name)), n) ensures d in TrueDescendants(Records(s1), n) {
      SourceIsRecord(s, r, d);
      AncestorIsReached(s1, Lookup(s1, d).record, n);
    }
  }

  lemma SourceIsRecord(s: Store, r: Record, d: Name)
    requires WellFormed(s)
    requires Lookup(s, ToStateName(r.name)).status == INITIALIZED
    requires d in Sources(Load(s, r), ToStateName(r.name))
    ensures var recs := Records(Load(s, r));
      d in recs && recs[d] == Lookup(Load(s, r), d).record && !recs[d].IsGenesis()
  {
    var x := ToStateName(r.name);
    if d != x {
      assert x in s && WellFormedState(s, x);
    }
  }

  lemma HarvestSound(s: Store, score: Score, threshold: nat)
    requires Sound(s)
    ensures Sound(HarvestStore(s, score, threshold))
  {
    HarvestRecords(s, score, threshold);
    forall n ensures SoundAt(HarvestStore(s, score, threshold), n) {
      assert SoundAt(s, n);
      HarvestAt(s, score, threshold, n);
    }
  }

  /** A name is stored only when it is held or some held record points at it. */
  lemma UnmentionedNotStored(s: Store, x: Name)
    requires WellFormed(s) && Sound(s)
    requires x !in Records(s) && forall n :: n in Records(s) ==> x !in Parents(Records(s)[n])
    ensures x !in s
  {
    var recs := Records(s);
    if x in s {
      assert WellFormedState(s, x);
      var d :| d in s[x].descendants;
      assert SoundAt(s, x);
      ReachesTarget(PointerGraph(recs), Parents(recs[d]), x);
      assert false;
    }
  }

  /** Every pointer target is held. */
  ghost predicate PointersHeld(recs: map<Name, Record>) {
    forall n :: n in recs ==> Parents(recs[n]) <= recs.Keys
  }

  // ----- Life cycle -----

  function Rank(status: Status): nat {
    match status
    case INITIALIZED => 0
    case LOADED => 1
    case INTERLOCKED => 2
  }

  /** How a store may change: states stay stored, move forward only and gain descendants,
      keep the record they loaded, and freeze once interlocked. */
  ghost predicate Evolves(s: Store, t: Store) {
    forall n :: n in s ==>
      && n in t
      && Rank(s[n].status) <= Rank(t[n].status)
      && s[n].descendants <= t[n].descendants
      && (s[n].status != INITIALIZED ==> t[n].record == s[n].record)
      && (s[n].status == INTERLOCKED ==> t[n] == s[n])
  }

  lemma AddEvolves(s: Store, r: Record)
    ensures Evolves(s, AddStore(s, r))
  {
    if Lookup(s, ToStateName(r.name)).status == INITIALIZED {
      forall n | n in s
        ensures n in AddStore(s, r)
        ensures Rank(s[n].status) <= Rank(AddStore(s, r)[n].status)
        ensures s[n].descendants <= AddStore(s, r)[n].descendants
        ensures s[n].status != INITIALIZED ==> AddStore(s, r)[n].record == s[n].record
        ensures s[n].status == INTERLOCKED ==> AddStore(s, r)[n] == s[n]
      {
        AddEffect(s, r, n);
      }
    }
  }

  lemma HarvestEvolves(s: Store, score: Score, threshold: nat)
    ensures Evolves(s, HarvestStore(s, score, threshold))
  {
  }

  // ----- Exactness: preserved by every add, whatever the delivery order -----

  /** A record that loads as `x` gives new descendants only along paths through `x`, and
      those were either sources or already known. */
  lemma NewDescendant(s: Store, r: Record, d: Name, a: Name)
    requires WellFormed(s) && Exact(s)
    requires Lookup(s, ToStateName(r.name)).status == INITIALIZED
    requires d in TrueDescendants(Records(Load(s, r)), a)
    ensures d in TrueDescendants(Records(s), a) || d in Sources(Load(s, r), ToStateName(r.name))
  {
    var x := ToStateName(r.name);
    LoadKeepsRecords(s, r);
    var g := PointerGraph(Records(s));
    var h := PointerGraph(Records(Load(s, r)));
    if d != x {
      assert d in Records(s) && Lookup(Load(s, r), d).record == Records(s)[d];
      ReachesLeaves(g, h, Parents(Records(s)[d]), a);
      if !Reaches(g, Parents(Records(s)[d]), a) {
        assert Reaches(g, Parents(Records(s)[d]), x);
        assert d in TrueDescendants(Records(s), x);
        assert Lookup(s, x).descendants == TrueDescendants(Records(s), x);
      }
    }
  }

  lemma LoadClosed(s: Store, r: Record)
    requires Closed(s) && Lookup(s, ToStateName(r.name)).status == INITIALIZED
    ensures Closed(Load(s, r))
  {
    var x := ToStateName(r.name);
    var s1 := Load(s, r);
    forall b, a | b in s1 && s1[b].status == INTERLOCKED && a in Parents(s1[b].record)
      ensures Lookup(s1, a).status == INTERLOCKED
    {
      assert b != x && s1[b] == s[b];
      assert Lookup(s, a).status == INTERLOCKED;
    }
  }

  lemma AddKeepsExact(s: Store, r: Record)
    requires WellFormed(s) && Exact(s) && Closed(s)
    ensures Exact(AddStore(s, r)) && Closed(AddStore(s, r))
  {
    var x := ToStateName(r.name);
    var t := AddStore(s, r);
    if Lookup(s, x).status == INITIALIZED {
      var s1 := Load(s, r);
      LoadClosed(s, r);
      LoadKeepsRecords(s, r);
      SpreadKeeps(s1, Sources(s1, x));
      forall n | Lookup(t, n).status != INTERLOCKED
        ensures Lookup(t, n).descendants == TrueDescendants(Records(t), n)
      {
        AddExactAt(s, r, n);
      }
      forall b, a | b in t && t[b].status == INTERLOCKED && a in Parents(t[b].record)
        ensures Lookup(t, a).status == INTERLOCKED
      {
        AddEffect(s, r, b);
        AddEffect(s, r, a);
        assert Lookup(s, b).status == INTERLOCKED && b in s;
        assert Lookup(s, a).status == INTERLOCKED;
      }
    }
  }

  lemma AddExactAt(s: Store, r: Record, n: Name)
    requires WellFormed(s) && Exact(s) && Closed(Load(s, r))
    requires Lookup(s, ToStateName(r.name)).status == INITIALIZED
    requires Lookup(AddStore(s, r), n).status != INTERLOCKED
    ensures Lookup(AddStore(s, r), n).descendants == TrueDescendants(Records(Load(s, r)), n)
  {
    var x := ToStateName(r.name);
    var s1 := Load(s, r);
    var t := AddStore(s, r);
    AddEffect(s, r, n);
    LoadKeepsRecords(s, r);
    MoreRecordsMoreDescendants(Records(s), x, r, n);
    assert Lookup(s, n).descendants == TrueDescendants(Records(s), n);
    forall d | d in TrueDescendants(Records(s1), n) ensures d in Lookup(t, n).descendants {
      NewDescendant(s, r, d, n);
      if d in Sources(s1, x) {
        SourceIsRecord(s, r, d);
        ReachedIsAncestor(s1, Lookup(s1, d).record, n);
      }
    }
    forall d | d in Lookup(t, n).descendants ensures d in TrueDescendants(Records(s1), n) {
      if d in Reaching(s1, Sources(s1, x), n) {
        SourceIsRecord(s, r, d);
        AncestorIsReached(s1, Lookup(s1, d).record, n);
      }
    }
  }

  // ----- Harvesting -----

  lemma HarvestKeepsExact(s: Store, score: Score, threshold: nat)
    requires Exact(s)
    ensures Exact(HarvestStore(s, score, threshold))
  {
    var t := HarvestStore(s, score, threshold);
    HarvestRecords(s, score, threshold);
    forall n | Lookup(t, n).status != INTERLOCKED
      ensures Lookup(t, n).descendants == TrueDescendants(Records(t), n)
    {
      HarvestAt(s, score, threshold, n);
    }
  }

  /** A parent has every true descendant of its child. */
  lemma ParentDescendants(recs: map<Name, Record>, b: Name, a: Name)
    requires b in recs && a in Parents(recs[b])
    ensures TrueDescendants(recs, b) <= TrueDescendants(recs, a)
  {
    forall d | d in TrueDescendants(recs, b) ensures d in TrueDescendants(recs, a) {
      ReachesStep(PointerGraph(recs), Parents(recs[d]), b, a);
    }
  }

  /** The test a caller can make before harvesting: nothing about to be interlocked points
      at a record still missing. */
  ghost predicate SafeToHarvest(s: Store, score: Score, threshold: nat) {
    forall b, a :: Ripe(s, score, threshold, b) && a in Parents(s[b].record) ==>
      Lookup(s, a).status != INITIALIZED
  }

  lemma SafeHarvestKeepsClosed(s: Store, score: Score, threshold: nat)
    requires WellFormed(s) && Exact(s) && Closed(s) && Monotone(score)
    requires SafeToHarvest(s, score, threshold)
    ensures Closed(HarvestStore(s, score, threshold))
  {
    var t := HarvestStore(s, score, threshold);
    forall b, a | b in t && t[b].status == INTERLOCKED && a in Parents(t[b].record)
      ensures Lookup(t, a).status == INTERLOCKED
    {
      HarvestAt(s, score, threshold, b);
      HarvestAt(s, score, threshold, a);
      if Lookup(s, a).status != INTERLOCKED {
        assert s[b].status != INTERLOCKED;
        assert Ripe(s, score, threshold, b);
        assert Records(s)[b] == s[b].record;
        ParentDescendants(Records(s), b, a);
        assert Lookup(s, b).descendants == TrueDescendants(Records(s), b);
        assert Lookup(s, a).descendants == TrueDescendants(Records(s), a);
        assert InOrder(score, s[b].descendants, s[a].descendants);
        assert Ripe(s, score, threshold, a);
      }
    }
  }

  /** A name no stored state uses, with a record under it that points at `b` alone. */
  lemma NewcomerAt(s: Store, b: Name) returns (r: Record)
    requires WellFormed(s) && b in s && s[b].status != INITIALIZED
    ensures ToStateName(r.name) !in s && !r.IsGenesis() && Parents(r) == {b}
  {
    var n := FreshName(s.Keys);
    r := Record(n, GENERIC_RECORD, [s[b].record.name], []);
    assert WellFormedState(s, b);
    assert r.pointers[0] == s[b].record.name;
  }

  /** The search from such a newcomer stops at `b` when `b` is interlocked. */
  lemma NewcomerFindsNothing(s: Store, r: Record, b: Name, a: Name)
    requires b in s && s[b].status == INTERLOCKED
    requires ToStateName(r.name) !in s && Parents(r) == {b}
    ensures !IsAncestor(Load(s, r), r, a)
  {
    if Reaches(Expandable(Load(s, r)), Parents(r), a) {
      ReachesStaysInside(Expandable(Load(s, r)), Parents(r), {b}, a);
    }
  }

  lemma NewcomerIsDescendant(recs: map<Name, Record>, x: Name, b: Name, a: Name)
    requires x in recs && !recs[x].IsGenesis() && b in Parents(recs[x])
    requires b in recs && a in Parents(recs[b])
    ensures x in TrueDescendants(recs, a)
  {
    ReachesStart(PointerGraph(recs), Parents(recs[x]), b);
    ReachesStep(PointerGraph(recs), Parents(recs[x]), b, a);
  }

  lemma NewcomerUnseen(s: Store, r: Record, b: Name, a: Name)
    requires WellFormed(s) && b in s && s[b].status == INTERLOCKED
    requires ToStateName(r.name) !in s && Parents(r) == {b}
    ensures ToStateName(r.name) !in Lookup(AddStore(s, r), a).descendants
  {
    var x := ToStateName(r.name);
    AddEffect(s, r, a);
    NewcomerFindsNothing(s, r, b, a);
    if a in s {
      assert WellFormedState(s, a);
    }
  }

  lemma NewcomerStops(s: Store, r: Record, b: Name, a: Name)
    requires WellFormed(s) && b in s && s[b].status == INTERLOCKED
    requires ToStateName(r.name) !in s && !r.IsGenesis() && Parents(r) == {b}
    requires a in Parents(s[b].record) && Lookup(s, a).status == INITIALIZED
    ensures !Exact(AddStore(s, r))
  {
    var x := ToStateName(r.name);
    var t := AddStore(s, r);
    AddRecords(s, r);
    NewcomerIsDescendant(Records(t), x, b, a);
    NewcomerUnseen(s, r, b, a);
    AddEffect(s, r, a);
  }

  /** Pruning at interlocked records loses nothing afterwards exactly when nothing just
      interlocked points at a missing record. */
  lemma PruningLosslessIff(s: Store, score: Score, threshold: nat)
    requires WellFormed(s) && Exact(s) && Closed(s) && Monotone(score)
    ensures SafeToHarvest(s, score, threshold) <==>
            forall r :: Exact(AddStore(HarvestStore(s, score, threshold), r))
  {
    var t := HarvestStore(s, score, threshold);
    HarvestWellFormed(s, score, threshold);
    HarvestKeepsExact(s, score, threshold);
    if SafeToHarvest(s, score, threshold) {
      SafeHarvestKeepsClosed(s, score, threshold);
      forall r ensures Exact(AddStore(t, r)) {
        AddKeepsExact(t, r);
      }
    } else {
      var b, a :| Ripe(s, score, threshold, b) && a in Parents(s[b].record) && Lookup(s, a).status == INITIALIZED;
      HarvestAt(s, score, threshold, b);
      HarvestAt(s, score, threshold, a);
      var r := NewcomerAt(t, b);
      NewcomerStops(t, r, b, a);
    }
  }

  // ----- Stores that hold the same records -----

  /** The stores agree at `n`, except on what an interlocked record had gathered. */
  ghost predicate AgreeAt(s: Store, t: Store, n: Name) {
    && (n in s <==> n in t)
    && Lookup(s, n).status == Lookup(t, n).status && Lookup(s, n).record == Lookup(t, n).record
    && (Lookup(s, n).status != INTERLOCKED ==> Lookup(s, n) == Lookup(t, n))
  }

  ghost predicate Agree(s: Store, t: Store) {
    forall n :: AgreeAt(s, t, n)
  }

  /** Exact stores with the same records, interlocked alike, differ at most in the
      descendants of interlocked records. */
  lemma ExactStoresAgree(s: Store, t: Store)
    requires WellFormed(s) && Exact(s) && WellFormed(t) && Exact(t)
    requires Records(s) == Records(t) && InterlockedNames(s) == InterlockedNames(t)
    ensures Agree(s, t)
  {
    var recs := Records(s);
    forall n ensures AgreeAt(s, t, n) {
      assert WellFormedState(s, n) && WellFormedState(t, n);
      assert n in InterlockedNames(s) <==> n in InterlockedNames(t);
      assert Lookup(s, n).status != INITIALIZED <==> n in recs;
      assert Lookup(t, n).status != INITIALIZED <==> n in Records(t);
      if n in recs {
        assert recs[n] == s[n].record && Records(t)[n] == t[n].record;
      }
      if Lookup(s, n).status != INTERLOCKED {
        assert Lookup(s, n).descendants == TrueDescendants(recs, n);
        assert Lookup(t, n).descendants == TrueDescendants(Records(t), n);
      }
    }
  }
}
