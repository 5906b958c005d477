/** What the interlock DAG keeps, stated on values: the store of edge states, what adding
    a record and harvesting do to it, and the descendants it is meant to know. */
module DagSpec {
  import opened Names
  import opened Reachability

  datatype Status = INITIALIZED | LOADED | INTERLOCKED

  datatype EdgeState = EdgeState(stateName: Name, status: Status, record: Record, descendants: set<Name>)

  type Store = map<Name, EdgeState>

  /** The pending state made for a name that is not stored yet. */
  function Pending(n: Name): EdgeState {
    EdgeState(n, INITIALIZED, Record(FromStateName(n), GENERIC_RECORD, [], []), {})
  }

  function Lookup(s: Store, n: Name): EdgeState {
    if n in s then s[n] else Pending(n)
  }

  // ----- The search graph: only LOADED states are expanded -----

  function Expandable(s: Store): map<Name, set<Name>> {
    map n | n in s && s[n].status == LOADED :: Parents(s[n].record)
  }

  ghost predicate IsAncestor(s: Store, r: Record, a: Name) {
    && Lookup(s, a).status != INTERLOCKED
    && Reaches(Expandable(s), Parents(r), a)
  }

  /** Every name that occurs as a pointer of `r` or of a stored record. */
  function Universe(s: Store, r: Record): set<Name> {
    Parents(r) + set n, p | n in s && p in Parents(s[n].record) :: p
  }

  ghost function Ancestors(s: Store, r: Record): set<Name> {
    set a | a in Universe(s, r) && IsAncestor(s, r, a)
  }

  lemma AncestorsComplete(s: Store, r: Record, a: Name)
    ensures a in Ancestors(s, r) <==> IsAncestor(s, r, a)
  {
    if IsAncestor(s, r, a) {
      ReachesTarget(Expandable(s), Parents(r), a);
    }
  }

  // ----- The two transitions of the store -----

  /** The records whose ancestors are searched when `x` loads: `x` itself and everything
      already known to point at it, genesis records excepted. */
  function Sources(s: Store, x: Name): set<Name> {
    set d | d in {x} + Lookup(s, x).descendants && !Lookup(s, d).record.IsGenesis()
  }

  /** The members of `from` that have `a` as an ancestor. */
  ghost function Reaching(s: Store, from: set<Name>, a: Name): set<Name> {
    set d | d in from && IsAncestor(s, Lookup(s, d).record, a)
  }

  ghost function Reached(s: Store, from: set<Name>): set<Name> {
    set d, a | d in from && a in Ancestors(s, Lookup(s, d).record) :: a
  }

  /** Every ancestor of a member of `from` gains that member as a descendant; ancestors
      not stored yet become pending states. */
  ghost function Spread(s: Store, from: set<Name>): Store {
    map n | n in s.Keys + Reached(s, from) ::
      Lookup(s, n).(descendants := Lookup(s, n).descendants + Reaching(s, from, n))
  }

  function Load(s: Store, r: Record): Store {
    var x := ToStateName(r.name);
    s[x := Lookup(s, x).(status := LOADED, record := r)]
  }

  ghost function AddStore(s: Store, r: Record): Store {
    var x := ToStateName(r.name);
    if Lookup(s, x).status != INITIALIZED then s
    else Spread(Load(s, r), Sources(Load(s, r), x))
  }

  /** Policies see a state only through its descendants. */
  type Score = set<Name> -> nat

  /** More descendants never score less. */
  ghost predicate Monotone(score: Score) {
    forall d, e :: InOrder(score, d, e)
  }

  predicate InOrder(score: Score, d: set<Name>, e: set<Name>) {
    d <= e ==> score(d) <= score(e)
  }

  predicate Ripe(s: Store, score: Score, threshold: nat, n: Name) {
    n in s && s[n].status == LOADED && score(s[n].descendants) >= threshold
  }

  function HarvestStore(s: Store, score: Score, threshold: nat): Store {
    map n | n in s ::
      if Ripe(s, score, threshold, n) then s[n].(status := INTERLOCKED) else s[n]
  }

  // ----- Well-formed stores -----

  ghost predicate WellFormedState(s: Store, n: Name) {
    n in s ==>
    && s[n].stateName == n
    && (s[n].status == INITIALIZED ==> s[n].record == Pending(n).record && s[n].descendants != {})
    && (s[n].status != INITIALIZED ==> ToStateName(s[n].record.name) == n)
    && forall d :: d in s[n].descendants ==>
         d in s && s[d].status != INITIALIZED && !s[d].record.IsGenesis()
  }

  ghost predicate WellFormed(s: Store) {
    forall n :: WellFormedState(s, n)
  }

  // ----- What the descendants are meant to be -----

  /** The records held, by state name. */
  function Records(s: Store): map<Name, Record> {
    map n | n in s && s[n].status != INITIALIZED :: s[n].record
  }

  function PointerGraph(recs: map<Name, Record>): map<Name, set<Name>> {
    map n | n in recs :: Parents(recs[n])
  }

  /** `d` is a held non-genesis record from which pointers lead, through held records, to `a`. */
  ghost predicate IsDescendant(recs: map<Name, Record>, d: Name, a: Name) {
    d in recs && !recs[d].IsGenesis() && Reaches(PointerGraph(recs), Parents(recs[d]), a)
  }

  ghost function TrueDescendants(recs: map<Name, Record>, a: Name): set<Name> {
    set d | d in recs && IsDescendant(recs, d, a)
  }

  /** No false descendants. */
  ghost predicate Sound(s: Store) {
    forall n :: SoundAt(s, n)
  }

  ghost predicate SoundAt(s: Store, n: Name) {
    n in s ==> s[n].descendants <= TrueDescendants(Records(s), n)
  }

  /** Every state that is not interlocked, and every absent one, has exactly its true descendants. */
  ghost predicate Exact(s: Store) {
    forall n :: Lookup(s, n).status != INTERLOCKED ==>
      Lookup(s, n).descendants == TrueDescendants(Records(s), n)
  }

  /** An interlocked record points at interlocked records only. */
  ghost predicate Closed(s: Store) {
    forall b, a :: b in s && s[b].status == INTERLOCKED && a in Parents(s[b].record) ==>
      Lookup(s, a).status == INTERLOCKED
  }

  // ----- One step keeps a store well formed -----

  lemma LoadKeepsRecords(s: Store, r: Record)
    requires WellFormed(s)
    requires Lookup(s, ToStateName(r.name)).status == INITIALIZED
    ensures Records(Load(s, r)) == Records(s)[ToStateName(r.name) := r]
  {
  }

  lemma ReachedBy(s: Store, from: set<Name>, n: Name)
    ensures n in Reached(s, from) <==> Reaching(s, from, n) != {}
  {
    if n in Reached(s, from) {
      var d :| d in from && n in Ancestors(s, Lookup(s, d).record);
      AncestorsComplete(s, Lookup(s, d).record, n);
      assert d in Reaching(s, from, n);
    }
    if Reaching(s, from, n) != {} {
      var d :| d in Reaching(s, from, n);
      AncestorsComplete(s, Lookup(s, d).record, n);
    }
  }

  /** `Spread` seen at one name. */
  lemma SpreadAt(s: Store, from: set<Name>, n: Name)
    ensures Lookup(Spread(s, from), n) ==
            Lookup(s, n).(descendants := Lookup(s, n).descendants + Reaching(s, from, n))
    ensures n in Spread(s, from) <==> n in s || Reaching(s, from, n) != {}
    ensures Lookup(s, n).status == INTERLOCKED ==> Reaching(s, from, n) == {}
  {
    ReachedBy(s, from, n);
    var e := Lookup(s, n).descendants;
    assert e + {} == e;
  }

  /** Stores that agree on status and record everywhere hold the same records and search
      the same graph. */
  lemma SameShape(s: Store, t: Store)
    requires forall n :: Lookup(t, n).status == Lookup(s, n).status
    requires forall n :: Lookup(t, n).record == Lookup(s, n).record
    ensures Records(t) == Records(s)
    ensures Expandable(t) == Expandable(s)
  {
    forall n ensures n in Records(t) <==> n in Records(s) {
      assert Lookup(t, n).status == Lookup(s, n).status;
    }
    forall n | n in Records(s) ensures Records(t)[n] == Records(s)[n] {
      assert Lookup(t, n).record == Lookup(s, n).record;
    }
    forall n ensures n in Expandable(t) <==> n in Expandable(s) {
      assert Lookup(t, n).status == Lookup(s, n).status;
    }
    forall n | n in Expandable(s) ensures Expandable(t)[n] == Expandable(s)[n] {
      assert Lookup(t, n).record == Lookup(s, n).record;
    }
  }

  lemma SpreadKeeps(s: Store, from: set<Name>)
    ensures Records(Spread(s, from)) == Records(s)
    ensures Expandable(Spread(s, from)) == Expandable(s)
  {
    var t := Spread(s, from);
    forall n ensures Lookup(t, n).status == Lookup(s, n).status && Lookup(t, n).record == Lookup(s, n).record {
      SpreadAt(s, from, n);
    }
    SameShape(s, t);
  }

  /** What an accepted record changes: its own state loads, and each state not interlocked
      gains the sources that reach it. */
  lemma AddEffect(s: Store, r: Record, n: Name)
    requires Lookup(s, ToStateName(r.name)).status == INITIALIZED
    ensures var x := ToStateName(r.name); var s1 := Load(s, r); var t := AddStore(s, r);
      && Lookup(t, n).status == (if n == x then LOADED else Lookup(s, n).status)
      && Lookup(t, n).record == (if n == x then r else Lookup(s, n).record)
      && Lookup(t, n).descendants == Lookup(s, n).descendants + Reaching(s1, Sources(s1, x), n)
      && (Lookup(s, n).status == INTERLOCKED ==> Lookup(t, n) == Lookup(s, n))
      && (n in t <==> n in s || n == x || Lookup(t, n).descendants != {})
  {
    var x := ToStateName(r.name);
    var s1 := Load(s, r);
    SpreadAt(s1, Sources(s1, x), n);
  }

  /** A record whose name is held already changes nothing, whatever it holds. */
  lemma DuplicateChangesNothing(s: Store, r: Record, q: Record)
    requires Lookup(s, ToStateName(q.name)).status != INITIALIZED || q.name == r.name
    ensures AddStore(AddStore(s, r), q) == AddStore(s, r)
  {
    var x := ToStateName(r.name);
    if Lookup(s, x).status == INITIALIZED {
      AddEffect(s, r, ToStateName(q.name));
    }
  }

  lemma AddRecords(s: Store, r: Record)
    requires WellFormed(s)
    ensures Records(AddStore(s, r)) ==
            if ToStateName(r.name) in Records(s) then Records(s)
            else Records(s)[ToStateName(r.name) := r]
  {
    if Lookup(s, ToStateName(r.name)).status == INITIALIZED {
      var s1 := Load(s, r);
      LoadKeepsRecords(s, r);
      SpreadKeeps(s1, Sources(s1, ToStateName(r.name)));
    }
  }

  lemma AddWellFormed(s: Store, r: Record)
    requires WellFormed(s)
    ensures WellFormed(AddStore(s, r))
  {
    var x := ToStateName(r.name);
    if Lookup(s, x).status == INITIALIZED {
      var s1 := Load(s, r);
      var t := AddStore(s, r);
      forall n | n in t ensures WellFormedState(t, n) {
        assert WellFormedState(s, n);
        AddEffect(s, r, n);
        forall d | d in t[n].descendants
          ensures d in t && t[d].status != INITIALIZED && !t[d].record.IsGenesis()
        {
          AddEffect(s, r, d);
          if d !in Lookup(s, n).descendants {
            SourceIsLoaded(s, r, d);
          }
        }
      }
    }
  }

  /** A source is the record that loads, or a loaded one that was waiting for it. */
  lemma SourceIsLoaded(s: Store, r: Record, d: Name)
    requires WellFormed(s) && d in Sources(Load(s, r), ToStateName(r.name))
    ensures d == ToStateName(r.name) || (d in s && s[d].status != INITIALIZED)
    ensures !Lookup(Load(s, r), d).record.IsGenesis()
  {
    assert WellFormedState(s, ToStateName(r.name));
  }

  lemma HarvestAt(s: Store, score: Score, threshold: nat, n: Name)
    ensures Lookup(HarvestStore(s, score, threshold), n) ==
            if Ripe(s, score, threshold, n) then Lookup(s, n).(status := INTERLOCKED) else Lookup(s, n)
    ensures n in HarvestStore(s, score, threshold) <==> n in s
  {
  }

  lemma HarvestRecords(s: Store, score: Score, threshold: nat)
    ensures Records(HarvestStore(s, score, threshold)) == Records(s)
  {
    var t := HarvestStore(s, score, threshold);
    forall n ensures n in Records(t) <==> n in Records(s) {
      HarvestAt(s, score, threshold, n);
    }
    forall n | n in Records(s) ensures Records(t)[n] == Records(s)[n] {
      HarvestAt(s, score, threshold, n);
    }
  }

  lemma HarvestWellFormed(s: Store, score: Score, threshold: nat)
    requires WellFormed(s)
    ensures WellFormed(HarvestStore(s, score, threshold))
  {
    var t := HarvestStore(s, score, threshold);
    forall n | n in t ensures WellFormedState(t, n) {
      assert WellFormedState(s, n);
      HarvestAt(s, score, threshold, n);
      forall d | d in t[n].descendants
        ensures d in t && t[d].status != INITIALIZED && !t[d].record.IsGenesis()
      {
        HarvestAt(s, score, threshold, d);
      }
    }
  }
}
