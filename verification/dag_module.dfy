/** The DAG engine: edge states read, modified and written back one at a time, and a
    waitlist that buckets states by policy score. Every method is tied to the store
    transitions of DagSpec; the waitlist is tied to the store by an index invariant. */
module DagModule {
  import opened Names
  import opened Reachability
  import opened Sets
  import opened DagSpec

  type Waitlist = map<nat, set<Name>>

  function Bucket(waitlist: Waitlist, k: nat): set<Name> {
    if k in waitlist then waitlist[k] else {}
  }

  /** Outside `dirty`, a bucket lists only stored states of its score, and every state that
      is not interlocked is listed under its score. */
  ghost predicate IndexedExcept(s: Store, score: Score, waitlist: Waitlist, dirty: set<Name>) {
    && (forall k, n :: n in Bucket(waitlist, k) && n !in dirty ==> n in s && score(s[n].descendants) == k)
    && (forall n :: n in s && n !in dirty && s[n].status != INTERLOCKED ==>
          n in Bucket(waitlist, score(s[n].descendants)))
  }

  ghost predicate Indexed(s: Store, score: Score, waitlist: Waitlist) {
    IndexedExcept(s, score, waitlist, {})
  }

  /** No interlocked state is listed. */
  ghost predicate Tidy(s: Store, waitlist: Waitlist) {
    forall k, n :: n in Bucket(waitlist, k) ==> Lookup(s, n).status != INTERLOCKED
  }

  /** The waitlist lists the same interlocked states as before, in the same buckets. */
  ghost predicate SameInterlocked(s: Store, before: Waitlist, after: Waitlist) {
    forall k, n :: Lookup(s, n).status == INTERLOCKED ==> (n in Bucket(before, k) <==> n in Bucket(after, k))
  }

  /** `waitlist` with `n` moved to bucket `k`, seen bucket by bucket. */
  ghost predicate Moved(before: Waitlist, after: Waitlist, n: Name, k: nat) {
    forall j :: Bucket(after, j) == if j == k then Bucket(before, j) + {n} else Bucket(before, j) - {n}
  }

  /** The names `gone` left every bucket. */
  ghost predicate Harvested(before: Waitlist, after: Waitlist, gone: set<Name>) {
    forall k :: Bucket(after, k) == Bucket(before, k) - gone
  }

  /** Store after the search from a record named `me` visited `seen`: what was pending
      among them now lists `me`. */
  function Marked(s: Store, me: Name, seen: set<Name>): Store {
    map n | n in s.Keys + seen ::
      if n in seen && Lookup(s, n).status == INITIALIZED
      then Lookup(s, n).(descendants := Lookup(s, n).descendants + {me})
      else Lookup(s, n)
  }

  /** Store after `me` became a descendant of everything in `some`. */
  function Noted(s: Store, me: Name, some: set<Name>): Store {
    map n | n in s.Keys + some ::
      if n in some then Lookup(s, n).(descendants := Lookup(s, n).descendants + {me}) else s[n]
  }

  function Waiting(s: Store, names: set<Name>): set<Name> {
    set d | d in names && !Lookup(s, d).record.IsGenesis()
  }

  lemma NamedAfterLoad(s: Store, state: EdgeState)
    requires Named(s)
    ensures Named(s[state.stateName := state])
  {
  }

  lemma SourcesSplit(s: Store, x: Name)
    requires x in s
    ensures Sources(s, x) == (if s[x].record.IsGenesis() then {} else {x}) + Waiting(s, s[x].descendants)
  {
  }

  lemma WaitingNone(s: Store, names: set<Name>, before: set<Name>)
    ensures before == before + Waiting(s, names - names)
  {
    assert Waiting(s, names - names) == {};
  }

  lemma WaitingStep(s: Store, names: set<Name>, todo: set<Name>, before: set<Name>, d: Name)
    requires d in todo && todo <= names
    ensures before + Waiting(s, names - (todo - {d})) ==
            before + Waiting(s, names - todo) + (if Lookup(s, d).record.IsGenesis() then {} else {d})
  {
  }

  ghost predicate Named(s: Store) {
    forall n :: n in s ==> s[n].stateName == n
  }

  // ----- The breadth-first search for ancestors -----

  /** Frontier names are expandable ancestors. */
  ghost predicate Queued(s: Store, ancestors: seq<Name>, frontier: seq<Name>) {
    forall f :: f in frontier ==> f in ancestors && Lookup(s, f).status == LOADED
  }

  /** ... and every expandable ancestor is queued. */
  ghost predicate Fronted(s: Store, ancestors: seq<Name>, frontier: seq<Name>) {
    && Queued(s, ancestors, frontier)
    && forall a :: a in ancestors && Lookup(s, a).status == LOADED ==> a in frontier
  }

  lemma FrontedOneMore(s: Store, ancestors: seq<Name>, frontier: seq<Name>, p: Name)
    requires Fronted(s, ancestors, frontier) && Lookup(s, p).status != INTERLOCKED
    ensures Fronted(s, ancestors + [p], if Lookup(s, p).status == INITIALIZED then frontier else frontier + [p])
  {
  }

  /** A list extended by new names, if at all. */
  ghost predicate Grown(before: seq<Name>, after: seq<Name>) {
    before <= after && (after == before || Elements(before) < Elements(after))
  }

  ghost predicate CoveredUpTo(s: Store, seen: set<Name>, pointers: seq<Name>, k: nat)
    requires k <= |pointers|
  {
    forall j :: 0 <= j < k ==>
      ToStateName(pointers[j]) in seen || Lookup(s, ToStateName(pointers[j])).status == INTERLOCKED
  }

  lemma CoveredOneMore(s: Store, seen: set<Name>, pointers: seq<Name>, k: nat)
    requires k < |pointers| && CoveredUpTo(s, seen, pointers, k)
    ensures var p := ToStateName(pointers[k]);
      CoveredUpTo(s, if Lookup(s, p).status == INTERLOCKED then seen else seen + {p}, pointers, k + 1)
  {
  }

  /** `list` ends with `tail` back to front. */
  ghost predicate EndsReversed(list: seq<Name>, tail: seq<Name>) {
    |tail| <= |list| && forall i :: 0 <= i < |tail| ==> list[|list| - 1 - i] == tail[i]
  }

  /** Every pointer of `r` is among `seen`, or stops at an interlocked state. */
  ghost predicate Covered(s: Store, seen: set<Name>, r: Record) {
    forall p :: p in Parents(r) ==> p in seen || Lookup(s, p).status == INTERLOCKED
  }

  /** The targets that are not interlocked, in order and with duplicates. */
  function OpenTargets(s: Store, pointers: seq<Name>): seq<Name> {
    if pointers == [] then []
    else
      var p := ToStateName(pointers[|pointers| - 1]);
      OpenTargets(s, pointers[..|pointers| - 1]) + (if Lookup(s, p).status == INTERLOCKED then [] else [p])
  }

  lemma OpenTargetsStep(s: Store, pointers: seq<Name>, i: nat)
    requires i < |pointers|
    ensures var p := ToStateName(pointers[i]);
      OpenTargets(s, pointers[..i + 1]) ==
      OpenTargets(s, pointers[..i]) + (if Lookup(s, p).status == INTERLOCKED then [] else [p])
  {
    assert pointers[..i + 1][..i] == pointers[..i];
  }

  ghost predicate Expanded(s: Store, seen: set<Name>, a: Name) {
    a in s && s[a].status == LOADED ==> Covered(s, seen, s[a].record)
  }

  /** Reading a pointer's state, and marking it when it is pending, extends what is marked. */
  lemma MarkedVisit(s: Store, me: Name, seen: set<Name>, p: Name)
    ensures var m := Marked(s, me, seen);
      && Lookup(m, p).status == Lookup(s, p).status && Lookup(m, p).record == Lookup(s, p).record
      && Lookup(m, p).stateName == Lookup(s, p).stateName
      && (Lookup(s, p).status == INTERLOCKED ==> m[p := Lookup(m, p)] == m)
      && (Lookup(s, p).status == LOADED ==> m[p := Lookup(m, p)] == Marked(s, me, seen + {p}))
      && (Lookup(s, p).status == INITIALIZED ==>
            m[p := Lookup(m, p).(descendants := Lookup(m, p).descendants + {me})] == Marked(s, me, seen + {p}))
  {
  }

  /** A set of found names that covers the start and is fully expanded is the whole answer. */
  lemma SearchComplete(s: Store, r: Record, seen: set<Name>)
    requires seen <= Ancestors(s, r)
    requires Covered(s, seen, r)
    requires forall a :: a in seen ==> Expanded(s, seen, a)
    ensures seen == Ancestors(s, r)
  {
    forall a | a in Ancestors(s, r) ensures a in seen {
      var locked := set n | n in s && s[n].status == INTERLOCKED;
      ReachesStaysInside(Expandable(s), Parents(r), seen + locked, a);
    }
  }

  /** The ancestors cover the record's pointers and are closed under expansion. */
  lemma AncestorsClosed(s: Store, r: Record)
    ensures Covered(s, Ancestors(s, r), r)
    ensures forall a :: a in Ancestors(s, r) ==> Expanded(s, Ancestors(s, r), a)
  {
    forall p | p in Parents(r) && Lookup(s, p).status != INTERLOCKED ensures p in Ancestors(s, r) {
      ReachesStart(Expandable(s), Parents(r), p);
      AncestorsComplete(s, r, p);
    }
    forall a, p | a in Ancestors(s, r) && a in s && s[a].status == LOADED && p in Parents(s[a].record)
                  && Lookup(s, p).status != INTERLOCKED
      ensures p in Ancestors(s, r)
    {
      ReachesStep(Expandable(s), Parents(r), a, p);
      AncestorsComplete(s, r, p);
    }
  }

  class DagModule {
    const score: Score
    var store: Store
    var waitlist: Waitlist

    constructor (score: Score)
      ensures this.score == score && store == map[] && waitlist == map[]
    {
      this.score := score;
      store := map[];
      waitlist := map[];
    }

    ghost predicate Valid()
      reads this
    {
      WellFormed(store) && Indexed(store, score, waitlist)
    }

    /** The stored state; a name seen for the first time is stored as pending. */
    method GetOrConstruct(n: Name) returns (state: EdgeState)
      modifies this`store
      ensures state == Lookup(old(store), n)
      ensures store == old(store)[n := state]
    {
      if n in store {
        state := store[n];
        assert store == store[n := state];
      } else {
        state := Pending(n);
        store := store[n := state];
      }
    }

    method Update(state: EdgeState)
      requires state.stateName in store
      modifies this`store
      ensures store == old(store)[state.stateName := state]
    {
      store := map n | n in store && n != state.stateName :: store[n];
      store := store[state.stateName := state];
    }

    /** Takes the state out of every bucket and puts it in the one of its score; an
        interlocked state is left where it is. */
    method EvaluateWaitlist(state: EdgeState)
      modifies this`waitlist
      ensures state.status == INTERLOCKED ==> waitlist == old(waitlist)
      ensures state.status != INTERLOCKED ==>
        Moved(old(waitlist), waitlist, state.stateName, score(state.descendants))
    {
      if state.status == INTERLOCKED {
        return;
      }
      var todo := waitlist.Keys;
      while todo != {}
        invariant waitlist.Keys == old(waitlist).Keys && todo <= waitlist.Keys
        invariant forall j :: j in waitlist ==>
          waitlist[j] == if j in todo then old(waitlist)[j] else old(waitlist)[j] - {state.stateName}
      {
        var k :| k in todo;
        waitlist := waitlist[k := waitlist[k] - {state.stateName}];
        todo := todo - {k};
      }
      var k := score(state.descendants);
      waitlist := waitlist[k := Bucket(waitlist, k) + {state.stateName}];
    }

    /** Re-reads bucket `k`, creating it when it is missing. */
    method GetWaitList(k: nat) returns (names: set<Name>)
      modifies this`waitlist
      ensures names == Bucket(old(waitlist), k)
      ensures forall j :: Bucket(waitlist, j) == Bucket(old(waitlist), j)
    {
      if k !in waitlist {
        waitlist := waitlist[k := {}];
      }
      names := waitlist[k];
    }

    /** Reads the state a pointer leads to, marking it with `me` when it is pending. */
    method VisitParent(me: Name, p: Name, ghost seen: set<Name>, ghost s: Store) returns (parent: EdgeState)
      requires Named(s) && store == Marked(s, me, seen)
      modifies this`store
      ensures parent.stateName == p && parent.status == Lookup(s, p).status && parent.record == Lookup(s, p).record
      ensures store == Marked(s, me, if parent.status == INTERLOCKED then seen else seen + {p})
    {
      MarkedVisit(s, me, seen, p);
      parent := GetOrConstruct(p);
      if parent.status == INITIALIZED {
        parent := parent.(descendants := parent.descendants + {me});
        Update(parent);
      }
    }

    /** The names of all states not interlocked that the record reaches through loaded ones,
        found round by round until a round adds none. Pending ones are marked on the way. */
    method GetAncestors(state: EdgeState) returns (ret: seq<Name>)
      requires Named(store)
      modifies this`store
      ensures Elements(ret) == Ancestors(old(store), state.record)
      ensures store == Marked(old(store), state.stateName, Ancestors(old(store), state.record))
      ensures EndsReversed(ret, OpenTargets(old(store), state.record.pointers))
    {
      ghost var s := store;
      ghost var goal := Ancestors(s, state.record);
      AncestorsClosed(s, state.record);
      var ancestors, frontier := FirstRound(state, goal);
      ghost var own := ancestors;
      var prevAncestors, currAncestors := 0, |ancestors|;
      while currAncestors > prevAncestors
        invariant currAncestors == |ancestors|
        invariant store == Marked(s, state.stateName, Elements(ancestors))
        invariant own <= ancestors && Elements(ancestors) <= goal
        invariant Covered(s, Elements(ancestors), state.record)
        invariant Queued(s, ancestors, frontier)
        invariant forall a :: a in ancestors ==> a in frontier || Expanded(s, Elements(ancestors), a)
        invariant currAncestors <= prevAncestors ==>
          forall a :: a in ancestors ==> Expanded(s, Elements(ancestors), a)
        decreases goal - Elements(ancestors), if currAncestors > prevAncestors then 1 else 0
      {
        ghost var before := ancestors;
        var nextFrontier;
        ancestors, nextFrontier := Round(state.stateName, ancestors, frontier, goal, s);
        RoundProgress(s, state.record, before, ancestors, frontier, nextFrontier);
        prevAncestors := currAncestors;
        currAncestors := |ancestors|;
        frontier := nextFrontier;
      }
      SearchComplete(s, state.record, Elements(ancestors));
      ret := Reversed(ancestors);
    }

    /** What was found last comes first. */
    method Reversed(list: seq<Name>) returns (ret: seq<Name>)
      ensures |ret| == |list| && forall i :: 0 <= i < |list| ==> ret[i] == list[|list| - 1 - i]
      ensures Elements(ret) == Elements(list)
    {
      ret := [];
      for i := 0 to |list|
        invariant |ret| == i && forall j :: 0 <= j < i ==> ret[j] == list[i - 1 - j]
      {
        ret := [list[i]] + ret;
      }
      forall a | a in list ensures a in ret {
        var i :| 0 <= i < |list| && list[i] == a;
        assert ret[|list| - 1 - i] == a;
      }
    }

    /** The record's own pointers; unlike later rounds this one keeps duplicates. */
    method FirstRound(state: EdgeState, ghost goal: set<Name>) returns (ancestors: seq<Name>, frontier: seq<Name>)
      requires Named(store) && Covered(store, goal, state.record)
      modifies this`store
      ensures store == Marked(old(store), state.stateName, Elements(ancestors))
      ensures ancestors == OpenTargets(old(store), state.record.pointers)
      ensures Elements(ancestors) <= goal
      ensures Covered(old(store), Elements(ancestors), state.record)
      ensures Queued(old(store), ancestors, frontier)
      ensures forall a :: a in ancestors && Lookup(old(store), a).status == LOADED ==> a in frontier
    {
      ghost var s := store;
      ancestors, frontier := [], [];
      assert s == Marked(s, state.stateName, {});
      var pointers := state.record.pointers;
      for i := 0 to |pointers|
        invariant store == Marked(s, state.stateName, Elements(ancestors))
        invariant ancestors == OpenTargets(s, pointers[..i])
        invariant Elements(ancestors) <= goal
        invariant CoveredUpTo(s, Elements(ancestors), pointers, i)
        invariant Fronted(s, ancestors, frontier)
      {
        var p := ToStateName(pointers[i]);
        assert p in Parents(state.record);
        OpenTargetsStep(s, pointers, i);
        var parent := VisitParent(state.stateName, p, Elements(ancestors), s);
        CoveredOneMore(s, Elements(ancestors), pointers, i);
        if parent.status != INTERLOCKED {
          Push(ancestors, p);
          FrontedOneMore(s, ancestors, frontier, p);
          ancestors := ancestors + [parent.stateName];
          if parent.status != INITIALIZED {
            frontier := frontier + [parent.stateName];
          }
        }
      }
      assert pointers[..|pointers|] == pointers;
    }

    /** One round: follows the pointers of every frontier name. */
    method Round(me: Name, known: seq<Name>, frontier: seq<Name>, ghost goal: set<Name>, ghost s: Store)
      returns (ancestors: seq<Name>, nextFrontier: seq<Name>)
      requires Named(s) && store == Marked(s, me, Elements(known))
      requires Elements(known) <= goal && forall a :: a in goal ==> Expanded(s, goal, a)
      requires Queued(s, known, frontier)
      modifies this`store
      ensures store == Marked(s, me, Elements(ancestors))
      ensures Elements(ancestors) <= goal
      ensures Grown(known, ancestors)
      ensures forall f :: f in frontier ==> Expanded(s, Elements(ancestors), f)
      ensures Queued(s, ancestors, nextFrontier)
      ensures forall a :: a in ancestors && Lookup(s, a).status == LOADED ==> a in known || a in nextFrontier
    {
      ancestors, nextFrontier := known, [];
      for i := 0 to |frontier|
        invariant store == Marked(s, me, Elements(ancestors))
        invariant Elements(ancestors) <= goal
        invariant Grown(known, ancestors)
        invariant forall j :: 0 <= j < i ==> Expanded(s, Elements(ancestors), frontier[j])
        invariant Queued(s, ancestors, nextFrontier)
        invariant forall a :: a in ancestors && Lookup(s, a).status == LOADED ==> a in known || a in nextFrontier
      {
        ghost var mid := ancestors;
        ancestors, nextFrontier := Expand(me, frontier[i], ancestors, nextFrontier, goal, s);
        assert Elements(mid) <= Elements(ancestors);
      }
    }

    /** Follows the pointers of one loaded name. */
    method Expand(me: Name, f: Name, known: seq<Name>, queued: seq<Name>, ghost goal: set<Name>, ghost s: Store)
      returns (ancestors: seq<Name>, nextFrontier: seq<Name>)
      requires Named(s) && store == Marked(s, me, Elements(known))
      requires Elements(known) <= goal && Expanded(s, goal, f)
      requires f in known && Lookup(s, f).status == LOADED
      requires Queued(s, known, queued)
      modifies this`store
      ensures store == Marked(s, me, Elements(ancestors))
      ensures Elements(ancestors) <= goal
      ensures Grown(known, ancestors) && queued <= nextFrontier
      ensures Expanded(s, Elements(ancestors), f)
      ensures Queued(s, ancestors, nextFrontier)
      ensures forall a :: a in ancestors && Lookup(s, a).status == LOADED ==> a in known || a in nextFrontier
    {
      ancestors, nextFrontier := known, queued;
      MarkedVisit(s, me, Elements(known), f);
      assert f in Elements(known);
      var expanded := GetOrConstruct(f);
      var pointers := expanded.record.pointers;
      for i := 0 to |pointers|
        invariant store == Marked(s, me, Elements(ancestors))
        invariant Elements(ancestors) <= goal
        invariant Grown(known, ancestors) && queued <= nextFrontier
        invariant CoveredUpTo(s, Elements(ancestors), pointers, i)
        invariant Queued(s, ancestors, nextFrontier)
        invariant forall a :: a in ancestors && Lookup(s, a).status == LOADED ==> a in known || a in nextFrontier
      {
        var p := ToStateName(pointers[i]);
        assert p in Parents(s[f].record);
        var parent := VisitParent(me, p, Elements(ancestors), s);
        var hasSeen := Seen(ancestors, parent.stateName);
        Push(ancestors, p);
        CoveredOneMore(s, Elements(ancestors), pointers, i);
        if !hasSeen && parent.status != INTERLOCKED {
          ancestors := ancestors + [parent.stateName];
        }
        if parent.status == LOADED {
          nextFrontier := nextFrontier + [parent.stateName];
        }
      }
    }

    /** One step of the loop below: `a` gains a descendant and is re-evaluated. */
    method NoteDescendant(me: Name, a: Name, ghost dirty: set<Name>)
      requires IndexedExcept(store, score, waitlist, dirty)
      requires Lookup(store, a).status != INTERLOCKED && Lookup(store, a).stateName == a
      modifies this
      ensures store == old(store)[a := Lookup(old(store), a).(descendants := Lookup(old(store), a).descendants + {me})]
      ensures IndexedExcept(store, score, waitlist, dirty - {a})
      ensures SameInterlocked(old(store), old(waitlist), waitlist)
    {
      ghost var before, listed := store, waitlist;
      var aState := GetOrConstruct(a);
      aState := aState.(descendants := aState.descendants + {me});
      Update(aState);
      EvaluateWaitlist(aState);
      IndexStep(before, score, listed, dirty, aState, waitlist);
      MovedKeepsInterlocked(before, listed, listed, waitlist, a, score(aState.descendants));
    }

    /** `me` becomes a descendant of each listed name, and each is re-evaluated. */
    method NoteDescendants(me: Name, ancestors: seq<Name>)
      requires IndexedExcept(store, score, waitlist, Elements(ancestors))
      requires forall a :: a in ancestors ==>
        Lookup(store, a).status != INTERLOCKED && Lookup(store, a).stateName == a
      modifies this
      ensures store == Noted(old(store), me, Elements(ancestors))
      ensures Indexed(store, score, waitlist)
      ensures SameInterlocked(old(store), old(waitlist), waitlist)
    {
      ghost var s, first, goal := store, waitlist, Elements(ancestors);
      ghost var done: set<Name> := {};
      NotedNothing(s, me);
      assert goal - done == goal;
      for i := 0 to |ancestors|
        invariant forall n :: n in done <==> n in ancestors[..i]
        invariant store == Noted(s, me, done)
        invariant IndexedExcept(store, score, waitlist, goal - done)
        invariant SameInterlocked(s, first, waitlist)
      {
        var a := ancestors[i];
        NotedStep(s, me, done, a);
        NotedSameInterlocked(s, me, done);
        ghost var before, listed := store, waitlist;
        NoteDescendant(me, a, goal - done);
        InterlockedStep(s, before, first, listed, waitlist);
        assert goal - done - {a} == goal - (done + {a});
        done := done + {a};
      }
      assert done == goal && goal - done == {};
    }

    /** The state becomes a descendant of each of its ancestors, and each is re-evaluated. */
    method EvaluateAncestors(state: EdgeState)
      requires Named(store) && Indexed(store, score, waitlist)
      modifies this
      ensures store == Noted(old(store), state.stateName, Ancestors(old(store), state.record))
      ensures Indexed(store, score, waitlist)
      ensures SameInterlocked(store, old(waitlist), waitlist)
    {
      ghost var s, first, me := store, waitlist, state.stateName;
      var ancestors := GetAncestors(state);
      ghost var goal := Elements(ancestors);
      ghost var marked := store;
      AncestorsOpen(s, state.record);
      MarkedIndexed(s, score, waitlist, me, goal);
      forall a | a in ancestors
        ensures Lookup(marked, a).status != INTERLOCKED && Lookup(marked, a).stateName == a
      {
        assert a in goal;
        MarkedAt(s, me, goal, a);
      }
      NoteDescendants(state.stateName, ancestors);
      NotedMarked(s, me, goal);
      NotedSameInterlocked(marked, me, goal);
      InterlockedStep(store, marked, first, first, waitlist);
    }

    /** The first half of a load: the state is stored as loaded and listed. */
    method StoreLoaded(state: EdgeState)
      requires state.stateName in store && store[state.stateName].status != INTERLOCKED
      requires state.status == LOADED
      requires IndexedExcept(store, score, waitlist, {state.stateName})
      modifies this
      ensures store == old(store)[state.stateName := state]
      ensures Indexed(store, score, waitlist)
      ensures SameInterlocked(store, old(waitlist), waitlist)
    {
      ghost var before, first := store, waitlist;
      Update(state);
      EvaluateWaitlist(state);
      IndexStep(before, score, first, {state.stateName}, state, waitlist);
      assert {state.stateName} - {state.stateName} == {};
      MovedKeepsInterlocked(store, first, first, waitlist, state.stateName, score(state.descendants));
    }

    /** A pending state loads; then it and everything that was waiting behind it have
        their ancestors searched. */
    method OnNewRecord(newState: EdgeState)
      requires Named(store) && newState.stateName in store
      requires store[newState.stateName].status != INTERLOCKED
      requires newState.descendants <= store.Keys && newState.stateName !in newState.descendants
      requires IndexedExcept(store, score, waitlist, {newState.stateName})
      modifies this
      ensures var s1 := old(store)[newState.stateName := newState.(status := LOADED)];
        store == Spread(s1, Sources(s1, newState.stateName))
      ensures Indexed(store, score, waitlist)
      ensures SameInterlocked(store, old(waitlist), waitlist)
    {
      var state := newState.(status := LOADED);
      ghost var x, first := state.stateName, waitlist;
      StoreLoaded(state);
      ghost var s1 := store;
      SpreadNothing(s1);
      ghost var done: set<Name> := {};
      if !state.record.IsGenesis() {
        done := Resolve(state, done, s1, first);
        assert done == {x};
      }
      NamedAfterLoad(old(store), state);
      done := ResolvePending(state.descendants, done, s1, first);
      SourcesSplit(s1, x);
      SpreadInterlocked(s1, done, first, waitlist);
    }

    /** Searches again from every record that was waiting, genesis records excepted. */
    method ResolvePending(descendants: set<Name>, ghost before: set<Name>, ghost s1: Store, ghost first: Waitlist)
      returns (ghost done: set<Name>)
      requires Named(s1) && store == Spread(s1, before) && Indexed(store, score, waitlist)
      requires descendants <= s1.Keys
      requires SameInterlocked(s1, first, waitlist)
      modifies this
      ensures done == before + Waiting(s1, descendants)
      ensures store == Spread(s1, done) && Indexed(store, score, waitlist)
      ensures SameInterlocked(s1, first, waitlist)
    {
      done := before;
      var todo := descendants;
      WaitingNone(s1, descendants, before);
      while todo != {}
        invariant todo <= descendants
        invariant done == before + Waiting(s1, descendants - todo)
        invariant store == Spread(s1, done)
        invariant Indexed(store, score, waitlist)
        invariant SameInterlocked(s1, first, waitlist)
      {
        var desc :| desc in todo;
        WaitingStep(s1, descendants, todo, before, desc);
        done := ResolveOne(desc, done, s1, first);
        todo := todo - {desc};
      }
      assert descendants - todo == descendants;
    }

    method ResolveOne(desc: Name, ghost done: set<Name>, ghost s1: Store, ghost first: Waitlist)
      returns (ghost more: set<Name>)
      requires Named(s1) && store == Spread(s1, done) && Indexed(store, score, waitlist) && desc in s1
      requires SameInterlocked(s1, first, waitlist)
      modifies this
      ensures more == done + (if Lookup(s1, desc).record.IsGenesis() then {} else {desc})
      ensures store == Spread(s1, more) && Indexed(store, score, waitlist)
      ensures SameInterlocked(s1, first, waitlist)
    {
      more := done;
      SpreadAt(s1, done, desc);
      var descState := GetOrConstruct(desc);
      assert store == Spread(s1, done);
      if !descState.record.IsGenesis() {
        more := Resolve(descState, done, s1, first);
      }
    }

    /** One search of the resolution loop, seen against the store `s1` it started from. */
    method Resolve(state: EdgeState, ghost done: set<Name>, ghost s1: Store, ghost first: Waitlist)
      returns (ghost more: set<Name>)
      requires Named(s1) && store == Spread(s1, done) && Indexed(store, score, waitlist)
      requires state.record == Lookup(s1, state.stateName).record
      requires SameInterlocked(s1, first, waitlist)
      modifies this
      ensures more == done + {state.stateName}
      ensures store == Spread(s1, more) && Indexed(store, score, waitlist)
      ensures SameInterlocked(s1, first, waitlist)
    {
      more := done + {state.stateName};
      SpreadNamed(s1, done);
      ghost var before, listed := store, waitlist;
      EvaluateAncestors(state);
      SpreadNoted(s1, done, state.stateName);
      SpreadInterlocked(s1, more, listed, waitlist);
      SameInterlockedTransitive(s1, first, listed, waitlist);
    }

    /** Adds a record. A record whose name is already loaded or interlocked is rejected
        without a trace; otherwise it loads and the store becomes `AddStore`. */
    method Add(record: Record) returns (stateName: Name)
      requires Valid()
      modifies this
      ensures Valid()
      ensures stateName == ToStateName(record.name)
      ensures store == AddStore(old(store), record)
      ensures Lookup(old(store), stateName).status != INITIALIZED ==> waitlist == old(waitlist)
      ensures SameInterlocked(store, old(waitlist), waitlist)
      ensures Tidy(old(store), old(waitlist)) ==> Tidy(store, waitlist)
    {
      ghost var s, first := store, waitlist;
      var x := ToStateName(record.name);
      var state := GetOrConstruct(x);
      state := state.(record := record);
      stateName := x;
      AddWellFormed(s, record);
      match state.status {
        case INITIALIZED =>
          PendingBelow(s, x);
          Constructed(s, score, waitlist, record);
          OnNewRecord(state);
          AddTidy(s, record, first, waitlist);
        case LOADED =>
          assert store == s;
        case INTERLOCKED =>
          assert store == s;
      }
    }

    /** The listed states below the threshold, pending ones left out; nothing changes. */
    method HarvestBelow(threshold: nat) returns (ret: seq<Record>)
      requires Valid()
      ensures Lists(store, ret, ListedBelow(store, score, waitlist, threshold))
    {
      ret := [];
      ghost var goal := ListedBelow(store, score, waitlist, threshold);
      ghost var done: set<Name> := {};
      var buckets := waitlist.Keys;
      while buckets != {}
        invariant buckets <= waitlist.Keys
        invariant Lists(store, ret, done)
        invariant forall n :: n in done <==> n in goal && score(store[n].descendants) !in buckets
      {
        var k :| k in buckets;
        buckets := buckets - {k};
        if k < threshold {
          OneBucket(store, score, waitlist, k);
          var todo := waitlist[k];
          while todo != {}
            invariant todo <= waitlist[k]
            invariant Lists(store, ret, done)
            invariant forall n :: n in done <==> n in goal && score(store[n].descendants) !in buckets && n !in todo
          {
            var n :| n in todo;
            todo := todo - {n};
            assert n in Bucket(waitlist, k);
            if store[n].status != INITIALIZED {
              ListsOneMore(store, ret, done, n);
              ret := ret + [store[n].record];
              done := done + {n};
            }
          }
        }
      }
      assert done == goal;
    }

    /** Interlocks every loaded state scoring at least the threshold and returns the listed
        ones; with `remove` they leave the waitlist, otherwise they stay and are returned again. */
    method HarvestAbove(threshold: nat, remove: bool) returns (ret: seq<Record>)
      requires Valid()
      modifies this
      ensures Valid()
      ensures store == HarvestStore(old(store), score, threshold)
      ensures Lists(old(store), ret, ListedFrom(old(store), score, old(waitlist), threshold))
      ensures Harvested(old(waitlist), waitlist,
                        if remove then ListedFrom(old(store), score, old(waitlist), threshold) else {})
      ensures remove && Tidy(old(store), old(waitlist)) ==> Tidy(store, waitlist)
    {
      ret := [];
      ghost var s, first := store, waitlist;
      ghost var goal := ListedFrom(s, score, first, threshold);
      ghost var done: set<Name> := {};
      var buckets := waitlist.Keys;
      LockedNothing(s);
      assert HarvestedSoFar(s, score, first, goal, remove, buckets, done, waitlist);
      while buckets != {}
        invariant store == Locked(s, done)
        invariant Lists(s, ret, done)
        invariant HarvestedSoFar(s, score, first, goal, remove, buckets, done, waitlist)
      {
        var k :| k in buckets;
        HarvestBucketStep(s, score, first, threshold, remove, buckets, done, waitlist, k);
        buckets := buckets - {k};
        if k >= threshold {
          var rm: set<Name>;
          ret, rm := HarvestBucket(waitlist[k], ret, remove, s, done);
          done := done + set n | n in first[k] && s[n].status != INITIALIZED;
          waitlist := waitlist[k := waitlist[k] - rm];
        }
      }
      HarvestDone(s, score, first, threshold, remove, done, waitlist);
      LockedIsHarvest(s, score, first, threshold);
      HarvestWellFormed(s, score, threshold);
      HarvestIndexed(s, score, first, threshold, remove, waitlist);
    }

    /** Interlocks the states of one bucket, pending ones left out. */
    method HarvestBucket(names: set<Name>, before: seq<Record>, remove: bool, ghost s: Store, ghost done: set<Name>)
      returns (ret: seq<Record>, rm: set<Name>)
      requires WellFormed(s) && names <= s.Keys && Lists(s, before, done)
      requires store == Locked(s, done)
      requires forall n :: n in names ==> n !in done
      modifies this`store
      ensures var taken := set n | n in names && s[n].status != INITIALIZED;
        && store == Locked(s, done + taken)
        && Lists(s, ret, done + taken)
        && rm == if remove then taken else {}
    {
      ret, rm := before, {};
      ghost var taken: set<Name> := {};
      var todo := names;
      assert done + taken == done;
      while todo != {}
        invariant todo <= names
        invariant forall n :: n in taken <==> n in names && n !in todo && s[n].status != INITIALIZED
        invariant store == Locked(s, done + taken)
        invariant Lists(s, ret, done + taken)
        invariant rm == if remove then taken else {}
      {
        var n :| n in todo;
        todo := todo - {n};
        var state := store[n];
        if state.status != INITIALIZED {
          ListsOneMore(s, ret, done + taken, n);
          LockedStep(s, done + taken, n);
          ret := ret + [state.record];
          assert WellFormedState(s, n);
          Update(state.(status := INTERLOCKED));
          taken := taken + {n};
          if remove {
            rm := rm + {n};
          }
        }
        assert done + taken == if state.status != INITIALIZED then done + (taken - {n}) + {n} else done + taken;
      }
      assert taken == set n | n in names && s[n].status != INITIALIZED;
    }
  }

  // ----- What the loops above rely on -----

  /** Two records of a list never share a name, and the list holds exactly the records of `names`. */
  ghost predicate Lists(s: Store, list: seq<Record>, names: set<Name>) {
    && (forall i, j :: 0 <= i < j < |list| ==> list[i].name != list[j].name)
    && (forall i :: 0 <= i < |list| ==>
          ToStateName(list[i].name) in names && Lookup(s, ToStateName(list[i].name)).record == list[i])
    && (forall n :: n in names ==> Lookup(s, n).record in list)
  }

  /** The states, pending ones left out, listed in a bucket below the threshold. */
  function ListedBelow(s: Store, score: Score, waitlist: Waitlist, threshold: nat): set<Name> {
    set n | n in s && s[n].status != INITIALIZED && score(s[n].descendants) < threshold
            && n in Bucket(waitlist, score(s[n].descendants))
  }

  function ListedFrom(s: Store, score: Score, waitlist: Waitlist, threshold: nat): set<Name> {
    set n | n in s && s[n].status != INITIALIZED && score(s[n].descendants) >= threshold
            && n in Bucket(waitlist, score(s[n].descendants))
  }

  /** In a tidy waitlist the two harvests split the loaded states at the threshold. */
  lemma HarvestsPartition(s: Store, score: Score, waitlist: Waitlist, threshold: nat)
    requires Indexed(s, score, waitlist) && Tidy(s, waitlist)
    ensures forall n :: n in ListedFrom(s, score, waitlist, threshold) <==> Ripe(s, score, threshold, n)
    ensures forall n :: n in ListedBelow(s, score, waitlist, threshold) <==>
      n in s && s[n].status == LOADED && !Ripe(s, score, threshold, n)
  {
    forall n | n in s ensures s[n].status == LOADED <==>
      s[n].status != INITIALIZED && n in Bucket(waitlist, score(s[n].descendants))
    {
      if n in Bucket(waitlist, score(s[n].descendants)) {
        assert Lookup(s, n).status != INTERLOCKED;
      }
    }
  }

  lemma OneBucket(s: Store, score: Score, waitlist: Waitlist, k: nat)
    requires Indexed(s, score, waitlist) && k in waitlist
    ensures forall n :: n in waitlist[k] ==> n in s && score(s[n].descendants) == k
  {
    forall n | n in waitlist[k] ensures n in s && score(s[n].descendants) == k {
      assert n in Bucket(waitlist, k);
    }
  }

  /** How far a harvest has come when `buckets` are still to be visited. */
  ghost predicate HarvestedSoFar(s: Store, score: Score, first: Waitlist, goal: set<Name>, remove: bool,
                                 buckets: set<nat>, done: set<Name>, waitlist: Waitlist)
    requires goal <= s.Keys
  {
    && waitlist.Keys == first.Keys && buckets <= first.Keys
    && (forall n :: n in done <==> n in goal && score(s[n].descendants) !in buckets)
    && (forall k :: k in first ==>
          waitlist[k] == if remove && k !in buckets then first[k] - goal else first[k])
  }

  lemma HarvestBucketStep(s: Store, score: Score, first: Waitlist, threshold: nat, remove: bool,
                          buckets: set<nat>, done: set<Name>, waitlist: Waitlist, k: nat)
    requires Indexed(s, score, first)
    requires var goal := ListedFrom(s, score, first, threshold);
      HarvestedSoFar(s, score, first, goal, remove, buckets, done, waitlist)
    requires k in buckets
    ensures waitlist[k] == first[k] <= s.Keys && forall n :: n in first[k] ==> n !in done
    ensures var goal := ListedFrom(s, score, first, threshold);
      var taken := set n | n in first[k] && s[n].status != INITIALIZED;
      if k >= threshold then
        HarvestedSoFar(s, score, first, goal, remove, buckets - {k}, done + taken,
                       waitlist[k := waitlist[k] - (if remove then taken else {})])
      else HarvestedSoFar(s, score, first, goal, remove, buckets - {k}, done, waitlist)
  {
    OneBucket(s, score, first, k);
    if k >= threshold {
      BucketGoal(s, score, first, threshold, k);
      var taken := set n | n in first[k] && s[n].status != INITIALIZED;
      assert first[k] - taken == first[k] - ListedFrom(s, score, first, threshold);
    } else {
      BucketBelow(s, score, first, threshold, k);
    }
  }

  lemma HarvestDone(s: Store, score: Score, first: Waitlist, threshold: nat, remove: bool, done: set<Name>, waitlist: Waitlist)
    requires var goal := ListedFrom(s, score, first, threshold);
      HarvestedSoFar(s, score, first, goal, remove, {}, done, waitlist)
    ensures done == ListedFrom(s, score, first, threshold)
    ensures Harvested(first, waitlist, if remove then ListedFrom(s, score, first, threshold) else {})
  {
  }

  lemma BucketGoal(s: Store, score: Score, waitlist: Waitlist, threshold: nat, k: nat)
    requires Indexed(s, score, waitlist) && k in waitlist && k >= threshold
    ensures waitlist[k] <= s.Keys
    ensures forall n :: n in waitlist[k] ==>
      score(s[n].descendants) == k &&
      (n in ListedFrom(s, score, waitlist, threshold) <==> s[n].status != INITIALIZED)
    ensures forall n :: n in ListedFrom(s, score, waitlist, threshold) && score(s[n].descendants) == k ==>
      n in waitlist[k]
  {
    forall n | n in waitlist[k] ensures n in s && score(s[n].descendants) == k {
      assert n in Bucket(waitlist, k);
    }
  }

  lemma BucketBelow(s: Store, score: Score, waitlist: Waitlist, threshold: nat, k: nat)
    requires Indexed(s, score, waitlist) && k in waitlist && k < threshold
    ensures forall n :: n in ListedFrom(s, score, waitlist, threshold) ==> score(s[n].descendants) != k
    ensures waitlist[k] - ListedFrom(s, score, waitlist, threshold) == waitlist[k]
  {
    forall n | n in waitlist[k] ensures n in s && score(s[n].descendants) == k {
      assert n in Bucket(waitlist, k);
    }
  }

  /** A tidy waitlist is determined by the store: each bucket holds exactly the states of its
      score that are not interlocked, pending ones included. */
  lemma BucketContents(s: Store, score: Score, waitlist: Waitlist, k: nat)
    requires Indexed(s, score, waitlist) && Tidy(s, waitlist)
    ensures Bucket(waitlist, k) ==
            set n | n in s && s[n].status != INTERLOCKED && score(s[n].descendants) == k
  {
    forall n | n in Bucket(waitlist, k) ensures n in s && s[n].status != INTERLOCKED {
      assert Lookup(s, n).status != INTERLOCKED;
    }
  }

  /** Nothing is left for a second harvest. */
  lemma HarvestOnce(s: Store, score: Score, waitlist: Waitlist, after: Waitlist, threshold: nat)
    requires Indexed(s, score, waitlist)
    requires Harvested(waitlist, after, ListedFrom(s, score, waitlist, threshold))
    ensures ListedFrom(HarvestStore(s, score, threshold), score, after, threshold) == {}
  {
    var t := HarvestStore(s, score, threshold);
    forall n | n in t ensures n !in ListedFrom(t, score, after, threshold) {
      HarvestAt(s, score, threshold, n);
    }
  }

  lemma AncestorsOpen(s: Store, r: Record)
    ensures forall a :: a in Ancestors(s, r) ==> Lookup(s, a).status != INTERLOCKED
  {
  }

  lemma MarkedIndexed(s: Store, score: Score, waitlist: Waitlist, me: Name, seen: set<Name>)
    requires Indexed(s, score, waitlist)
    ensures IndexedExcept(Marked(s, me, seen), score, waitlist, seen)
  {
  }

  lemma IndexStep(s: Store, score: Score, before: Waitlist, dirty: set<Name>, state: EdgeState, after: Waitlist)
    requires IndexedExcept(s, score, before, dirty)
    requires state.status != INTERLOCKED
    requires Moved(before, after, state.stateName, score(state.descendants))
    ensures IndexedExcept(s[state.stateName := state], score, after, dirty - {state.stateName})
  {
    var a := state.stateName;
    var t := s[a := state];
    forall k, n | n in Bucket(after, k) && n !in dirty - {a}
      ensures n in t && score(t[n].descendants) == k
    {
      if n != a {
        assert n in Bucket(before, k);
      }
    }
    forall n | n in t && n !in dirty - {a} && t[n].status != INTERLOCKED
      ensures n in Bucket(after, score(t[n].descendants))
    {
      if n != a {
        assert n in Bucket(before, score(s[n].descendants));
      }
    }
  }

  lemma MovedKeepsInterlocked(s: Store, first: Waitlist, before: Waitlist, after: Waitlist, n: Name, k: nat)
    requires SameInterlocked(s, first, before) && Moved(before, after, n, k)
    requires Lookup(s, n).status != INTERLOCKED
    ensures SameInterlocked(s, first, after)
  {
  }

  lemma MarkedAt(s: Store, me: Name, seen: set<Name>, n: Name)
    ensures Lookup(Marked(s, me, seen), n).status == Lookup(s, n).status
    ensures Lookup(Marked(s, me, seen), n).stateName == Lookup(s, n).stateName
  {
  }

  lemma NotedNothing(s: Store, me: Name)
    ensures Noted(s, me, {}) == s
  {
  }

  lemma NotedStep(s: Store, me: Name, some: set<Name>, a: Name)
    ensures var t := Noted(s, me, some);
      && Lookup(t, a).status == Lookup(s, a).status && Lookup(t, a).stateName == Lookup(s, a).stateName
      && t[a := Lookup(t, a).(descendants := Lookup(t, a).descendants + {me})] == Noted(s, me, some + {a})
  {
  }

  lemma NotedMarked(s: Store, me: Name, goal: set<Name>)
    ensures Noted(Marked(s, me, goal), me, goal) == Noted(s, me, goal)
  {
  }

  ghost predicate SameLocks(s: Store, t: Store) {
    forall n :: Lookup(s, n).status == INTERLOCKED <==> Lookup(t, n).status == INTERLOCKED
  }

  lemma NotedSameInterlocked(s: Store, me: Name, some: set<Name>)
    ensures SameLocks(s, Noted(s, me, some)) && SameLocks(Noted(s, me, some), s)
  {
    forall n ensures Lookup(Noted(s, me, some), n).status == Lookup(s, n).status {
    }
  }

  lemma InterlockedStep(s: Store, t: Store, first: Waitlist, before: Waitlist, after: Waitlist)
    requires SameLocks(s, t)
    requires SameInterlocked(s, first, before) && SameInterlocked(t, before, after)
    ensures SameInterlocked(s, first, after)
  {
    forall k, n | Lookup(s, n).status == INTERLOCKED ensures n in Bucket(first, k) <==> n in Bucket(after, k) {
      assert Lookup(t, n).status == INTERLOCKED;
      assert n in Bucket(first, k) <==> n in Bucket(before, k);
    }
  }

  lemma SameInterlockedTransitive(s: Store, a: Waitlist, b: Waitlist, c: Waitlist)
    requires SameInterlocked(s, a, b) && SameInterlocked(s, b, c)
    ensures SameInterlocked(s, a, c)
  {
  }

  lemma SpreadInterlocked(s: Store, from: set<Name>, first: Waitlist, last: Waitlist)
    ensures SameInterlocked(s, first, last) <==> SameInterlocked(Spread(s, from), first, last)
  {
    forall n ensures Lookup(Spread(s, from), n).status == Lookup(s, n).status {
      SpreadAt(s, from, n);
    }
  }

  lemma SpreadNamed(s: Store, from: set<Name>)
    requires Named(s)
    ensures Named(Spread(s, from))
  {
    forall n | n in Spread(s, from) ensures Spread(s, from)[n].stateName == n {
      SpreadAt(s, from, n);
    }
  }

  lemma SpreadNothing(s: Store)
    ensures Spread(s, {}) == s
  {
    var t := Spread(s, {});
    forall n ensures n in t <==> n in s {
      SpreadAt(s, {}, n);
    }
    forall n | n in s ensures t[n] == s[n] {
      SpreadAt(s, {}, n);
    }
  }

  /** Spreading changes no search. */
  lemma SpreadSameAncestors(s: Store, from: set<Name>, r: Record, n: Name)
    ensures n in Ancestors(Spread(s, from), r) <==> IsAncestor(s, r, n)
  {
    SpreadKeeps(s, from);
    SpreadAt(s, from, n);
    AncestorsComplete(Spread(s, from), r, n);
  }

  lemma ReachingOneMore(s: Store, from: set<Name>, d: Name, n: Name)
    ensures Reaching(s, from + {d}, n) ==
            Reaching(s, from, n) + (if IsAncestor(s, Lookup(s, d).record, n) then {d} else {})
  {
  }

  lemma SpreadNotedAt(s: Store, from: set<Name>, d: Name, n: Name)
    ensures var t := Spread(s, from);
      SameAt(Noted(t, d, Ancestors(t, Lookup(s, d).record)), Spread(s, from + {d}), n)
  {
    NotedAt(s, from, d, n);
    SpreadAt(s, from + {d}, n);
    ReachingOneMore(s, from, d, n);
  }

  lemma NotedAt(s: Store, from: set<Name>, d: Name, n: Name)
    ensures var t := Spread(s, from); var u := Noted(t, d, Ancestors(t, Lookup(s, d).record));
      var more := if IsAncestor(s, Lookup(s, d).record, n) then {d} else {};
      && Lookup(u, n) == Lookup(s, n).(descendants := Lookup(s, n).descendants + Reaching(s, from, n) + more)
      && (n in u <==> n in s || Reaching(s, from, n) != {} || more != {})
  {
    SpreadSameAncestors(s, from, Lookup(s, d).record, n);
    SpreadAt(s, from, n);
  }

  /** Searching from one more source on the spread store is spreading from one more source. */
  lemma SpreadNoted(s: Store, from: set<Name>, d: Name)
    ensures var t := Spread(s, from);
      Noted(t, d, Ancestors(t, Lookup(s, d).record)) == Spread(s, from + {d})
  {
    var t := Spread(s, from);
    var u, v := Noted(t, d, Ancestors(t, Lookup(s, d).record)), Spread(s, from + {d});
    forall n ensures SameAt(u, v, n) {
      SpreadNotedAt(s, from, d, n);
    }
    SameStores(u, v);
  }

  ghost predicate SameAt(s: Store, t: Store, n: Name) {
    (n in s <==> n in t) && Lookup(s, n) == Lookup(t, n)
  }

  lemma SameStores(s: Store, t: Store)
    requires forall n :: SameAt(s, t, n)
    ensures s == t
  {
    forall n ensures n in s <==> n in t {
      assert SameAt(s, t, n);
    }
    forall n | n in s ensures s[n] == t[n] {
      assert SameAt(s, t, n);
    }
  }

  /** What waits behind a pending state is loaded, so it is not that state. */
  lemma PendingBelow(s: Store, x: Name)
    requires WellFormed(s) && Lookup(s, x).status == INITIALIZED
    ensures Lookup(s, x).descendants <= s.Keys && x !in Lookup(s, x).descendants
    ensures Named(s) && Lookup(s, x).stateName == x
  {
    if x in s {
      assert WellFormedState(s, x);
    }
    forall n | n in s ensures s[n].stateName == n {
      assert WellFormedState(s, n);
    }
  }

  /** Storing the pending state of a name disturbs nothing else, and loading it then is `Load`. */
  lemma Constructed(s: Store, score: Score, waitlist: Waitlist, r: Record)
    requires WellFormed(s) && Indexed(s, score, waitlist) && Lookup(s, ToStateName(r.name)).status == INITIALIZED
    ensures var x := ToStateName(r.name); var t := s[x := Lookup(s, x)];
      && Named(t) && IndexedExcept(t, score, waitlist, {x})
      && t[x := Lookup(s, x).(record := r, status := LOADED)] == Load(s, r)
  {
    PendingBelow(s, ToStateName(r.name));
  }

  lemma AddTidy(s: Store, r: Record, before: Waitlist, after: Waitlist)
    requires Lookup(s, ToStateName(r.name)).status == INITIALIZED
    requires SameInterlocked(AddStore(s, r), before, after)
    ensures Tidy(s, before) ==> Tidy(AddStore(s, r), after)
  {
    forall k, n | n in Bucket(after, k) && Tidy(s, before)
      ensures Lookup(AddStore(s, r), n).status != INTERLOCKED
    {
      AddEffect(s, r, n);
    }
  }

  lemma ListsOneMore(s: Store, list: seq<Record>, names: set<Name>, n: Name)
    requires WellFormed(s) && Lists(s, list, names)
    requires n in s && s[n].status != INITIALIZED && n !in names
    ensures Lists(s, list + [s[n].record], names + {n})
  {
    assert WellFormedState(s, n);
    var more := list + [s[n].record];
    assert more[|list|] == s[n].record;
  }

  lemma LockedNothing(s: Store)
    ensures Locked(s, {}) == s
  {
  }

  /** The states of `done` interlocked. */
  function Locked(s: Store, done: set<Name>): Store {
    map n | n in s :: if n in done then s[n].(status := INTERLOCKED) else s[n]
  }

  lemma LockedStep(s: Store, done: set<Name>, n: Name)
    requires n in s && n !in done
    ensures Locked(s, done)[n := s[n].(status := INTERLOCKED)] == Locked(s, done + {n})
  {
  }

  lemma LockedIsHarvest(s: Store, score: Score, waitlist: Waitlist, threshold: nat)
    requires Indexed(s, score, waitlist)
    ensures Locked(s, ListedFrom(s, score, waitlist, threshold)) == HarvestStore(s, score, threshold)
  {
  }

  lemma HarvestIndexed(s: Store, score: Score, before: Waitlist, threshold: nat, remove: bool, after: Waitlist)
    requires Indexed(s, score, before)
    requires Harvested(before, after, if remove then ListedFrom(s, score, before, threshold) else {})
    ensures Indexed(HarvestStore(s, score, threshold), score, after)
    ensures remove && Tidy(s, before) ==> Tidy(HarvestStore(s, score, threshold), after)
  {
    var t := HarvestStore(s, score, threshold);
    forall n ensures Lookup(t, n) == if Ripe(s, score, threshold, n) then Lookup(s, n).(status := INTERLOCKED) else Lookup(s, n) {
      HarvestAt(s, score, threshold, n);
    }
  }

  lemma Push(list: seq<Name>, p: Name)
    ensures Elements(list + [p]) == Elements(list) + {p}
    ensures p in list ==> Elements(list) + {p} == Elements(list)
    ensures p !in list ==> Elements(list) < Elements(list + [p])
  {
  }

  method Seen(list: seq<Name>, n: Name) returns (hasSeen: bool)
    ensures hasSeen <==> n in list
  {
    hasSeen := false;
    for i := 0 to |list|
      invariant !hasSeen && n !in list[..i]
    {
      if list[i] == n {
        hasSeen := true;
        break;
      }
    }
  }

  /** A round that adds nothing leaves every found name expanded. */
  lemma RoundProgress(s: Store, r: Record, before: seq<Name>, after: seq<Name>, frontier: seq<Name>, next: seq<Name>)
    requires Grown(before, after)
    requires Covered(s, Elements(before), r)
    requires forall a :: a in before ==> a in frontier || Expanded(s, Elements(before), a)
    requires forall f :: f in frontier ==> Expanded(s, Elements(after), f)
    requires forall a :: a in after && Lookup(s, a).status == LOADED ==> a in before || a in next
    ensures Covered(s, Elements(after), r)
    ensures forall a :: a in after ==> a in next || Expanded(s, Elements(after), a)
    ensures |after| <= |before| ==> forall a :: a in after ==> Expanded(s, Elements(after), a)
  {
    assert Elements(before) <= Elements(after);
    forall a | a in before ensures Expanded(s, Elements(after), a) {
    }
  }
}
