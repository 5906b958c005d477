/** Conditions on the events of a run under which an instance miscounts nothing, issues one
    genesis record at most, and agrees with other instances on what is interlocked. */
module LedgerAgreement {
  import opened Names
  import opened Reachability
  import opened DagSpec
  import opened DagTheorems
  import opened Policies
  import opened Tlv
  import opened IndexCodec
  import opened LedgerSpec
  import opened LedgerRuns
  import opened LedgerTheorems

  // ----- What a step adds, and whether it harvests -----

  predicate StepEndsEarly(cfg: Config, s: Ledger, ev: Event) {
    ev.Deliver? && EndsEarly(cfg, s, ev.record)
  }

  /** The record an event adds; a known data name and an empty reply add none. */
  function AddedBy(cfg: Config, s: Ledger, ev: Event): Option<Record> {
    match ev
    case Submit(payload, tips) =>
      if cfg.dataName(payload).None? || cfg.dataName(payload).value in s.data then None
      else Some(SubmissionRecord(cfg, s, payload, tips))
    case Deliver(r) => Some(r)
    case ReplyTimer(targets) => if targets == [] then None else Some(ReplyRecord(cfg, s, targets))
  }

  /** The store after a step that adds `added`, if anything. */
  ghost predicate StoreAfter(cfg: Config, s: Ledger, added: Option<Record>, early: bool, t: Ledger) {
    match added
    case None => t == s
    case Some(r) =>
      if early then t.store == AddStore(s.store, r) else AddedAndHarvested(cfg, s.store, r, t.store)
  }

  lemma SubmitStore(cfg: Config, s: Ledger, payload: Bytes, tips: seq<Name>)
    requires Inv(cfg, s) && NoCollision(cfg, s, payload) && cfg.dataName(payload).Some?
    ensures StoreAfter(cfg, s, AddedBy(cfg, s, Submit(payload, tips)), false, SubmitStep(cfg, s, payload, tips))
  {
    if cfg.dataName(payload).value !in s.data {
      SubmitEffect(cfg, s, payload, tips);
    }
  }

  lemma ReplyStore(cfg: Config, s: Ledger, targets: seq<Name>)
    ensures StoreAfter(cfg, s, AddedBy(cfg, s, ReplyTimer(targets)), false, ReplyStep(cfg, s, targets))
  {
    if targets != [] {
      ReplyEffect(cfg, s, targets);
    }
  }

  /** Every step adds a record or does nothing, and harvests unless it ends early. */
  lemma StepStore(cfg: Config, s: Ledger, ev: Event)
    requires Inv(cfg, s) && Enabled(cfg, s, ev)
    ensures StoreAfter(cfg, s, AddedBy(cfg, s, ev), StepEndsEarly(cfg, s, ev), Step(cfg, s, ev))
  {
    match ev
    case Submit(payload, tips) => SubmitStore(cfg, s, payload, tips);
    case Deliver(r) => DeliverEffect(cfg, s, r);
    case ReplyTimer(targets) => ReplyStore(cfg, s, targets);
  }

  // ----- What is left at the threshold -----

  /** A harvest leaves nothing ripe. */
  lemma NothingRipeAfterHarvest(cfg: Config, store: Store)
    ensures RipeIn(cfg, HarvestStore(store, cfg.Score(), cfg.threshold)) == {}
  {
    var t := HarvestStore(store, cfg.Score(), cfg.threshold);
    forall n ensures n !in RipeIn(cfg, t) {
      HarvestAt(store, cfg.Score(), cfg.threshold, n);
    }
  }

  /** A delivery leaves something ripe exactly when it returns before the harvest and the
      record made something ripe, or left it so. */
  lemma DeliveryLeavesNothingRipeIff(cfg: Config, s: Ledger, r: Record)
    ensures RipeNames(cfg, DeliverStep(cfg, s, r)) == {} <==>
            !EndsEarly(cfg, s, r) || RipeNames(cfg, s.(store := AddStore(s.store, r))) == {}
  {
    DeliverEffect(cfg, s, r);
    if !EndsEarly(cfg, s, r) {
      NothingRipeAfterHarvest(cfg, AddStore(s.store, r));
    }
  }

  /** No delivery of the run returns before its harvest. */
  ghost predicate NoEarlyEnds(cfg: Config, evs: seq<Event>) {
    forall i :: 0 <= i < |evs| ==> !StepEndsEarly(cfg, Run(cfg, evs[..i]), evs[i])
  }

  lemma StepLeavesNothingRipe(cfg: Config, s: Ledger, ev: Event)
    requires Inv(cfg, s) && Enabled(cfg, s, ev) && !StepEndsEarly(cfg, s, ev)
    requires RipeIn(cfg, s.store) == {}
    ensures RipeIn(cfg, Step(cfg, s, ev).store) == {}
  {
    StepStore(cfg, s, ev);
    match AddedBy(cfg, s, ev)
    case None =>
    case Some(r) => NothingRipeAfterHarvest(cfg, AddStore(s.store, r));
  }

  lemma NextNothingRipe(cfg: Config, evs: seq<Event>, ev: Event)
    requires cfg.Valid() && RipeIn(cfg, Run(cfg, evs).store) == {}
    requires !StepEndsEarly(cfg, Run(cfg, evs), ev)
    ensures RipeIn(cfg, Next(cfg, Run(cfg, evs), ev).store) == {}
  {
    ReachableInv(cfg, evs);
    if Enabled(cfg, Run(cfg, evs), ev) {
      StepLeavesNothingRipe(cfg, Run(cfg, evs), ev);
    }
  }

  /** As long as no delivery returns early, nothing is ripe between steps. */
  lemma {:induction false} NothingRipe(cfg: Config, evs: seq<Event>)
    requires cfg.Valid() && NoEarlyEnds(cfg, evs)
    ensures RipeIn(cfg, Run(cfg, evs).store) == {}
  {
    if evs != [] {
      var before, ev := evs[..|evs| - 1], evs[|evs| - 1];
      forall i | 0 <= i < |before| ensures !StepEndsEarly(cfg, Run(cfg, before[..i]), before[i]) {
        assert before[..i] == evs[..i];
      }
      NothingRipe(cfg, before);
      NextNothingRipe(cfg, before, ev);
    }
  }

  // ----- A delivery that leaves a record at the threshold -----

  const PAYLOAD: Bytes := [7]

  function CitingLetters(letter: Byte, targets: seq<Name>): Record {
    Record(Plain(letter), GENERIC_RECORD, targets, PAYLOAD)
  }

  /** One descendant interlocks; every payload holds the same packet. */
  function WitnessConfig(): Config {
    InstanceConfig(1, AllDescendants, octets => octets, payload => Some(Plain(0)), payload => payload, Plain(0))
  }

  lemma LettersAreForeign(letter: Byte, seqNo: nat)
    ensures NotFuture(WitnessConfig(), seqNo, Plain(letter))
  {
    forall k | seqNo < k < TWO_64 ensures Plain(letter) != WitnessConfig().ownName(k) {
      assert |SequenceName(Plain(0), k)| == 2;
    }
  }

  /** The first of two records with the same packet, the second pointing at the first. */
  lemma FirstDelivery(r1: Record, s: Ledger)
    requires r1 == CitingLetters(1, []) && s == Run(WitnessConfig(), [Deliver(r1)])
    ensures var n := ToStateName(r1.name);
      && s.store.Keys == {n} && s.store[n].status == LOADED && s.store[n].record == r1
      && s.data == map[Plain(0) := PAYLOAD] && s.seqNo == 0
  {
    var cfg, n := WitnessConfig(), ToStateName(r1.name);
    var evs := [Deliver(r1)];
    assert evs[..0] == [];
    LettersAreForeign(1, 0);
    NothingCollides(EMPTY, r1.payload);
    assert Enabled(cfg, EMPTY, Deliver(r1));
    assert s == DeliverStep(cfg, EMPTY, r1);
    assert Parents(r1) == {};
    var loaded := AddStore(map[], r1);
    forall m ensures (m in loaded <==> m == n) && Lookup(loaded, m).descendants == {} {
      AddEffect(map[], r1, m);
      NothingReaches(Load(map[], r1), r1, m);
    }
    AddEffect(map[], r1, n);
    assert !Ripe(loaded, cfg.Score(), cfg.threshold, n) by {
      assert cfg.Score()({}) == |AllDescendants({})|;
    }
    DeliverEffect(cfg, EMPTY, r1);
    HarvestAt(loaded, cfg.Score(), cfg.threshold, n);
  }

  lemma NothingReaches(s: Store, r: Record, a: Name)
    requires s == Load(map[], r) && Parents(r) == {}
    ensures Reaching(s, Sources(s, ToStateName(r.name)), a) == {}
  {
    forall d | d in Sources(s, ToStateName(r.name)) ensures !IsAncestor(s, Lookup(s, d).record, a) {
      if Reaches(Expandable(s), {}, a) {
        ReachesStaysInside(Expandable(s), {}, {}, a);
      }
    }
  }

  lemma SecondMakesRipe(cfg: Config, s: Ledger, n: Name, r: Record)
    requires cfg.select == AllDescendants && cfg.threshold == 1
    requires n in s.store && s.store[n].status == LOADED
    requires ToStateName(r.name) !in s.store && !r.IsGenesis() && n in Parents(r) && EndsEarly(cfg, s, r)
    ensures n in RipeNames(cfg, DeliverStep(cfg, s, r))
  {
    DeliverEffect(cfg, s, r);
    AddEffect(s.store, r, n);
    TipGainsFresh(s.store, r, n);
    RipeWith(cfg, DeliverStep(cfg, s, r), n, ToStateName(r.name));
  }

  lemma SecondIsNew(r1: Record, r2: Record, s: Ledger)
    requires r1 == CitingLetters(1, []) && r2 == CitingLetters(2, [r1.name])
    requires s == Run(WitnessConfig(), [Deliver(r1)])
    requires s.store.Keys == {ToStateName(r1.name)} && s.store[ToStateName(r1.name)].record == r1
    ensures ToStateName(r2.name) !in s.store && ToStateName(r1.name) in Parents(r2)
    ensures NoCollision(WitnessConfig(), s, r2.payload)
  {
    var cfg, n, d := WitnessConfig(), ToStateName(r1.name), ToStateName(r2.name);
    assert d[1].value[0] != n[1].value[0];
    assert r2.pointers[0] == r1.name;
    NothingCollides(s, r2.payload);
  }

  lemma SecondIsEnabled(r1: Record, r2: Record, s: Ledger)
    requires r1 == CitingLetters(1, []) && r2 == CitingLetters(2, [r1.name])
    requires s == Run(WitnessConfig(), [Deliver(r1)])
    ensures Enabled(WitnessConfig(), s, Deliver(r2)) && PointsBack(s, r2)
  {
    FirstDelivery(r1, s);
    SecondIsNew(r1, r2, s);
    LettersAreForeign(1, 0);
    LettersAreForeign(2, 0);
    assert ToStateName(r2.name) !in Records(s.store);
    assert Parents(r2) <= Records(s.store).Keys;
  }

  lemma SecondLeavesRipe(r1: Record, r2: Record, s: Ledger)
    requires r1 == CitingLetters(1, []) && r2 == CitingLetters(2, [r1.name])
    requires s == Run(WitnessConfig(), [Deliver(r1)])
    ensures ToStateName(r1.name) in RipeNames(WitnessConfig(), DeliverStep(WitnessConfig(), s, r2))
  {
    FirstDelivery(r1, s);
    SecondIsNew(r1, r2, s);
    SecondMakesRipe(WitnessConfig(), s, ToStateName(r1.name), r2);
  }

  lemma WitnessConfigValid()
    ensures WitnessConfig().Valid()
  {
    InstanceConfigValid(1, AllDescendants, octets => octets, payload => Some(Plain(0)), payload => payload, Plain(0));
  }

  /** Delivered in causal order, the second record makes the first ripe but carries a packet
      stored already: the step ends there, and the first is not interlocked although its
      true descendants reach the threshold. */
  lemma EarlyEndLeavesRipe(r1: Record, r2: Record, evs: seq<Event>)
    requires r1 == CitingLetters(1, []) && r2 == CitingLetters(2, [r1.name])
    requires evs == [Deliver(r1), Deliver(r2)]
    ensures var cfg, n := WitnessConfig(), ToStateName(r1.name);
      var s := Run(cfg, evs);
      && cfg.Valid() && CausalEvents(cfg, evs)
      && n in RipeNames(cfg, s) && n !in InterlockedNames(s.store)
      && cfg.Score()(TrueDescendants(Records(s.store), n)) >= cfg.threshold
  {
    var cfg, n := WitnessConfig(), ToStateName(r1.name);
    var s := Run(cfg, evs);
    assert evs[..0] == [] && evs[..1] == [Deliver(r1)];
    WitnessConfigValid();
    SecondIsEnabled(r1, r2, Run(cfg, evs[..1]));
    SecondLeavesRipe(r1, r2, Run(cfg, evs[..1]));
    assert s == DeliverStep(cfg, Run(cfg, evs[..1]), r2);
    assert CausalEvents(cfg, evs) by {
      assert Parents(r1) == {};
      assert CausalAt(cfg, evs, 0) && CausalAt(cfg, evs, 1);
    }
    RipeCountsTrue(cfg, evs, n);
  }

  /** What is ripe has enough true descendants. */
  lemma RipeCountsTrue(cfg: Config, evs: seq<Event>, n: Name)
    requires cfg.Valid() && n in RipeNames(cfg, Run(cfg, evs))
    ensures cfg.Score()(TrueDescendants(Records(Run(cfg, evs).store), n)) >= cfg.threshold
  {
    var s := Run(cfg, evs);
    ReachableInv(cfg, evs);
    assert SoundAt(s.store, n);
    assert InOrder(cfg.Score(), s.store[n].descendants, TrueDescendants(Records(s.store), n));
  }

  lemma NothingCollides(s: Ledger, payload: Bytes)
    ensures NoCollision(WitnessConfig(), s, payload)
  {
    forall a, b ensures TellsApart(WitnessConfig().mapName, a, b) {
      MapNameCollides(octets => octets, a, b);
    }
  }

  lemma RipeWith(cfg: Config, s: Ledger, n: Name, d: Name)
    requires cfg.select == AllDescendants && cfg.threshold == 1
    requires n in s.store && s.store[n].status == LOADED && d in s.store[n].descendants
    ensures n in RipeNames(cfg, s)
  {
    assert cfg.Score()(s.store[n].descendants) == |AllDescendants(s.store[n].descendants)|;
    assert s.store[n].descendants != {};
  }

  // ----- Lossless runs -----

  ghost predicate Lossless(store: Store) {
    Exact(store) && Closed(store)
  }

  /** A step whose harvest, if it makes one, interlocks nothing that points at a missing record. */
  ghost predicate SafeStep(cfg: Config, s: Ledger, ev: Event) {
    AddedBy(cfg, s, ev).Some? && !StepEndsEarly(cfg, s, ev) ==>
      SafeToHarvest(AddStore(s.store, AddedBy(cfg, s, ev).value), cfg.Score(), cfg.threshold)
  }

  ghost predicate SafeEvents(cfg: Config, evs: seq<Event>) {
    forall i :: 0 <= i < |evs| && Enabled(cfg, Run(cfg, evs[..i]), evs[i]) ==> SafeStep(cfg, Run(cfg, evs[..i]), evs[i])
  }

  lemma HarvestLossless(cfg: Config, store: Store)
    requires cfg.Valid() && WellFormed(store) && Lossless(store)
    requires SafeToHarvest(store, cfg.Score(), cfg.threshold)
    ensures Lossless(HarvestStore(store, cfg.Score(), cfg.threshold))
  {
    HarvestKeepsExact(store, cfg.Score(), cfg.threshold);
    SafeHarvestKeepsClosed(store, cfg.Score(), cfg.threshold);
  }

  lemma StepLossless(cfg: Config, s: Ledger, ev: Event)
    requires cfg.Valid() && Inv(cfg, s) && Enabled(cfg, s, ev)
    requires Lossless(s.store) && SafeStep(cfg, s, ev)
    ensures Lossless(Step(cfg, s, ev).store)
  {
    StepStore(cfg, s, ev);
    match AddedBy(cfg, s, ev)
    case None =>
    case Some(r) =>
      AddWellFormed(s.store, r);
      AddKeepsExact(s.store, r);
      if !StepEndsEarly(cfg, s, ev) {
        HarvestLossless(cfg, AddStore(s.store, r));
      }
  }

  lemma NextLossless(cfg: Config, evs: seq<Event>, ev: Event)
    requires cfg.Valid() && Lossless(Run(cfg, evs).store)
    requires Enabled(cfg, Run(cfg, evs), ev) ==> SafeStep(cfg, Run(cfg, evs), ev)
    ensures Lossless(Next(cfg, Run(cfg, evs), ev).store)
  {
    ReachableInv(cfg, evs);
    if Enabled(cfg, Run(cfg, evs), ev) {
      StepLossless(cfg, Run(cfg, evs), ev);
    }
  }

  /** An instance whose harvests are safe never miscounts: every record that is not
      interlocked has exactly its true descendants, and what is interlocked is closed under
      pointers. */
  lemma {:induction false} SafeLedgerIsLossless(cfg: Config, evs: seq<Event>)
    requires cfg.Valid() && SafeEvents(cfg, evs)
    ensures Lossless(Run(cfg, evs).store)
  {
    if evs == [] {
      assert Run(cfg, evs) == EMPTY;
    } else {
      var before, ev := evs[..|evs| - 1], evs[|evs| - 1];
      forall i | 0 <= i < |before| && Enabled(cfg, Run(cfg, before[..i]), before[i])
        ensures SafeStep(cfg, Run(cfg, before[..i]), before[i])
      {
        assert before[..i] == evs[..i];
      }
      SafeLedgerIsLossless(cfg, before);
      NextLossless(cfg, before, ev);
    }
  }

  // ----- Causal delivery -----

  ghost predicate PointsBack(s: Ledger, r: Record) {
    Parents(r) <= Records(s.store).Keys + {ToStateName(r.name)}
  }

  /** Sync delivers a record only after everything it points at, itself aside. */
  ghost predicate CausalEvents(cfg: Config, evs: seq<Event>) {
    forall i :: 0 <= i < |evs| ==> CausalAt(cfg, evs, i)
  }

  ghost predicate CausalAt(cfg: Config, evs: seq<Event>, i: nat)
    requires i < |evs|
  {
    evs[i].Deliver? ==> PointsBack(Run(cfg, evs[..i]), evs[i].record)
  }

  lemma CausalPrefix(cfg: Config, evs: seq<Event>, k: nat)
    requires k <= |evs| && CausalEvents(cfg, evs)
    ensures CausalEvents(cfg, evs[..k])
  {
    var before := evs[..k];
    forall i | 0 <= i < k ensures CausalAt(cfg, before, i) {
      assert before[..i] == evs[..i];
      assert CausalAt(cfg, evs, i);
    }
  }

  /** What an instance publishes points at records it holds, or at itself. */
  lemma AddedPointsBack(cfg: Config, s: Ledger, ev: Event)
    requires cfg.Valid() && Inv(cfg, s) && Enabled(cfg, s, ev) && AddedBy(cfg, s, ev).Some?
    requires ev.Deliver? ==> PointsBack(s, ev.record)
    ensures PointsBack(s, AddedBy(cfg, s, ev).value)
  {
    match ev
    case Submit(payload, tips) =>
      SubmissionPointsAtTips(cfg, s, payload, tips);
    case Deliver(r) =>
    case ReplyTimer(targets) =>
      forall p | p in targets ensures ToStateName(p) in Records(s.store) {
        TargetIsNew(cfg, s, p);
      }
  }

  /** A step adds its record to those held, unless the name is taken. */
  lemma StepRecords(cfg: Config, s: Ledger, ev: Event)
    requires Inv(cfg, s) && Enabled(cfg, s, ev)
    ensures Records(Step(cfg, s, ev).store) ==
            match AddedBy(cfg, s, ev)
            case None => Records(s.store)
            case Some(r) =>
              if ToStateName(r.name) in Records(s.store) then Records(s.store)
              else Records(s.store)[ToStateName(r.name) := r]
  {
    StepStore(cfg, s, ev);
    match AddedBy(cfg, s, ev)
    case None =>
    case Some(r) =>
      AddRecords(s.store, r);
      AddThenHarvest(cfg, s, r, Step(cfg, s, ev));
  }

  lemma OneMoreHeld(recs: map<Name, Record>, x: Name, r: Record)
    requires PointersHeld(recs) && Parents(r) <= recs.Keys + {x}
    ensures PointersHeld(recs[x := r])
  {
    var more := recs[x := r];
    forall n | n in more ensures Parents(more[n]) <= more.Keys {
      if n != x {
        assert Parents(recs[n]) <= recs.Keys;
      }
    }
  }

  lemma StepPointersHeld(cfg: Config, s: Ledger, ev: Event)
    requires cfg.Valid() && Inv(cfg, s) && Enabled(cfg, s, ev) && PointersHeld(Records(s.store))
    requires ev.Deliver? ==> PointsBack(s, ev.record)
    ensures PointersHeld(Records(Step(cfg, s, ev).store))
  {
    StepRecords(cfg, s, ev);
    if AddedBy(cfg, s, ev).Some? {
      AddedPointsBack(cfg, s, ev);
      var r := AddedBy(cfg, s, ev).value;
      OneMoreHeld(Records(s.store), ToStateName(r.name), r);
    }
  }

  lemma NextPointersHeld(cfg: Config, evs: seq<Event>, before: Ledger, ev: Event)
    requires cfg.Valid() && evs != [] && before == Run(cfg, evs[..|evs| - 1]) && ev == evs[|evs| - 1]
    requires PointersHeld(Records(before.store)) && (ev.Deliver? ==> PointsBack(before, ev.record))
    ensures PointersHeld(Records(Run(cfg, evs).store))
  {
    ReachableInv(cfg, evs[..|evs| - 1]);
    if Enabled(cfg, before, ev) {
      StepPointersHeld(cfg, before, ev);
    }
  }

  lemma {:induction false} CausalPointersHeld(cfg: Config, evs: seq<Event>)
    requires cfg.Valid() && CausalEvents(cfg, evs)
    ensures PointersHeld(Records(Run(cfg, evs).store))
  {
    if evs == [] {
      assert Run(cfg, evs) == EMPTY;
    } else {
      CausalPrefix(cfg, evs, |evs| - 1);
      CausalPointersHeld(cfg, evs[..|evs| - 1]);
      assert CausalAt(cfg, evs, |evs| - 1);
      NextPointersHeld(cfg, evs, Run(cfg, evs[..|evs| - 1]), evs[|evs| - 1]);
    }
  }

  /** Where every pointer target is held, every harvest is safe. */
  lemma HeldPointersAreSafe(cfg: Config, store: Store)
    requires PointersHeld(Records(store))
    ensures SafeToHarvest(store, cfg.Score(), cfg.threshold)
  {
    forall b, a | Ripe(store, cfg.Score(), cfg.threshold, b) && a in Parents(store[b].record)
      ensures Lookup(store, a).status != INITIALIZED
    {
      assert b in Records(store) && Records(store)[b] == store[b].record;
      assert a in Records(store);
    }
  }

  /** Causal delivery makes every harvest of an instance safe. */
  lemma CausalEventsAreSafe(cfg: Config, evs: seq<Event>)
    requires cfg.Valid() && CausalEvents(cfg, evs)
    ensures SafeEvents(cfg, evs)
  {
    forall i | 0 <= i < |evs| && Enabled(cfg, Run(cfg, evs[..i]), evs[i])
      ensures SafeStep(cfg, Run(cfg, evs[..i]), evs[i])
    {
      assert CausalAt(cfg, evs, i);
      CausalPrefix(cfg, evs, i);
      CausalPointersHeld(cfg, evs[..i]);
      NextIsSafe(cfg, evs[..i], evs[i]);
    }
  }

  lemma NextIsSafe(cfg: Config, evs: seq<Event>, ev: Event)
    requires cfg.Valid() && PointersHeld(Records(Run(cfg, evs).store))
    requires ev.Deliver? ==> PointsBack(Run(cfg, evs), ev.record)
    ensures Enabled(cfg, Run(cfg, evs), ev) ==> SafeStep(cfg, Run(cfg, evs), ev)
  {
    var s := Run(cfg, evs);
    ReachableInv(cfg, evs);
    if Enabled(cfg, s, ev) && AddedBy(cfg, s, ev).Some? {
      var r := AddedBy(cfg, s, ev).value;
      AddedPointsBack(cfg, s, ev);
      AddedPointersHeld(s.store, r);
      HeldPointersAreSafe(cfg, AddStore(s.store, r));
    }
  }

  lemma AddedPointersHeld(store: Store, r: Record)
    requires WellFormed(store) && PointersHeld(Records(store))
    requires Parents(r) <= Records(store).Keys + {ToStateName(r.name)}
    ensures PointersHeld(Records(AddStore(store, r)))
  {
    AddRecords(store, r);
    OneMoreHeld(Records(store), ToStateName(r.name), r);
  }

  // ----- One genesis record -----

  ghost predicate ProperRecords(evs: seq<Event>) {
    forall i :: 0 <= i < |evs| && evs[i].Deliver? ==> SelfPointing(evs[i].record)
  }

  lemma DeliveryKeepsAcyclic(cfg: Config, s: Ledger, r: Record)
    requires Inv(cfg, s) && Enabled(cfg, s, Deliver(r)) && SelfPointing(r)
    requires PointersHeld(Records(s.store)) && Acyclic(Records(s.store))
    ensures Acyclic(Records(DeliverStep(cfg, s, r).store))
  {
    if ToStateName(r.name) in Records(s.store) {
      StepRecords(cfg, s, Deliver(r));
    } else {
      DeliverEffect(cfg, s, r);
      PublishedKeepsAcyclic(cfg, s, r, DeliverStep(cfg, s, r));
    }
  }

  lemma StepKeepsAcyclic(cfg: Config, s: Ledger, ev: Event)
    requires cfg.Valid() && Inv(cfg, s) && Enabled(cfg, s, ev)
    requires PointersHeld(Records(s.store)) && Acyclic(Records(s.store))
    requires ev.Deliver? ==> SelfPointing(ev.record)
    ensures Acyclic(Records(Step(cfg, s, ev).store))
  {
    if ev.Deliver? {
      DeliveryKeepsAcyclic(cfg, s, ev.record);
    } else {
      OwnRecordsKeepAcyclic(cfg, s, ev);
    }
  }

  lemma NextIsAcyclic(cfg: Config, evs: seq<Event>, ev: Event)
    requires cfg.Valid() && Acyclic(Records(Run(cfg, evs).store)) && PointersHeld(Records(Run(cfg, evs).store))
    requires ev.Deliver? ==> SelfPointing(ev.record)
    ensures Acyclic(Records(Next(cfg, Run(cfg, evs), ev).store))
  {
    ReachableInv(cfg, evs);
    if Enabled(cfg, Run(cfg, evs), ev) {
      StepKeepsAcyclic(cfg, Run(cfg, evs), ev);
    }
  }

  /** Causal delivery of proper records keeps the records acyclic. */
  lemma {:induction false} CausalRunIsAcyclic(cfg: Config, evs: seq<Event>)
    requires cfg.Valid() && CausalEvents(cfg, evs) && ProperRecords(evs)
    ensures Acyclic(Records(Run(cfg, evs).store))
  {
    if evs == [] {
      assert Run(cfg, evs) == EMPTY;
      assert Ranked(Records(EMPTY.store), map[]);
    } else {
      var before, ev := evs[..|evs| - 1], evs[|evs| - 1];
      CausalPrefix(cfg, evs, |before|);
      CausalRunIsAcyclic(cfg, before);
      CausalPointersHeld(cfg, before);
      NextIsAcyclic(cfg, before, ev);
    }
  }

  /** Fed causally with proper records, an instance issues a genesis record at most once, as
      its first. */
  lemma OneGenesis(cfg: Config, evs: seq<Event>)
    requires cfg.Valid() && CausalEvents(cfg, evs) && ProperRecords(evs)
    ensures var published := Run(cfg, evs).published;
      forall i :: 0 < i < |published| ==> !published[i].IsGenesis()
  {
    forall i | 0 <= i <= |evs| ensures Acyclic(Records(Run(cfg, evs[..i]).store)) {
      CausalPrefix(cfg, evs, i);
      CausalRunIsAcyclic(cfg, evs[..i]);
    }
    AcyclicRunOneGenesis(cfg, evs);
  }

  // ----- Instances agree -----

  lemma InterlockedWhenNothingRipe(cfg: Config, s: Ledger, n: Name)
    requires cfg.Valid() && Inv(cfg, s) && Lossless(s.store) && RipeIn(cfg, s.store) == {}
    ensures n in InterlockedNames(s.store) <==>
            n in Records(s.store) && cfg.Score()(TrueDescendants(Records(s.store), n)) >= cfg.threshold
  {
    if n in s.store {
      assert SoundAt(s.store, n);
      assert InOrder(cfg.Score(), s.store[n].descendants, TrueDescendants(Records(s.store), n));
      assert n !in RipeIn(cfg, s.store);
      if s.store[n].status == LOADED {
        assert Lookup(s.store, n).descendants == TrueDescendants(Records(s.store), n);
      }
    }
  }

  /** Throughout a run of safe harvests in which no delivery returns early, a record is
      interlocked exactly when its true descendants reach the threshold. */
  lemma InterlockedExactly(cfg: Config, evs: seq<Event>, n: Name)
    requires cfg.Valid() && SafeEvents(cfg, evs) && NoEarlyEnds(cfg, evs)
    ensures var recs := Records(Run(cfg, evs).store);
      n in InterlockedNames(Run(cfg, evs).store) <==>
      n in recs && cfg.Score()(TrueDescendants(recs, n)) >= cfg.threshold
  {
    ReachableInv(cfg, evs);
    SafeLedgerIsLossless(cfg, evs);
    NothingRipe(cfg, evs);
    InterlockedWhenNothingRipe(cfg, Run(cfg, evs), n);
  }

  /** Two instances that hold the same records, received in whatever orders, with safe
      harvests and no delivery that returned early, agree on every status and record, and on
      every descendant of what is not interlocked. */
  lemma InstancesAgree(cfg: Config, other: Config, evs: seq<Event>, otherEvs: seq<Event>)
    requires cfg.Valid() && other.Valid() && other.threshold == cfg.threshold && other.select == cfg.select
    requires SafeEvents(cfg, evs) && NoEarlyEnds(cfg, evs)
    requires SafeEvents(other, otherEvs) && NoEarlyEnds(other, otherEvs)
    requires Records(Run(cfg, evs).store) == Records(Run(other, otherEvs).store)
    ensures Agree(Run(cfg, evs).store, Run(other, otherEvs).store)
  {
    var s, t := Run(cfg, evs).store, Run(other, otherEvs).store;
    forall n ensures n in InterlockedNames(s) <==> n in InterlockedNames(t) {
      InterlockedExactly(cfg, evs, n);
      InterlockedExactly(other, otherEvs, n);
    }
    ReachableInv(cfg, evs);
    ReachableInv(other, otherEvs);
    SafeLedgerIsLossless(cfg, evs);
    SafeLedgerIsLossless(other, otherEvs);
    ExactStoresAgree(s, t);
  }
}
