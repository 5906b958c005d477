/** What a ledger instance keeps account of, stated exactly for every run: its own
    publications, the states it tracks, the records it replied to, and the packets it
    stores. */
module LedgerAccounts {
  import opened Names
  import opened DagSpec
  import opened DagTheorems
  import opened Sets
  import opened Tlv
  import opened LedgerSpec
  import opened LedgerRuns
  import opened LedgerTheorems

  // ----- What a submission changes -----

  lemma SubmittedFields(cfg: Config, s: Ledger, payload: Bytes, tips: seq<Name>)
    requires cfg.dataName(payload).Some?
    ensures var w, r := Submitted(cfg, s, payload, tips), SubmissionRecord(cfg, s, payload, tips);
      && w.store == AddStore(s.store, r) && w.tracker == s.tracker + {ToStateName(r.name)}
      && w.data == s.data[cfg.dataName(payload).value := payload]
      && w.index == s.index[cfg.mapName(payload) := ToStateName(r.name)]
      && w.seqNo == s.seqNo + 1 && w.published == s.published + [r] && w.replied == s.replied
  {
  }

  lemma HarvestFields(cfg: Config, w: Ledger)
    ensures var t := HarvestStep(cfg, w);
      t.data == w.data && t.index == w.index && t.seqNo == w.seqNo && t.published == w.published && t.replied <= w.replied
  {
  }

  lemma SubmitFields(cfg: Config, s: Ledger, payload: Bytes, tips: seq<Name>)
    requires cfg.dataName(payload).Some? && cfg.dataName(payload).value !in s.data && cfg.mapName(payload) !in s.index
    ensures var t := SubmitStep(cfg, s, payload, tips);
      && t.data == s.data[cfg.dataName(payload).value := payload]
      && t.index == s.index[cfg.mapName(payload) := ToStateName(cfg.ownName(s.seqNo + 1))]
      && t.seqNo == s.seqNo + 1 && t.published == s.published + [SubmissionRecord(cfg, s, payload, tips)]
      && t.replied <= s.replied
  {
    SubmitStepParts(cfg, s, payload, tips);
    SubmittedFields(cfg, s, payload, tips);
    HarvestFields(cfg, Submitted(cfg, s, payload, tips));
  }

  // ----- What gets interlocked -----

  /** Nothing that a harvest interlocks was interlocked before. */
  lemma HarvestInterlocks(cfg: Config, store: Store)
    ensures InterlockedNames(HarvestStore(store, cfg.Score(), cfg.threshold)) == InterlockedNames(store) + RipeIn(cfg, store)
  {
    var t := HarvestStore(store, cfg.Score(), cfg.threshold);
    forall n ensures n in InterlockedNames(t) <==> n in InterlockedNames(store) + RipeIn(cfg, store) {
      HarvestAt(store, cfg.Score(), cfg.threshold, n);
    }
  }

  lemma AddInterlocksNothing(store: Store, r: Record)
    ensures InterlockedNames(AddStore(store, r)) == InterlockedNames(store)
  {
    if Lookup(store, ToStateName(r.name)).status == INITIALIZED {
      forall n ensures n in InterlockedNames(AddStore(store, r)) <==> n in InterlockedNames(store) {
        AddEffect(store, r, n);
      }
    }
  }

  lemma RipeIsOpen(cfg: Config, store: Store)
    ensures RipeIn(cfg, store) * InterlockedNames(store) == {}
  {
  }

  // ----- The tracker -----

  /** The state an event puts on the tracker's list at once: that of a new submission and of
      every delivered record, whatever its type and whatever becomes of its packet. */
  function Handled(cfg: Config, s: Ledger, ev: Event): set<Name> {
    match ev
    case Submit(payload, tips) =>
      if cfg.dataName(payload).None? || cfg.dataName(payload).value in s.data then {}
      else {ToStateName(cfg.ownName(s.seqNo + 1))}
    case Deliver(r) => {ToStateName(r.name)}
    case ReplyTimer(targets) => {}
  }

  lemma HarvestTracks(cfg: Config, s: Ledger)
    ensures HarvestStep(cfg, s).tracker == s.tracker + (InterlockedNames(HarvestStep(cfg, s).store) - InterlockedNames(s.store))
  {
    HarvestInterlocks(cfg, s.store);
    RipeIsOpen(cfg, s.store);
  }

  /** What the tracker gains: what was handled, and what the step interlocked. */
  ghost predicate Tracks(s: Ledger, t: Ledger, handled: set<Name>) {
    t.tracker == s.tracker + handled + (InterlockedNames(t.store) - InterlockedNames(s.store))
  }

  lemma HarvestedTracks(cfg: Config, s: Ledger, u: Ledger, handled: set<Name>)
    requires u.tracker == s.tracker + handled && InterlockedNames(u.store) == InterlockedNames(s.store)
    ensures Tracks(s, HarvestStep(cfg, u), handled)
  {
    HarvestTracks(cfg, u);
  }

  lemma RestTracks(cfg: Config, s: Ledger, s1: Ledger, r: Record, handled: set<Name>)
    requires s1.tracker == s.tracker + handled && InterlockedNames(s1.store) == InterlockedNames(s.store)
    ensures Tracks(s, DeliverRest(cfg, s1, r), handled)
  {
    if r.IsReply() {
      HarvestedTracks(cfg, s, s1, handled);
    } else if cfg.dataName(r.payload).Some? && cfg.dataName(r.payload).value !in s1.data {
      HarvestedTracks(cfg, s, WithPacket(cfg, s1, r, cfg.dataName(r.payload).value), handled);
    }
  }

  /** A delivery tracks its record, early exits included. */
  lemma DeliveryTracks(cfg: Config, s: Ledger, r: Record)
    ensures Tracks(s, DeliverStep(cfg, s, r), {ToStateName(r.name)})
  {
    AddInterlocksNothing(s.store, r);
    RestTracks(cfg, s, AddTracked(s, r, s.seqNo), r, {ToStateName(r.name)});
  }

  lemma SubmissionTracks(cfg: Config, s: Ledger, payload: Bytes, tips: seq<Name>)
    requires Inv(cfg, s) && NoCollision(cfg, s, payload)
    requires cfg.dataName(payload).Some? && cfg.dataName(payload).value !in s.data
    ensures Tracks(s, SubmitStep(cfg, s, payload, tips), {ToStateName(cfg.ownName(s.seqNo + 1))})
  {
    NewDataNotIndexed(cfg, s, payload);
    SubmitStepParts(cfg, s, payload, tips);
    SubmittedFields(cfg, s, payload, tips);
    AddInterlocksNothing(s.store, SubmissionRecord(cfg, s, payload, tips));
    HarvestedTracks(cfg, s, Submitted(cfg, s, payload, tips), {ToStateName(cfg.ownName(s.seqNo + 1))});
  }

  lemma ReplyTracks(cfg: Config, s: Ledger, targets: seq<Name>)
    ensures Tracks(s, ReplyStep(cfg, s, targets), {})
  {
    if targets != [] {
      var r := ReplyRecord(cfg, s, targets);
      AddInterlocksNothing(s.store, r);
      HarvestedTracks(cfg, s, PublishAndAdd(s.(replied := s.replied + Elements(targets)), r), {});
    }
  }

  lemma NothingTracked(s: Ledger)
    ensures Tracks(s, s, {})
  {
  }

  lemma SubmitTracks(cfg: Config, s: Ledger, payload: Bytes, tips: seq<Name>)
    requires Inv(cfg, s) && NoCollision(cfg, s, payload) && cfg.dataName(payload).Some?
    ensures Tracks(s, SubmitStep(cfg, s, payload, tips), Handled(cfg, s, Submit(payload, tips)))
  {
    if cfg.dataName(payload).value in s.data {
      DuplicateTracks(cfg, s, payload, tips);
      assert Handled(cfg, s, Submit(payload, tips)) == {};
    } else {
      assert Handled(cfg, s, Submit(payload, tips)) == {ToStateName(cfg.ownName(s.seqNo + 1))};
      SubmissionTracks(cfg, s, payload, tips);
    }
  }

  lemma DuplicateTracks(cfg: Config, s: Ledger, payload: Bytes, tips: seq<Name>)
    requires cfg.dataName(payload).Some? && cfg.dataName(payload).value in s.data
    ensures Tracks(s, SubmitStep(cfg, s, payload, tips), {})
  {
    NothingTracked(s);
  }

  lemma StepTracks(cfg: Config, s: Ledger, ev: Event)
    requires Inv(cfg, s) && Enabled(cfg, s, ev)
    ensures Tracks(s, Step(cfg, s, ev), Handled(cfg, s, ev))
  {
    match ev
    case Submit(payload, tips) => SubmitTracks(cfg, s, payload, tips);
    case Deliver(r) => DeliveryTracks(cfg, s, r);
    case ReplyTimer(targets) => ReplyTracks(cfg, s, targets);
  }

  function HandledBy(cfg: Config, s: Ledger, ev: Event, enabled: bool): set<Name> {
    if enabled then Handled(cfg, s, ev) else {}
  }

  /** All that was handled during a run. */
  ghost function AllHandled(cfg: Config, evs: seq<Event>): set<Name> {
    if evs == [] then {}
    else
      var before, ev := evs[..|evs| - 1], evs[|evs| - 1];
      AllHandled(cfg, before) + HandledBy(cfg, Run(cfg, before), ev, Enabled(cfg, Run(cfg, before), ev))
  }

  lemma StepKeepsInterlocked(cfg: Config, s: Ledger, ev: Event)
    requires Inv(cfg, s) && Enabled(cfg, s, ev)
    ensures InterlockedNames(s.store) <= InterlockedNames(Step(cfg, s, ev).store)
  {
    match ev
    case Submit(payload, tips) =>
      if cfg.dataName(payload).value !in s.data {
        SubmitEffect(cfg, s, payload, tips);
        AddedKeepsInterlocked(cfg, s.store, SubmissionRecord(cfg, s, payload, tips), SubmitStep(cfg, s, payload, tips).store);
      }
    case Deliver(r) =>
      DeliverEffect(cfg, s, r);
      AddedKeepsInterlocked(cfg, s.store, r, DeliverStep(cfg, s, r).store);
    case ReplyTimer(targets) =>
      if targets != [] {
        ReplyEffect(cfg, s, targets);
        AddedKeepsInterlocked(cfg, s.store, ReplyRecord(cfg, s, targets), ReplyStep(cfg, s, targets).store);
      }
  }

  lemma AddedKeepsInterlocked(cfg: Config, store: Store, r: Record, after: Store)
    requires AddedAndHarvested(cfg, store, r, after) || after == AddStore(store, r)
    ensures InterlockedNames(store) <= InterlockedNames(after)
  {
    AddInterlocksNothing(store, r);
    HarvestInterlocks(cfg, AddStore(store, r));
  }

  /** In every run the tracker lists exactly the states of the records submitted and
      delivered, and the interlocked ones. */
  lemma {:induction false} TrackerExactly(cfg: Config, evs: seq<Event>)
    requires cfg.Valid()
    ensures Run(cfg, evs).tracker == AllHandled(cfg, evs) + InterlockedNames(Run(cfg, evs).store)
  {
    if evs == [] {
      assert Run(cfg, evs) == EMPTY;
    } else {
      var before, ev := evs[..|evs| - 1], evs[|evs| - 1];
      TrackerExactly(cfg, before);
      NextTracks(cfg, before, ev);
    }
  }

  lemma NextTracks(cfg: Config, evs: seq<Event>, ev: Event)
    requires cfg.Valid()
    ensures var s := Run(cfg, evs); var t := Next(cfg, s, ev);
      && Tracks(s, t, HandledBy(cfg, s, ev, Enabled(cfg, s, ev)))
      && InterlockedNames(s.store) <= InterlockedNames(t.store)
  {
    ReachableInv(cfg, evs);
    if Enabled(cfg, Run(cfg, evs), ev) {
      StepTracks(cfg, Run(cfg, evs), ev);
      StepKeepsInterlocked(cfg, Run(cfg, evs), ev);
    }
  }

  // ----- Own publications -----

  /** Published under the own names, in order and without gaps. */
  ghost predicate NamedInOrder(cfg: Config, s: Ledger) {
    |s.published| == s.seqNo && forall i :: 0 <= i < |s.published| ==> s.published[i].name == cfg.ownName(i + 1)
  }

  lemma RestPublishes(cfg: Config, s1: Ledger, r: Record)
    ensures DeliverRest(cfg, s1, r).published == s1.published && DeliverRest(cfg, s1, r).seqNo == s1.seqNo
  {
  }

  lemma OneMoreInOrder(cfg: Config, s: Ledger, t: Ledger, r: Record)
    requires NamedInOrder(cfg, s) && r.name == cfg.ownName(s.seqNo + 1)
    requires t.seqNo == s.seqNo + 1 && t.published == s.published + [r]
    ensures NamedInOrder(cfg, t)
  {
  }

  lemma SubmitNamesInOrder(cfg: Config, s: Ledger, payload: Bytes, tips: seq<Name>)
    requires Inv(cfg, s) && NoCollision(cfg, s, payload) && cfg.dataName(payload).Some? && NamedInOrder(cfg, s)
    ensures NamedInOrder(cfg, SubmitStep(cfg, s, payload, tips))
  {
    if cfg.dataName(payload).value !in s.data {
      var t := SubmitStep(cfg, s, payload, tips);
      NewDataNotIndexed(cfg, s, payload);
      SubmitFields(cfg, s, payload, tips);
      OneMoreInOrder(cfg, s, t, SubmissionRecord(cfg, s, payload, tips));
    }
  }

  lemma ReplyNamesInOrder(cfg: Config, s: Ledger, targets: seq<Name>)
    requires NamedInOrder(cfg, s)
    ensures NamedInOrder(cfg, ReplyStep(cfg, s, targets))
  {
    if targets != [] {
      ReplyEffect(cfg, s, targets);
      OneMoreInOrder(cfg, s, ReplyStep(cfg, s, targets), ReplyRecord(cfg, s, targets));
    }
  }

  lemma StepNamesInOrder(cfg: Config, s: Ledger, ev: Event)
    requires Inv(cfg, s) && Enabled(cfg, s, ev) && NamedInOrder(cfg, s)
    ensures NamedInOrder(cfg, Step(cfg, s, ev))
  {
    match ev
    case Submit(payload, tips) => SubmitNamesInOrder(cfg, s, payload, tips);
    case Deliver(r) => RestPublishes(cfg, AddTracked(s, r, s.seqNo), r);
    case ReplyTimer(targets) => ReplyNamesInOrder(cfg, s, targets);
  }

  /** In every run the publications of an instance are named by their numbers. */
  lemma {:induction false} PublishedInOrder(cfg: Config, evs: seq<Event>)
    requires cfg.Valid()
    ensures NamedInOrder(cfg, Run(cfg, evs))
  {
    if evs != [] {
      PublishedInOrder(cfg, evs[..|evs| - 1]);
      NextNamesInOrder(cfg, evs[..|evs| - 1], evs[|evs| - 1]);
    }
  }

  lemma NextNamesInOrder(cfg: Config, evs: seq<Event>, ev: Event)
    requires cfg.Valid() && NamedInOrder(cfg, Run(cfg, evs))
    ensures NamedInOrder(cfg, Next(cfg, Run(cfg, evs), ev))
  {
    ReachableInv(cfg, evs);
    if Enabled(cfg, Run(cfg, evs), ev) {
      StepNamesInOrder(cfg, Run(cfg, evs), ev);
    }
  }

  // ----- Replies -----

  /** A reply references exactly the loaded records below the threshold that are no replies
      and were not replied to before, each once. */
  lemma ReplyReferences(cfg: Config, s: Ledger, targets: seq<Name>, p: Name)
    requires WellFormed(s.store) && Enumerates(targets, ReplyTargets(cfg, s))
    ensures var n := ToStateName(p);
      p in targets <==>
      && n in s.store && s.store[n].status == LOADED && !s.store[n].record.IsReply()
      && cfg.Score()(s.store[n].descendants) < cfg.threshold && p !in s.replied
    ensures forall i, j :: 0 <= i < j < |targets| ==> targets[i] != targets[j]
  {
    if p in targets {
      assert p in ReplyTargets(cfg, s);
      var m :| m in s.store && s.store[m].status == LOADED && !Ripe(s.store, cfg.Score(), cfg.threshold, m)
               && s.store[m].record.name !in s.replied && !s.store[m].record.IsReply() && s.store[m].record.name == p;
      assert WellFormedState(s.store, m);
    }
    var n := ToStateName(p);
    if n in s.store && s.store[n].status == LOADED {
      assert WellFormedState(s.store, n);
      ToStateNameInjective(s.store[n].record.name, p);
    }
  }

  /** A reply is of type 5, named next, without payload. */
  lemma ReplyFields(cfg: Config, s: Ledger, targets: seq<Name>)
    ensures var r := ReplyRecord(cfg, s, targets);
      r.rtype == 5 && r.name == cfg.ownName(s.seqNo + 1) && r.pointers == targets && r.payload == []
    ensures targets != [] ==> ReplyStep(cfg, s, targets).published == s.published + [ReplyRecord(cfg, s, targets)]
  {
    if targets != [] {
      ReplyEffect(cfg, s, targets);
    }
  }

  /** The reply timer leaves out nothing: every loaded record below the threshold, replies
      aside, was replied to before or is referenced by the reply just published. */
  lemma ReplyCoversAll(cfg: Config, s: Ledger, targets: seq<Name>, n: Name)
    requires Inv(cfg, s) && Enabled(cfg, s, ReplyTimer(targets))
    requires n in s.store && s.store[n].status == LOADED && !s.store[n].record.IsReply()
    requires cfg.Score()(s.store[n].descendants) < cfg.threshold
    ensures var t, name := ReplyStep(cfg, s, targets), s.store[n].record.name;
      || name in s.replied
      || (t.published != [] && t.published[..|t.published| - 1] == s.published &&
          var reply := t.published[|t.published| - 1];
          reply.IsReply() && reply.payload == [] && name in reply.pointers)
  {
    var name := s.store[n].record.name;
    if name !in s.replied {
      assert name in ReplyTargets(cfg, s);
      assert name in targets;
      ReplyEffect(cfg, s, targets);
    }
  }

  lemma RestReplied(cfg: Config, s1: Ledger, r: Record)
    ensures DeliverRest(cfg, s1, r).replied <= s1.replied
  {
  }

  lemma ReferencedMore(published: seq<Record>, r: Record)
    ensures Referenced(published + [r]) == Referenced(published) + (if r.IsReply() then Elements(r.pointers) else {})
  {
    var all := published + [r];
    forall p | p in Referenced(published) ensures p in Referenced(all) {
      var i :| 0 <= i < |published| && published[i].IsReply() && p in published[i].pointers;
      assert all[i] == published[i];
    }
    forall p | r.IsReply() && p in r.pointers ensures p in Referenced(all) {
      assert all[|published|] == r;
    }
  }

  lemma StepReplied(cfg: Config, s: Ledger, ev: Event)
    requires Inv(cfg, s) && Enabled(cfg, s, ev) && s.replied <= Referenced(s.published)
    ensures Step(cfg, s, ev).replied <= Referenced(Step(cfg, s, ev).published)
  {
    match ev
    case Submit(payload, tips) =>
      if cfg.dataName(payload).value !in s.data {
        NewDataNotIndexed(cfg, s, payload);
        SubmitFields(cfg, s, payload, tips);
        ReferencedMore(s.published, SubmissionRecord(cfg, s, payload, tips));
      }
    case Deliver(r) =>
      RestReplied(cfg, AddTracked(s, r, s.seqNo), r);
      RestPublishes(cfg, AddTracked(s, r, s.seqNo), r);
    case ReplyTimer(targets) =>
      ReferencedMore(s.published, ReplyRecord(cfg, s, targets));
  }

  lemma {:induction false} RepliedIsReferenced(cfg: Config, evs: seq<Event>)
    requires cfg.Valid()
    ensures Run(cfg, evs).replied <= Referenced(Run(cfg, evs).published)
  {
    if evs != [] {
      RepliedIsReferenced(cfg, evs[..|evs| - 1]);
      NextReplied(cfg, evs[..|evs| - 1], evs[|evs| - 1]);
    }
  }

  lemma NextReplied(cfg: Config, evs: seq<Event>, ev: Event)
    requires cfg.Valid() && Run(cfg, evs).replied <= Referenced(Run(cfg, evs).published)
    ensures var t := Next(cfg, Run(cfg, evs), ev); t.replied <= Referenced(t.published)
  {
    ReachableInv(cfg, evs);
    if Enabled(cfg, Run(cfg, evs), ev) {
      StepReplied(cfg, Run(cfg, evs), ev);
    }
  }

  /** In every run the replied set is exactly what own replies reference and is not
      interlocked yet. */
  lemma RepliedExactly(cfg: Config, evs: seq<Event>, p: Name)
    requires cfg.Valid()
    ensures var s := Run(cfg, evs);
      p in s.replied <==> p in Referenced(s.published) && Lookup(s.store, ToStateName(p)).status == LOADED
  {
    var s := Run(cfg, evs);
    ReachableInv(cfg, evs);
    RepliedIsReferenced(cfg, evs);
    if p in s.replied {
      assert LoadedNonReply(s.store, p);
    }
    if p in Referenced(s.published) {
      assert HeldNonReply(s.store, p);
    }
  }

  // ----- Stored packets -----

  predicate HoldsPacket(cfg: Config, r: Record) {
    !r.IsReply() && cfg.dataName(r.payload).Some?
  }

  /** The names of the packets that held records carry, replies aside. */
  function PacketNames(cfg: Config, recs: map<Name, Record>): set<Name> {
    set n | n in recs && HoldsPacket(cfg, recs[n]) :: cfg.dataName(recs[n].payload).value
  }

  lemma PacketNamesMore(cfg: Config, recs: map<Name, Record>, x: Name, r: Record)
    requires x !in recs || recs[x] == r
    ensures PacketNames(cfg, recs[x := r]) ==
            PacketNames(cfg, recs) + (if HoldsPacket(cfg, r) then {cfg.dataName(r.payload).value} else {})
  {
    var more := recs[x := r];
    forall dn | dn in PacketNames(cfg, recs) ensures dn in PacketNames(cfg, more) {
      var n :| n in recs && HoldsPacket(cfg, recs[n]) && cfg.dataName(recs[n].payload).value == dn;
      assert n in more && more[n] == recs[n];
    }
    if HoldsPacket(cfg, r) {
      assert x in more && more[x] == r;
    }
  }

  lemma RestData(cfg: Config, s1: Ledger, r: Record)
    ensures DeliverRest(cfg, s1, r).data.Keys ==
            s1.data.Keys + (if HoldsPacket(cfg, r) then {cfg.dataName(r.payload).value} else {})
    ensures DataKept(s1, DeliverRest(cfg, s1, r))
  {
  }

  /** No stored packet and no index entry is ever replaced, and nothing published withdrawn. */
  ghost predicate DataKept(s: Ledger, t: Ledger) {
    && (forall dn :: dn in s.data ==> dn in t.data && t.data[dn] == s.data[dn])
    && (forall m :: m in s.index ==> m in t.index && t.index[m] == s.index[m])
    && s.published <= t.published
  }

  lemma SubmissionData(cfg: Config, s: Ledger, payload: Bytes, tips: seq<Name>)
    requires Inv(cfg, s) && Enabled(cfg, s, Submit(payload, tips))
    ensures var t := SubmitStep(cfg, s, payload, tips);
      t.data.Keys == s.data.Keys + {cfg.dataName(payload).value} && DataKept(s, t)
  {
    var dn := cfg.dataName(payload).value;
    if dn in s.data {
      assert SubmitStep(cfg, s, payload, tips) == s;
      assert s.data.Keys == s.data.Keys + {dn};
    } else {
      NewSubmissionData(cfg, s, payload, tips);
    }
  }

  lemma NewSubmissionData(cfg: Config, s: Ledger, payload: Bytes, tips: seq<Name>)
    requires Inv(cfg, s) && NoCollision(cfg, s, payload)
    requires cfg.dataName(payload).Some? && cfg.dataName(payload).value !in s.data
    ensures var t := SubmitStep(cfg, s, payload, tips);
      t.data.Keys == s.data.Keys + {cfg.dataName(payload).value} && DataKept(s, t)
  {
    NewDataNotIndexed(cfg, s, payload);
    SubmitFields(cfg, s, payload, tips);
    DataGrows(s, SubmitStep(cfg, s, payload, tips), cfg.dataName(payload).value, payload, cfg.mapName(payload),
              ToStateName(cfg.ownName(s.seqNo + 1)), SubmissionRecord(cfg, s, payload, tips));
  }

  lemma DataGrows(s: Ledger, t: Ledger, dn: Name, packet: Bytes, m: Name, n: Name, r: Record)
    requires dn !in s.data && t.data == s.data[dn := packet]
    requires m !in s.index && t.index == s.index[m := n] && t.published == s.published + [r]
    ensures t.data.Keys == s.data.Keys + {dn} && DataKept(s, t)
  {
  }

  lemma ReplyData(cfg: Config, s: Ledger, targets: seq<Name>)
    ensures var t := ReplyStep(cfg, s, targets); t.data == s.data && DataKept(s, t)
  {
  }

  lemma StepKeepsData(cfg: Config, s: Ledger, ev: Event)
    requires Inv(cfg, s) && Enabled(cfg, s, ev)
    ensures DataKept(s, Step(cfg, s, ev))
  {
    match ev
    case Submit(payload, tips) => SubmissionData(cfg, s, payload, tips);
    case Deliver(r) => RestData(cfg, AddTracked(s, r, s.seqNo), r);
    case ReplyTimer(targets) => ReplyData(cfg, s, targets);
  }

  /** From any point of a run to any later one. */
  lemma {:induction false} RunKeepsData(cfg: Config, evs: seq<Event>, k: nat)
    requires cfg.Valid() && k <= |evs|
    ensures DataKept(Run(cfg, evs[..k]), Run(cfg, evs))
    decreases |evs| - k
  {
    if k == |evs| {
      assert evs[..k] == evs;
    } else {
      assert evs[..k + 1][..k] == evs[..k];
      NextKeepsData(cfg, evs[..k], evs[k]);
      RunKeepsData(cfg, evs, k + 1);
    }
  }

  lemma NextKeepsData(cfg: Config, evs: seq<Event>, ev: Event)
    requires cfg.Valid()
    ensures DataKept(Run(cfg, evs), Next(cfg, Run(cfg, evs), ev))
  {
    ReachableInv(cfg, evs);
    if Enabled(cfg, Run(cfg, evs), ev) {
      StepKeepsData(cfg, Run(cfg, evs), ev);
    }
  }

  ghost predicate DataComplete(cfg: Config, s: Ledger) {
    s.data.Keys == PacketNames(cfg, Records(s.store))
  }

  lemma AddedPacket(cfg: Config, s: Ledger, r: Record, t: Ledger)
    requires WellFormed(s.store) && DataComplete(cfg, s)
    requires ToStateName(r.name) in Records(s.store) ==> Records(s.store)[ToStateName(r.name)] == r
    requires AddedAndHarvested(cfg, s.store, r, t.store) || t.store == AddStore(s.store, r)
    requires t.data.Keys == s.data.Keys + (if HoldsPacket(cfg, r) then {cfg.dataName(r.payload).value} else {})
    ensures DataComplete(cfg, t)
  {
    var recs, x := Records(s.store), ToStateName(r.name);
    AddThenHarvest(cfg, s, r, t);
    AddRecords(s.store, r);
    PacketNamesMore(cfg, recs, x, r);
    if x in recs {
      assert recs[x := r] == recs;
    }
  }

  lemma SubmissionKeepsComplete(cfg: Config, s: Ledger, payload: Bytes, tips: seq<Name>)
    requires cfg.Valid() && Inv(cfg, s) && Enabled(cfg, s, Submit(payload, tips)) && DataComplete(cfg, s)
    ensures DataComplete(cfg, SubmitStep(cfg, s, payload, tips))
  {
    if cfg.dataName(payload).value !in s.data {
      SubmissionRecordFresh(cfg, s, payload, tips);
      SubmissionData(cfg, s, payload, tips);
      SubmitEffect(cfg, s, payload, tips);
      AddedPacket(cfg, s, SubmissionRecord(cfg, s, payload, tips), SubmitStep(cfg, s, payload, tips));
    }
  }

  lemma DeliveryKeepsComplete(cfg: Config, s: Ledger, r: Record)
    requires Inv(cfg, s) && Enabled(cfg, s, Deliver(r)) && DataComplete(cfg, s)
    ensures DataComplete(cfg, DeliverStep(cfg, s, r))
  {
    RestData(cfg, AddTracked(s, r, s.seqNo), r);
    DeliverEffect(cfg, s, r);
    AddedPacket(cfg, s, r, DeliverStep(cfg, s, r));
  }

  lemma ReplyKeepsComplete(cfg: Config, s: Ledger, targets: seq<Name>)
    requires cfg.Valid() && Inv(cfg, s) && Enabled(cfg, s, ReplyTimer(targets)) && DataComplete(cfg, s)
    ensures DataComplete(cfg, ReplyStep(cfg, s, targets))
  {
    if targets != [] {
      ReplyRecordFresh(cfg, s, targets);
      ReplyData(cfg, s, targets);
      ReplyEffect(cfg, s, targets);
      AddedPacket(cfg, s, ReplyRecord(cfg, s, targets), ReplyStep(cfg, s, targets));
    }
  }

  /** In every run the stored packets are exactly those that held records carry. */
  lemma {:induction false} DataExactly(cfg: Config, evs: seq<Event>)
    requires cfg.Valid()
    ensures DataComplete(cfg, Run(cfg, evs))
  {
    if evs == [] {
      assert Run(cfg, evs) == EMPTY;
    } else {
      DataExactly(cfg, evs[..|evs| - 1]);
      NextKeepsComplete(cfg, evs[..|evs| - 1], evs[|evs| - 1]);
    }
  }

  lemma NextKeepsComplete(cfg: Config, evs: seq<Event>, ev: Event)
    requires cfg.Valid() && DataComplete(cfg, Run(cfg, evs))
    ensures DataComplete(cfg, Next(cfg, Run(cfg, evs), ev))
  {
    var s := Run(cfg, evs);
    ReachableInv(cfg, evs);
    if Enabled(cfg, s, ev) {
      match ev
      case Submit(payload, tips) => SubmissionKeepsComplete(cfg, s, payload, tips);
      case Deliver(r) => DeliveryKeepsComplete(cfg, s, r);
      case ReplyTimer(targets) => ReplyKeepsComplete(cfg, s, targets);
    }
  }

  /** A packet that alone makes up an indexed payload leads to the record of that payload. */
  lemma WholePacketIsFound(cfg: Config, t: Ledger, dn: Name, payload: Bytes, n: Name)
    requires dn in t.data && t.data[dn] == payload && cfg.mapName(payload) in t.index && t.index[cfg.mapName(payload)] == n
    requires n in t.store
    ensures StateFor(cfg, t, dn) == Some(t.store[n])
  {
  }

  /** After the harvest `r` is still held. */
  lemma HeldAfter(cfg: Config, store: Store, r: Record)
    requires HoldsRecord(AddStore(store, r), r)
    ensures HoldsRecord(HarvestStore(AddStore(store, r), cfg.Score(), cfg.threshold), r)
  {
    HarvestAt(AddStore(store, r), cfg.Score(), cfg.threshold, ToStateName(r.name));
  }

  /** A submission is found at once: its packet leads to the record just published. */
  lemma SubmissionIsFound(cfg: Config, s: Ledger, payload: Bytes, tips: seq<Name>)
    requires cfg.Valid() && Inv(cfg, s) && Enabled(cfg, s, Submit(payload, tips))
    requires cfg.dataName(payload).value !in s.data
    ensures var t := SubmitStep(cfg, s, payload, tips); var found := StateFor(cfg, t, cfg.dataName(payload).value);
      && found.Some? && found.value.status != INITIALIZED
      && found.value.record.payload == payload && found.value.record.name == cfg.ownName(s.seqNo + 1)
      && t.published == s.published + [found.value.record]
  {
    var r, t := SubmissionRecord(cfg, s, payload, tips), SubmitStep(cfg, s, payload, tips);
    NewDataNotIndexed(cfg, s, payload);
    SubmissionAdded(cfg, s, payload, tips);
    HeldAfter(cfg, s.store, r);
    SubmitResult(cfg, s, payload, tips);
    SubmitFields(cfg, s, payload, tips);
    WholePacketIsFound(cfg, t, cfg.dataName(payload).value, payload, ToStateName(r.name));
  }

  lemma NewPacketFields(cfg: Config, s1: Ledger, r: Record, t: Ledger)
    requires HoldsPacket(cfg, r) && cfg.dataName(r.payload).value !in s1.data && cfg.mapName(r.payload) !in s1.index
    requires t == DeliverRest(cfg, s1, r)
    ensures t.data == s1.data[cfg.dataName(r.payload).value := cfg.packetOf(r.payload)]
    ensures t.index == s1.index[cfg.mapName(r.payload) := ToStateName(r.name)]
    ensures t.store == HarvestStore(s1.store, cfg.Score(), cfg.threshold)
  {
  }

  /** A delivered packet not stored before is found at once, unless octets follow it. */
  lemma DeliveryIsFound(cfg: Config, s: Ledger, r: Record)
    requires Inv(cfg, s) && Enabled(cfg, s, Deliver(r))
    requires cfg.IsPacket(r.payload) && !r.IsReply() && cfg.dataName(r.payload).value !in s.data
    ensures var t := DeliverStep(cfg, s, r); var found := StateFor(cfg, t, cfg.dataName(r.payload).value);
      found.Some? && found.value.status != INITIALIZED && found.value.record == r
  {
    var t := DeliverStep(cfg, s, r);
    AddLoads(s.store, r);
    HeldAfter(cfg, s.store, r);
    NewDataNotIndexed(cfg, s, r.payload);
    NewPacketFields(cfg, AddTracked(s, r, s.seqNo), r, t);
    WholePacketIsFound(cfg, t, cfg.dataName(r.payload).value, r.payload, ToStateName(r.name));
  }
}
