/** What holds over every run of a ledger instance. */
module LedgerRuns {
  import opened Names
  import opened Reachability
  import opened DagSpec
  import opened DagTheorems
  import opened Policies
  import opened Sets
  import opened Tlv
  import opened IndexCodec
  import opened LedgerSpec

  // ----- Own names -----

  /** The configuration of an instance: publications named by a sequence number after the
      instance's name, octets indexed by digest. */
  function InstanceConfig(threshold: nat, select: Selector, digest: Bytes -> Bytes,
                          dataName: Bytes -> Option<Name>, packetOf: Bytes -> Bytes, instance: Name): Config
  {
    Config(threshold, select, octets => ToMapName(digest, octets), dataName, packetOf, (k: nat) => SequenceName(instance, k))
  }

  // Component type of a sequence number.
  const SEQUENCE_COMPONENT := 58

  function SequenceName(instance: Name, k: nat): Name {
    instance + [Component(SEQUENCE_COMPONENT, EncodeNni(k))]
  }

  /** Neither two instances nor two publications of one share a name. */
  lemma SequenceNameInjective(instance: Name, other: Name, j: nat, k: nat)
    requires j < TWO_64 && k < TWO_64 && SequenceName(instance, j) == SequenceName(other, k)
    ensures instance == other && j == k
  {
    var n := SequenceName(instance, j);
    assert n[..|n| - 1] == instance && SequenceName(other, k)[..|n| - 1] == other;
    assert n[|n| - 1].value == EncodeNni(j) && SequenceName(other, k)[|n| - 1].value == EncodeNni(k);
    NniRoundTrip(j);
    NniRoundTrip(k);
  }

  /** A small number is one octet, in a component of type 58. */
  lemma SequenceNameText(instance: Name, k: nat)
    requires k < 256
    ensures SequenceName(instance, k) == instance + [Component(58, [k])]
  {
    NniOctets(k);
  }

  // ----- Witnesses of instances -----

  /** The state of some publication of an instance. */
  ghost predicate IsPublicationOf(n: Name, instance: Name) {
    exists k: nat :: n == ToStateName(SequenceName(instance, k))
  }

  lemma PublicationProducer(n: Name, instance: Name)
    requires IsPublicationOf(n, instance)
    ensures Producer(n) == instance
  {
    var k: nat :| n == ToStateName(SequenceName(instance, k));
    ProducerOf(instance, Component(SEQUENCE_COMPONENT, EncodeNni(k)));
  }

  ghost predicate FromOneOf(n: Name, instances: set<Name>) {
    exists i :: i in instances && IsPublicationOf(n, i)
  }

  ghost predicate HasOneOf(d: set<Name>, instance: Name) {
    exists n :: n in d && IsPublicationOf(n, instance)
  }

  lemma ProducersAreInstances(d: set<Name>, instances: set<Name>, p: Name)
    requires forall n :: n in d ==> FromOneOf(n, instances)
    requires forall i :: i in instances ==> HasOneOf(d, i)
    ensures p in Producers(d) <==> p in instances
  {
    if p in instances {
      assert HasOneOf(d, p);
      var n :| n in d && IsPublicationOf(n, p);
      PublicationProducer(n, p);
    }
    if p in Producers(d) {
      var n :| n in d && Producer(n) == p;
      assert FromOneOf(n, instances);
      var i :| i in instances && IsPublicationOf(n, i);
      PublicationProducer(n, i);
    }
  }

  /** The witness policy scores publications by how many instances made them. */
  lemma WitnessesCountInstances(d: set<Name>, instances: set<Name>)
    requires forall n :: n in d ==> FromOneOf(n, instances)
    requires forall i :: i in instances ==> HasOneOf(d, i)
    ensures ScoreOf(Witnesses)(d) == |instances|
  {
    forall p ensures p in Producers(d) <==> p in instances {
      ProducersAreInstances(d, instances, p);
    }
    assert Producers(d) == instances;
    WitnessScore(d);
  }

  /** However many publications one instance makes, they count once. */
  lemma OneInstanceCountsOnce(d: set<Name>, instance: Name)
    requires d != {} && forall n :: n in d ==> IsPublicationOf(n, instance)
    ensures ScoreOf(Witnesses)(d) == 1
  {
    forall n | n in d ensures FromOneOf(n, {instance}) {
      assert instance in {instance} && IsPublicationOf(n, instance);
    }
    var n :| n in d;
    assert HasOneOf(d, instance);
    WitnessesCountInstances(d, {instance});
  }

  /** Publications of two instances count twice. */
  lemma TwoInstancesCountTwice(a: Name, b: Name, j: nat, k: nat)
    requires a != b
    ensures ScoreOf(Witnesses)({ToStateName(SequenceName(a, j)), ToStateName(SequenceName(b, k))}) == 2
  {
    var m, n := ToStateName(SequenceName(a, j)), ToStateName(SequenceName(b, k));
    ProducerOf(a, Component(SEQUENCE_COMPONENT, EncodeNni(j)));
    ProducerOf(b, Component(SEQUENCE_COMPONENT, EncodeNni(k)));
    TwoProducers(m, n);
    WitnessScore({m, n});
  }

  lemma TwoProducers(m: Name, n: Name)
    requires Producer(m) != Producer(n)
    ensures |Producers({m, n})| == 2
  {
    assert Producers({m, n}) == {Producer(m), Producer(n)};
  }

  /** Both policies make a valid configuration, for every threshold of at least one. */
  lemma InstanceConfigValid(threshold: nat, select: Selector, digest: Bytes -> Bytes,
                            dataName: Bytes -> Option<Name>, packetOf: Bytes -> Bytes, instance: Name)
    requires threshold >= 1 && (select == AllDescendants || select == Witnesses)
    requires forall payload :: ReadsPacket(dataName, packetOf, payload)
    ensures InstanceConfig(threshold, select, digest, dataName, packetOf, instance).Valid()
  {
    var cfg := InstanceConfig(threshold, select, digest, dataName, packetOf, instance);
    DescendantsWellBehaved();
    WitnessWellBehaved();
    forall j: nat, k: nat | j < TWO_64 && k < TWO_64 ensures TellsApart<nat>(cfg.ownName, j, k) {
      if cfg.ownName(j) == cfg.ownName(k) {
        SequenceNameInjective(instance, instance, j, k);
      }
    }
  }

  lemma OwnNameNotLater(cfg: Config, k: nat)
    requires cfg.Valid() && k < TWO_64
    ensures NotFuture(cfg, k, cfg.ownName(k))
  {
    forall j | k < j < TWO_64 ensures cfg.ownName(k) != cfg.ownName(j) {
      assert TellsApart<nat>(cfg.ownName, k, j);
    }
  }

  lemma HeldNameNotFuture(cfg: Config, s: Ledger, n: Name)
    requires Inv(cfg, s) && n in Records(s.store)
    ensures NotFuture(cfg, s.seqNo + 1, Records(s.store)[n].name)
    ensures ToStateName(Records(s.store)[n].name) == n
  {
    assert NotFuture(cfg, s.seqNo, Records(s.store)[n].name);
    assert WellFormedState(s.store, n);
  }

  // ----- Tips -----

  /** No descendants means score zero, and conversely. */
  lemma ZeroScore(cfg: Config, d: set<Name>)
    requires cfg.Valid()
    ensures cfg.Score()(d) == 0 <==> d == {}
  {
    assert cfg.Score()(d) == |cfg.select(d)|;
    assert cfg.select(d) <= d;
  }

  /** The tips are exactly the loaded records without descendants; nothing pending is one,
      and nothing interlocked has none. */
  lemma TipsAreLoaded(cfg: Config, s: Ledger, n: Name)
    requires cfg.Valid() && Inv(cfg, s)
    ensures n in TipStates(cfg, s) <==> n in Records(s.store) && s.store[n].descendants == {}
    ensures n in TipStates(cfg, s) ==> s.store[n].status == LOADED && FromStateName(n) == s.store[n].record.name
  {
    if n in s.store {
      ZeroScore(cfg, s.store[n].descendants);
      assert WellFormedState(s.store, n);
    }
  }

  lemma TipsExactly(cfg: Config, s: Ledger)
    requires cfg.Valid() && Inv(cfg, s)
    ensures forall n :: n in TipStates(cfg, s) <==> n in Records(s.store) && s.store[n].descendants == {}
  {
    forall n ensures n in TipStates(cfg, s) <==> n in Records(s.store) && s.store[n].descendants == {} {
      TipsAreLoaded(cfg, s, n);
    }
  }

  lemma SomeNames(states: set<Name>)
    requires states != {}
    ensures RecordNames(states) != {}
  {
    var n :| n in states;
    assert FromStateName(n) in RecordNames(states);
  }

  lemma NoTips(cfg: Config, s: Ledger)
    requires Enumerates([], RecordNames(TipStates(cfg, s)))
    ensures TipStates(cfg, s) == {}
  {
    assert RecordNames(TipStates(cfg, s)) == {};
    if TipStates(cfg, s) != {} {
      SomeNames(TipStates(cfg, s));
    }
  }

  /** A submission that is not a duplicate publishes a record that points at exactly the
      loaded records without descendants, or at itself alone when there are none. */
  lemma SubmissionPointsAtTips(cfg: Config, s: Ledger, payload: Bytes, tips: seq<Name>)
    requires cfg.Valid() && Inv(cfg, s) && Enabled(cfg, s, Submit(payload, tips))
    ensures var r := SubmissionRecord(cfg, s, payload, tips);
      if r.IsGenesis() then
        r.pointers == [r.name] && Parents(r) == {ToStateName(r.name)}
        && forall n :: n in Records(s.store) ==> s.store[n].descendants != {}
      else
        r.rtype == GENERIC_RECORD
        && forall n :: n in Parents(r) <==> n in Records(s.store) && s.store[n].descendants == {}
  {
    var r := SubmissionRecord(cfg, s, payload, tips);
    TipsExactly(cfg, s);
    if tips == [] {
      NoTips(cfg, s);
      assert r.pointers[0] == r.name;
    } else {
      TipPointers(cfg, s, tips, r);
    }
  }

  lemma TipPointers(cfg: Config, s: Ledger, tips: seq<Name>, r: Record)
    requires cfg.Valid() && Inv(cfg, s) && r.pointers == tips
    requires Enumerates(tips, RecordNames(TipStates(cfg, s)))
    ensures Parents(r) == TipStates(cfg, s)
  {
    forall n | n in TipStates(cfg, s) ensures n in Parents(r) {
      TipsAreLoaded(cfg, s, n);
      assert WellFormedState(s.store, n);
      assert FromStateName(n) in tips;
    }
    forall n | n in Parents(r) ensures n in TipStates(cfg, s) {
      var p :| p in tips && ToStateName(p) == n;
      var m :| m in TipStates(cfg, s) && FromStateName(m) == p;
      TipsAreLoaded(cfg, s, m);
      assert WellFormedState(s.store, m);
    }
  }

  /** Nothing leads to a name no record points at. */
  lemma UnmentionedUnreached(store: Store, r: Record)
    requires ToStateName(r.name) !in store && ToStateName(r.name) !in Parents(r)
    requires forall m :: m in Records(store) ==> ToStateName(r.name) !in Parents(Records(store)[m])
    ensures !IsAncestor(Load(store, r), r, ToStateName(r.name))
  {
    var x, f := ToStateName(r.name), Expandable(Load(store, r));
    forall n | n in f ensures x !in f[n] {
      if n != x {
        assert n in Records(store) && f[n] == Parents(Records(store)[n]);
      }
    }
    if Reaches(f, Parents(r), x) {
      ReachesTarget(f, Parents(r), x);
    }
  }

  lemma FreshSources(store: Store, r: Record)
    requires ToStateName(r.name) !in store
    ensures Sources(Load(store, r), ToStateName(r.name)) == if r.IsGenesis() then {} else {ToStateName(r.name)}
  {
  }

  lemma FreshRecordOwnState(store: Store, r: Record)
    requires ToStateName(r.name) !in store
    requires r.IsGenesis() || ToStateName(r.name) !in Parents(r)
    requires forall m :: m in Records(store) ==> ToStateName(r.name) !in Parents(Records(store)[m])
    ensures var t, x := AddStore(store, r), ToStateName(r.name);
      x in t && t[x].status == LOADED && t[x].descendants == {}
  {
    AddEffect(store, r, ToStateName(r.name));
    FreshSources(store, r);
    if !r.IsGenesis() {
      UnmentionedUnreached(store, r);
    }
  }

  lemma TipGainsFresh(store: Store, r: Record, n: Name)
    requires ToStateName(r.name) !in store && !r.IsGenesis()
    requires n in Parents(r) && n in store && store[n].status == LOADED
    ensures ToStateName(r.name) in Lookup(AddStore(store, r), n).descendants
  {
    AddEffect(store, r, n);
    FreshSources(store, r);
    ReachesStart(Expandable(Load(store, r)), Parents(r), n);
  }

  /** Adding a fresh record that points at every tip, or a genesis record when there is
      none, leaves it the only tip. */
  lemma FreshRecordIsOnlyTip(cfg: Config, s: Ledger, r: Record, n: Name)
    requires cfg.Valid() && Inv(cfg, s) && FreshOverTips(cfg, s, r)
    ensures var t := AddStore(s.store, r);
      n in t && t[n].status != INTERLOCKED && t[n].descendants == {} <==> n == ToStateName(r.name)
  {
    if n == ToStateName(r.name) {
      FreshRecordOwnState(s.store, r);
    } else {
      TipsAreLoaded(cfg, s, n);
      AddEffect(s.store, r, n);
      if n in TipStates(cfg, s) {
        TipGainsFresh(s.store, r, n);
      } else if n in s.store {
        assert WellFormedState(s.store, n);
      }
    }
  }

  // ----- Steps keep the invariant -----

  lemma DistinctSubset(cfg: Config, strings: set<Bytes>, fewer: set<Bytes>)
    requires Distinct(cfg, strings) && fewer <= strings
    ensures Distinct(cfg, fewer)
  {
    forall a, b | a in fewer && b in fewer ensures TellsApart(cfg.mapName, a, b) {
      assert a in strings && b in strings;
    }
  }

  lemma DigestedMore(store: Store, data: map<Name, Bytes>, index: map<Name, Name>, dn: Name, packet: Bytes, m: Name, n: Name)
    requires n in store
    ensures Digested(store, data[dn := packet], index[m := n]) <=
            Digested(store, data, index) + {store[n].record.payload, packet}
  {
    var more, all := index[m := n], data[dn := packet];
    forall b | b in Digested(store, all, more)
      ensures b in Digested(store, data, index) + {store[n].record.payload, packet}
    {
      if o :| o in more && PayloadAt(store, more, o) == b {
        if o != m {
          assert PayloadAt(store, index, o) == b;
        }
      } else {
        var k :| k in all && all[k] == b;
        assert k == dn || (k in data && data[k] in data.Values);
      }
    }
  }

  lemma BringsMore(cfg: Config, store: Store, index: map<Name, Name>, m: Name, n: Name, o: Name, k: Name)
    requires m !in index && n in store
    ensures Brings(cfg, store, index[m := n], o, k) <==>
            if o == m then cfg.dataName(store[n].record.payload) == Some(k) else Brings(cfg, store, index, o, k)
  {
  }

  lemma StillIndexed(cfg: Config, store: Store, index: map<Name, Name>, m0: Name, n: Name, dn: Name, k: Name)
    requires m0 !in index && n in store && cfg.dataName(store[n].record.payload) == Some(dn)
    requires k == dn || PacketIndexed(cfg, store, index, k)
    ensures PacketIndexed(cfg, store, index[m0 := n], k)
  {
    BringsMore(cfg, store, index, m0, n, m0, k);
    if k != dn {
      var m :| Brings(cfg, store, index, m, k);
      BringsMore(cfg, store, index, m0, n, m, k);
    }
  }

  lemma BroughtOnce(cfg: Config, store: Store, data: map<Name, Bytes>, index: map<Name, Name>, dn: Name, m0: Name, n: Name,
                    m: Name, o: Name, k: Name)
    requires IndexOk(cfg, store, data, index) && dn !in data && m0 !in index
    requires n in store && cfg.dataName(store[n].record.payload) == Some(dn)
    requires Brings(cfg, store, index[m0 := n], m, k) && Brings(cfg, store, index[m0 := n], o, k)
    ensures m == o
  {
    BringsMore(cfg, store, index, m0, n, m, k);
    BringsMore(cfg, store, index, m0, n, o, k);
    BroughtIsStored(cfg, store, data, index, m, k);
    BroughtIsStored(cfg, store, data, index, o, k);
  }

  lemma IndexAdded(cfg: Config, store: Store, data: map<Name, Bytes>, index: map<Name, Name>, dn: Name, payload: Bytes, n: Name)
    requires IndexOk(cfg, store, data, index)
    requires Distinct(cfg, Digested(store, data, index) + {payload, cfg.packetOf(payload)})
    requires cfg.dataName(payload) == Some(dn) && dn !in data && cfg.mapName(payload) !in index
    requires n in store && store[n].status != INITIALIZED && store[n].record.payload == payload
    ensures IndexOk(cfg, store, data[dn := cfg.packetOf(payload)], index[cfg.mapName(payload) := n])
  {
    var all, m0 := data[dn := cfg.packetOf(payload)], cfg.mapName(payload);
    var more := index[m0 := n];
    forall m | m in more ensures Indexes(cfg, store, all, m, more[m]) {
      if m != m0 {
        assert Indexes(cfg, store, data, m, index[m]);
      }
    }
    forall k | k in all ensures PacketIndexed(cfg, store, more, k) {
      StillIndexed(cfg, store, index, m0, n, dn, k);
    }
    forall m, o, k | Brings(cfg, store, more, m, k) && Brings(cfg, store, more, o, k) ensures m == o {
      BroughtOnce(cfg, store, data, index, dn, m0, n, m, o, k);
    }
    DigestedMore(store, data, index, dn, cfg.packetOf(payload), m0, n);
    DistinctSubset(cfg, Digested(store, data, index) + {payload, cfg.packetOf(payload)}, Digested(store, all, more));
  }

  lemma BroughtIsStored(cfg: Config, store: Store, data: map<Name, Bytes>, index: map<Name, Name>, m: Name, dn: Name)
    requires IndexOk(cfg, store, data, index)
    ensures Brings(cfg, store, index, m, dn) ==>
      && index[m] in Records(store) && cfg.mapName(PayloadAt(store, index, m)) == m
      && dn in data && data[dn] == cfg.packetOf(PayloadAt(store, index, m))
  {
    if Brings(cfg, store, index, m, dn) {
      assert Indexes(cfg, store, data, m, index[m]);
    }
  }

  /** A payload whose data name is new is never indexed already, so the storage never
      refuses a submission's index entry. */
  lemma NewDataNotIndexed(cfg: Config, s: Ledger, payload: Bytes)
    requires Inv(cfg, s) && NoCollision(cfg, s, payload)
    requires cfg.dataName(payload).Some? && cfg.dataName(payload).value !in s.data
    ensures cfg.mapName(payload) !in s.index
  {
    var m := cfg.mapName(payload);
    if m in s.index {
      IndexedPayload(cfg, s, payload);
    }
  }

  /** What the index holds for a payload is a record with that very payload, unless the
      payload collides with an indexed one. */
  lemma IndexedPayload(cfg: Config, s: Ledger, payload: Bytes)
    requires IndexOk(cfg, s.store, s.data, s.index) && cfg.mapName(payload) in s.index
    requires NoCollision(cfg, s, payload)
    ensures var n := s.index[cfg.mapName(payload)];
      && n in Records(s.store) && Records(s.store)[n].payload == payload
      && cfg.dataName(payload).Some? && cfg.dataName(payload).value in s.data
  {
    var n := s.index[cfg.mapName(payload)];
    assert Indexes(cfg, s.store, s.data, cfg.mapName(payload), n);
    assert PayloadAt(s.store, s.index, cfg.mapName(payload)) in Digested(s.store, s.data, s.index);
    assert TellsApart(cfg.mapName, Lookup(s.store, n).record.payload, payload);
  }

  /** A stored packet is found in the index exactly when nothing followed it in the payload
      it came with: that payload is what is indexed. */
  lemma FoundIffWhole(cfg: Config, s: Ledger, dn: Name, m: Name)
    requires cfg.Valid() && IndexOk(cfg, s.store, s.data, s.index) && Brings(cfg, s.store, s.index, m, dn)
    ensures dn in s.data && (PayloadAt(s.store, s.index, m) == s.data[dn] <==> cfg.mapName(s.data[dn]) in s.index)
    ensures cfg.mapName(s.data[dn]) in s.index ==> cfg.mapName(s.data[dn]) == m
  {
    BroughtIsStored(cfg, s.store, s.data, s.index, m, dn);
    var payload, o := PayloadAt(s.store, s.index, m), cfg.mapName(s.data[dn]);
    if o in s.index {
      assert Indexes(cfg, s.store, s.data, o, s.index[o]);
      assert s.data[dn] in Digested(s.store, s.data, s.index) && PayloadAt(s.store, s.index, o) in Digested(s.store, s.data, s.index);
      assert TellsApart(cfg.mapName, PayloadAt(s.store, s.index, o), s.data[dn]);
      assert ReadsPacket(cfg.dataName, cfg.packetOf, payload);
      assert Brings(cfg, s.store, s.index, o, dn);
    }
  }

  /** Records added later do not change what is indexed. */
  lemma NoCollisionKept(cfg: Config, s: Ledger, t: Ledger, payload: Bytes)
    requires Inv(cfg, s) && NoCollision(cfg, s, payload)
    requires Keeps(s.store, t.store) && t.index == s.index && t.data == s.data
    ensures NoCollision(cfg, t, payload)
  {
    IndexOkKept(cfg, s.store, t.store, s.data, s.index);
  }

  lemma SubmissionRecordFresh(cfg: Config, s: Ledger, payload: Bytes, tips: seq<Name>)
    requires cfg.Valid() && Inv(cfg, s) && Enabled(cfg, s, Submit(payload, tips))
    ensures var r := SubmissionRecord(cfg, s, payload, tips);
      && ToStateName(r.name) !in s.store
      && NotFuture(cfg, s.seqNo + 1, r.name)
      && (forall p :: p in r.pointers ==> NotFuture(cfg, s.seqNo + 1, p))
      && (forall m :: m in Records(s.store) ==> ToStateName(r.name) !in Parents(Records(s.store)[m]))
  {
    var r := SubmissionRecord(cfg, s, payload, tips);
    FutureNotStored(cfg, s.store, s.seqNo, s.seqNo + 1);
    OwnNameNotLater(cfg, s.seqNo + 1);
    forall p | p in r.pointers ensures NotFuture(cfg, s.seqNo + 1, p) {
      if tips != [] {
        assert p in RecordNames(TipStates(cfg, s));
        var n :| n in TipStates(cfg, s) && FromStateName(n) == p;
        TipsAreLoaded(cfg, s, n);
        HeldNameNotFuture(cfg, s, n);
      }
    }
  }

  lemma PublishNonReply(store: Store, replied: set<Name>, published: seq<Record>, r: Record)
    requires RepliedOk(store, replied, published) && RepliesOnce(published) && !r.IsReply()
    ensures RepliedOk(store, replied, published + [r]) && RepliesOnce(published + [r])
  {
  }

  /** The invariant is rebuilt when only what is named here changes. */
  lemma InvWith(cfg: Config, s: Ledger, data: map<Name, Bytes>, index: map<Name, Name>, replied: set<Name>, published: seq<Record>)
    requires Inv(cfg, s)
    requires IndexOk(cfg, s.store, data, index)
    requires RepliedOk(s.store, replied, published) && RepliesOnce(published)
    ensures Inv(cfg, s.(data := data, index := index, replied := replied, published := published))
  {
  }

  lemma AddTrackedInv(cfg: Config, s: Ledger, r: Record, later: nat)
    requires Inv(cfg, s) && later >= s.seqNo
    requires NotFuture(cfg, later, r.name) && forall p :: p in r.pointers ==> NotFuture(cfg, later, p)
    requires ToStateName(r.name) in Records(s.store) ==> Records(s.store)[ToStateName(r.name)] == r
    ensures var s1 := AddTracked(s, r, later);
      Inv(cfg, s1) && HoldsRecord(s1.store, r)
  {
    TrackerOkKept(s.store, s.tracker, r);
    AddKeepsInv(cfg, s, r, s.tracker + {ToStateName(r.name)}, later);
    AddLoads(s.store, r);
  }

  ghost predicate HoldsRecord(store: Store, r: Record) {
    var x := ToStateName(r.name);
    x in store && store[x].status != INITIALIZED && store[x].record == r
  }

  lemma SubmitKeepsInv(cfg: Config, s: Ledger, payload: Bytes, tips: seq<Name>)
    requires cfg.Valid() && Inv(cfg, s) && Enabled(cfg, s, Submit(payload, tips))
    ensures Inv(cfg, SubmitStep(cfg, s, payload, tips))
  {
    var dn := cfg.dataName(payload).value;
    if dn !in s.data {
      var r := SubmissionRecord(cfg, s, payload, tips);
      NewDataNotIndexed(cfg, s, payload);
      SubmissionAdded(cfg, s, payload, tips);
      AddKeeps(s.store, r);
      NoCollisionKept(cfg, s, AddTracked(s, r, s.seqNo + 1), payload);
      SubmitRest(cfg, AddTracked(s, r, s.seqNo + 1), r, dn);
      SubmitStepParts(cfg, s, payload, tips);
    }
  }

  lemma SubmissionAdded(cfg: Config, s: Ledger, payload: Bytes, tips: seq<Name>)
    requires cfg.Valid() && Inv(cfg, s) && Enabled(cfg, s, Submit(payload, tips))
    ensures var r := SubmissionRecord(cfg, s, payload, tips); var s1 := AddTracked(s, r, s.seqNo + 1);
      Inv(cfg, s1) && HoldsRecord(s1.store, r)
  {
    var r := SubmissionRecord(cfg, s, payload, tips);
    SubmissionRecordFresh(cfg, s, payload, tips);
    assert ToStateName(r.name) !in Records(s.store);
    AddTrackedInv(cfg, s, r, s.seqNo + 1);
  }

  /** The state a submission harvests: the record added and tracked, published and indexed. */
  ghost function Submitted(cfg: Config, s: Ledger, payload: Bytes, tips: seq<Name>): Ledger
    requires cfg.dataName(payload).Some?
  {
    var r := SubmissionRecord(cfg, s, payload, tips);
    AddTracked(s, r, s.seqNo + 1).(data := s.data[cfg.dataName(payload).value := payload],
                                   index := s.index[cfg.mapName(payload) := ToStateName(r.name)],
                                   published := s.published + [r])
  }

  lemma SubmitStepParts(cfg: Config, s: Ledger, payload: Bytes, tips: seq<Name>)
    requires cfg.dataName(payload).Some? && cfg.dataName(payload).value !in s.data
    requires cfg.mapName(payload) !in s.index
    ensures SubmitStep(cfg, s, payload, tips) == HarvestStep(cfg, Submitted(cfg, s, payload, tips))
  {
    var r, dn := SubmissionRecord(cfg, s, payload, tips), cfg.dataName(payload).value;
    NewIndexHarvests(cfg, PublishAndAdd(s.(data := s.data[dn := payload]), r), r);
    SameInAnyOrder(s, r, s.data[dn := payload], s.index[cfg.mapName(payload) := ToStateName(r.name)]);
  }

  lemma NewIndexHarvests(cfg: Config, u: Ledger, r: Record)
    requires cfg.mapName(r.payload) !in u.index
    ensures IndexAndHarvest(cfg, u, r) ==
            HarvestStep(cfg, u.(index := u.index[cfg.mapName(r.payload) := ToStateName(r.name)],
                                tracker := u.tracker + {ToStateName(r.name)}))
  {
  }

  lemma SameInAnyOrder(s: Ledger, r: Record, data: map<Name, Bytes>, index: map<Name, Name>)
    ensures PublishAndAdd(s.(data := data), r).(index := index, tracker := s.tracker + {ToStateName(r.name)}) ==
            AddTracked(s, r, s.seqNo + 1).(data := data, index := index, published := s.published + [r])
  {
  }

  lemma SubmitRest(cfg: Config, s1: Ledger, r: Record, dn: Name)
    requires Inv(cfg, s1) && !r.IsReply() && cfg.IsPacket(r.payload) && cfg.dataName(r.payload) == Some(dn)
    requires dn !in s1.data && cfg.mapName(r.payload) !in s1.index && NoCollision(cfg, s1, r.payload)
    requires HoldsRecord(s1.store, r)
    ensures Inv(cfg, HarvestStep(cfg, s1.(data := s1.data[dn := r.payload],
                                          index := s1.index[cfg.mapName(r.payload) := ToStateName(r.name)],
                                          published := s1.published + [r])))
  {
    PublishNonReply(s1.store, s1.replied, s1.published, r);
    IndexAdded(cfg, s1.store, s1.data, s1.index, dn, r.payload, ToStateName(r.name));
    InvWith(cfg, s1, s1.data[dn := r.payload], s1.index[cfg.mapName(r.payload) := ToStateName(r.name)],
            s1.replied, s1.published + [r]);
    HarvestKeepsInv(cfg, s1.(data := s1.data[dn := r.payload],
                             index := s1.index[cfg.mapName(r.payload) := ToStateName(r.name)],
                             published := s1.published + [r]));
  }

  lemma DeliverKeepsInv(cfg: Config, s: Ledger, r: Record)
    requires cfg.Valid() && Inv(cfg, s) && Enabled(cfg, s, Deliver(r))
    ensures Inv(cfg, DeliverStep(cfg, s, r))
  {
    var s1 := AddTracked(s, r, s.seqNo);
    AddTrackedInv(cfg, s, r, s.seqNo);
    if !r.IsReply() {
      AddKeeps(s.store, r);
      NoCollisionKept(cfg, s, s1, r.payload);
    }
    DeliverRestInv(cfg, s1, r);
  }

  lemma DeliverRestInv(cfg: Config, s1: Ledger, r: Record)
    requires Inv(cfg, s1) && HoldsRecord(s1.store, r) && (!r.IsReply() ==> NoCollision(cfg, s1, r.payload))
    ensures Inv(cfg, DeliverRest(cfg, s1, r))
  {
    if r.IsReply() {
      HarvestKeepsInv(cfg, s1);
    } else if cfg.dataName(r.payload).Some? && cfg.dataName(r.payload).value !in s1.data {
      NewPacketInv(cfg, s1, r, cfg.dataName(r.payload).value);
    }
  }

  lemma NewPacketInv(cfg: Config, s1: Ledger, r: Record, dn: Name)
    requires Inv(cfg, s1) && cfg.dataName(r.payload) == Some(dn)
    requires dn !in s1.data && HoldsRecord(s1.store, r) && NoCollision(cfg, s1, r.payload)
    ensures Inv(cfg, HarvestStep(cfg, WithPacket(cfg, s1, r, dn)))
  {
    PacketKeepsInv(cfg, s1, r, dn);
    HarvestKeepsInv(cfg, WithPacket(cfg, s1, r, dn));
  }

  lemma PacketKeepsInv(cfg: Config, s1: Ledger, r: Record, dn: Name)
    requires Inv(cfg, s1) && cfg.dataName(r.payload) == Some(dn)
    requires dn !in s1.data && HoldsRecord(s1.store, r) && NoCollision(cfg, s1, r.payload)
    ensures Inv(cfg, WithPacket(cfg, s1, r, dn))
  {
    var t := WithPacket(cfg, s1, r, dn);
    NewDataNotIndexed(cfg, s1, r.payload);
    IndexAdded(cfg, s1.store, s1.data, s1.index, dn, r.payload, ToStateName(r.name));
    InvWith(cfg, s1, t.data, t.index, s1.replied, s1.published);
  }

  /** A reply target is a loaded record no earlier reply referenced. */
  lemma TargetIsNew(cfg: Config, s: Ledger, p: Name)
    requires Inv(cfg, s) && p in ReplyTargets(cfg, s)
    ensures LoadedNonReply(s.store, p) && p !in s.replied && NotFuture(cfg, s.seqNo + 1, p)
    ensures forall i :: 0 <= i < |s.published| && s.published[i].IsReply() ==> p !in s.published[i].pointers
  {
    var n :| n in s.store && s.store[n].status == LOADED && !s.store[n].record.IsReply()
             && s.store[n].record.name == p && p !in s.replied;
    assert n in Records(s.store);
    HeldNameNotFuture(cfg, s, n);
  }

  lemma RepliedMore(cfg: Config, s: Ledger, targets: seq<Name>)
    requires Inv(cfg, s) && Enumerates(targets, ReplyTargets(cfg, s))
    ensures Inv(cfg, s.(replied := s.replied + Elements(targets)))
  {
    forall p | p in targets ensures LoadedNonReply(s.store, p) {
      TargetIsNew(cfg, s, p);
    }
    InvWith(cfg, s, s.data, s.index, s.replied + Elements(targets), s.published);
  }

  lemma PublishReply(cfg: Config, s: Ledger, store: Store, r: Record)
    requires Inv(cfg, s) && r.IsReply() && r.pointers != [] && Enumerates(r.pointers, ReplyTargets(cfg, s))
    requires RepliedOk(store, s.replied + Elements(r.pointers), s.published)
    ensures RepliedOk(store, s.replied + Elements(r.pointers), s.published + [r])
    ensures RepliesOnce(s.published + [r])
  {
    forall p | p in r.pointers
      ensures LoadedNonReply(store, p)
      ensures forall i :: 0 <= i < |s.published| && s.published[i].IsReply() ==> p !in s.published[i].pointers
    {
      TargetIsNew(cfg, s, p);
      assert p in s.replied + Elements(r.pointers);
    }
  }

  lemma ReplyRecordFresh(cfg: Config, s: Ledger, targets: seq<Name>)
    requires cfg.Valid() && Inv(cfg, s) && Enabled(cfg, s, ReplyTimer(targets))
    ensures var r := ReplyRecord(cfg, s, targets);
      && ToStateName(r.name) !in s.store
      && NotFuture(cfg, s.seqNo + 1, r.name)
      && (forall p :: p in r.pointers ==> NotFuture(cfg, s.seqNo + 1, p))
      && (forall m :: m in Records(s.store) ==> ToStateName(r.name) !in Parents(Records(s.store)[m]))
  {
    FutureNotStored(cfg, s.store, s.seqNo, s.seqNo + 1);
    OwnNameNotLater(cfg, s.seqNo + 1);
    forall p | p in targets ensures NotFuture(cfg, s.seqNo + 1, p) {
      TargetIsNew(cfg, s, p);
    }
  }

  lemma ReplyKeepsInv(cfg: Config, s: Ledger, targets: seq<Name>)
    requires cfg.Valid() && Inv(cfg, s) && Enabled(cfg, s, ReplyTimer(targets))
    ensures Inv(cfg, ReplyStep(cfg, s, targets))
  {
    if targets != [] {
      IssueKeepsInv(cfg, s, s.(replied := s.replied + Elements(targets)), targets, ReplyRecord(cfg, s, targets));
    }
  }

  lemma IssueKeepsInv(cfg: Config, s: Ledger, s0: Ledger, targets: seq<Name>, r: Record)
    requires cfg.Valid() && Inv(cfg, s) && Enabled(cfg, s, ReplyTimer(targets)) && targets != []
    requires s0 == s.(replied := s.replied + Elements(targets)) && r == ReplyRecord(cfg, s, targets)
    ensures Inv(cfg, IssueStep(cfg, s0, r))
  {
    ReplyRecordFresh(cfg, s, targets);
    RepliedMore(cfg, s, targets);
    IssuedInv(cfg, s, s0, r);
    HarvestKeepsInv(cfg, PublishAndAdd(s0, r));
  }

  lemma IssuedInv(cfg: Config, s: Ledger, s0: Ledger, r: Record)
    requires Inv(cfg, s) && Inv(cfg, s0)
    requires r.IsReply() && r.pointers != [] && Enumerates(r.pointers, ReplyTargets(cfg, s))
    requires s0.replied == s.replied + Elements(r.pointers) && s0.published == s.published
    requires NotFuture(cfg, s0.seqNo + 1, r.name) && forall p :: p in r.pointers ==> NotFuture(cfg, s0.seqNo + 1, p)
    requires ToStateName(r.name) !in s0.store
    ensures Inv(cfg, PublishAndAdd(s0, r))
  {
    AddUntrackedInv(cfg, s0, r, s0.seqNo + 1);
    PublishedInv(cfg, s, s0.(store := AddStore(s0.store, r), seqNo := s0.seqNo + 1), r);
  }

  lemma PublishedInv(cfg: Config, s: Ledger, s1: Ledger, r: Record)
    requires Inv(cfg, s) && Inv(cfg, s1)
    requires r.IsReply() && r.pointers != [] && Enumerates(r.pointers, ReplyTargets(cfg, s))
    requires s1.replied == s.replied + Elements(r.pointers) && s1.published == s.published
    ensures Inv(cfg, s1.(published := s1.published + [r]))
  {
    PublishReply(cfg, s, s1.store, r);
    InvWith(cfg, s1, s1.data, s1.index, s1.replied, s1.published + [r]);
  }

  lemma AddUntrackedInv(cfg: Config, s: Ledger, r: Record, later: nat)
    requires Inv(cfg, s) && later >= s.seqNo && r.IsReply()
    requires NotFuture(cfg, later, r.name) && forall p :: p in r.pointers ==> NotFuture(cfg, later, p)
    requires ToStateName(r.name) !in s.store
    ensures Inv(cfg, s.(store := AddStore(s.store, r), seqNo := later))
  {
    assert ToStateName(r.name) !in Records(s.store);
    TrackerOkKept(s.store, s.tracker, r);
    AddKeepsInv(cfg, s, r, s.tracker, later);
  }

  // ----- Runs -----

  /** Any finite set of names can be walked in some order. */
  lemma {:induction false} EnumerateNames(names: set<Name>) returns (list: seq<Name>)
    ensures Enumerates(list, names)
    decreases |names|
  {
    list := [];
    if n :| n in names {
      var rest := EnumerateNames(names - {n});
      list := [n] + rest;
    }
  }

  /** A new payload can always be submitted and the reply timer can always fire, while
      sequence numbers last: the events a run skips are none of these. */
  lemma StepsEnabled(cfg: Config, s: Ledger, payload: Bytes)
    requires s.seqNo + 1 < TWO_64
    ensures cfg.IsPacket(payload) && NoCollision(cfg, s, payload) <==>
            exists tips :: Enabled(cfg, s, Submit(payload, tips))
    ensures exists targets :: Enabled(cfg, s, ReplyTimer(targets))
  {
    var tips := EnumerateNames(RecordNames(TipStates(cfg, s)));
    var targets := EnumerateNames(ReplyTargets(cfg, s));
    assert Enabled(cfg, s, ReplyTimer(targets));
    if cfg.IsPacket(payload) && NoCollision(cfg, s, payload) {
      assert Enabled(cfg, s, Submit(payload, tips));
    }
  }

  /** Events that are not enabled cannot happen and are skipped. */
  ghost function Next(cfg: Config, s: Ledger, ev: Event): Ledger {
    if Enabled(cfg, s, ev) then Step(cfg, s, ev) else s
  }

  ghost function Run(cfg: Config, evs: seq<Event>): Ledger {
    if evs == [] then EMPTY else Next(cfg, Run(cfg, evs[..|evs| - 1]), evs[|evs| - 1])
  }

  /** In every reachable state: no false descendants and lasting scores, a consistent
      tracker, replies that never repeat a reference, and a consistent payload index. */
  lemma {:induction false} ReachableInv(cfg: Config, evs: seq<Event>)
    requires cfg.Valid()
    ensures Inv(cfg, Run(cfg, evs))
  {
    if evs != [] {
      var s, ev := Run(cfg, evs[..|evs| - 1]), evs[|evs| - 1];
      ReachableInv(cfg, evs[..|evs| - 1]);
      if Enabled(cfg, s, ev) {
        match ev
        case Submit(payload, tips) => SubmitKeepsInv(cfg, s, payload, tips);
        case Deliver(r) => DeliverKeepsInv(cfg, s, r);
        case ReplyTimer(targets) => ReplyKeepsInv(cfg, s, targets);
      }
    }
  }

  lemma SubmitResult(cfg: Config, s: Ledger, payload: Bytes, tips: seq<Name>)
    requires cfg.dataName(payload).Some? && cfg.dataName(payload).value !in s.data && cfg.mapName(payload) !in s.index
    ensures var r := SubmissionRecord(cfg, s, payload, tips); var t := SubmitStep(cfg, s, payload, tips);
      && t.store == HarvestStore(AddStore(s.store, r), cfg.Score(), cfg.threshold)
      && t.published == s.published + [r]
  {
  }

  /** Unpublished so far, and pointing at every tip, or a genesis record when there is none. */
  ghost predicate FreshOverTips(cfg: Config, s: Ledger, r: Record) {
    && ToStateName(r.name) !in s.store
    && (forall m :: m in Records(s.store) ==> ToStateName(r.name) !in Parents(Records(s.store)[m]))
    && (if r.IsGenesis() then TipStates(cfg, s) == {}
        else Parents(r) == TipStates(cfg, s) && ToStateName(r.name) !in Parents(r))
  }

  lemma SubmissionFresh(cfg: Config, s: Ledger, payload: Bytes, tips: seq<Name>)
    requires cfg.Valid() && Inv(cfg, s) && Enabled(cfg, s, Submit(payload, tips))
    ensures FreshOverTips(cfg, s, SubmissionRecord(cfg, s, payload, tips))
  {
    SubmissionRecordFresh(cfg, s, payload, tips);
    TipsForSubmission(cfg, s, SubmissionRecord(cfg, s, payload, tips), tips);
  }

  /** After a submission the waitlist's bucket zero is exactly the new record. */
  lemma SubmissionIsOnlyTip(cfg: Config, s: Ledger, payload: Bytes, tips: seq<Name>)
    requires cfg.Valid() && Inv(cfg, s) && Enabled(cfg, s, Submit(payload, tips))
    requires cfg.dataName(payload).value !in s.data
    ensures TipStates(cfg, SubmitStep(cfg, s, payload, tips)) == {ToStateName(SubmissionRecord(cfg, s, payload, tips).name)}
  {
    SubmissionFresh(cfg, s, payload, tips);
    NewDataNotIndexed(cfg, s, payload);
    SubmitResult(cfg, s, payload, tips);
    OnlyTipAfter(cfg, s, SubmissionRecord(cfg, s, payload, tips), SubmitStep(cfg, s, payload, tips));
  }

  lemma OnlyTipAfter(cfg: Config, s: Ledger, r: Record, t: Ledger)
    requires cfg.Valid() && Inv(cfg, s) && FreshOverTips(cfg, s, r)
    requires t.store == HarvestStore(AddStore(s.store, r), cfg.Score(), cfg.threshold)
    ensures TipStates(cfg, t) == {ToStateName(r.name)}
  {
    HarvestKeepsTips(cfg, AddStore(s.store, r), t);
    forall n ensures n in TipStates(cfg, t) <==> n == ToStateName(r.name) {
      FreshRecordIsOnlyTip(cfg, s, r, n);
    }
  }

  lemma TipsForSubmission(cfg: Config, s: Ledger, r: Record, tips: seq<Name>)
    requires cfg.Valid() && Inv(cfg, s)
    requires Enumerates(tips, RecordNames(TipStates(cfg, s)))
    requires if tips == [] then r.IsGenesis() else !r.IsGenesis() && r.pointers == tips
    requires ToStateName(r.name) !in s.store
    ensures if r.IsGenesis() then TipStates(cfg, s) == {}
            else Parents(r) == TipStates(cfg, s) && ToStateName(r.name) !in Parents(r)
  {
    if tips == [] {
      NoTips(cfg, s);
    } else {
      TipPointers(cfg, s, tips, r);
    }
  }

  /** Harvesting touches no state without descendants. */
  lemma HarvestKeepsTips(cfg: Config, u: Store, t: Ledger)
    requires cfg.Valid() && t.store == HarvestStore(u, cfg.Score(), cfg.threshold)
    ensures forall n :: n in TipStates(cfg, t) <==> n in u && u[n].status != INTERLOCKED && u[n].descendants == {}
  {
    forall n ensures n in TipStates(cfg, t) <==> n in u && u[n].status != INTERLOCKED && u[n].descendants == {} {
      HarvestAt(u, cfg.Score(), cfg.threshold, n);
      ZeroScore(cfg, Lookup(u, n).descendants);
    }
  }
}
