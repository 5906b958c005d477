/** The guarantees a ledger instance gives over whole runs: one genesis record at most,
    replies that never repeat themselves, and queries answered with enough witnesses. */
module LedgerTheorems {
  import opened Names
  import opened Reachability
  import opened DagSpec
  import opened DagTheorems
  import opened Policies
  import opened Sets
  import opened Tlv
  import opened IndexCodec
  import opened LedgerSpec
  import opened LedgerRuns

  // ----- Acyclic records -----

  /** Pointers go strictly down a ranking, except that a genesis record points at itself. */
  ghost predicate Ranked(recs: map<Name, Record>, rank: map<Name, nat>) {
    forall n :: n in recs ==> RankedAt(recs, rank, n)
  }

  ghost predicate RankedAt(recs: map<Name, Record>, rank: map<Name, nat>, n: Name)
    requires n in recs
  {
    if recs[n].IsGenesis() then Parents(recs[n]) <= {n}
    else n in rank && forall p :: p in Parents(recs[n]) ==> p in rank && rank[p] < rank[n]
  }

  ghost predicate Acyclic(recs: map<Name, Record>) {
    exists rank :: Ranked(recs, rank)
  }

  /** Everything a record leads to ranks below it. */
  lemma DescendantRanksHigher(recs: map<Name, Record>, rank: map<Name, nat>, d: Name, a: Name)
    requires Ranked(recs, rank) && d in TrueDescendants(recs, a)
    ensures d in rank && a in rank && rank[a] < rank[d]
  {
    assert RankedAt(recs, rank, d);
    var below := set n | n in rank && rank[n] < rank[d];
    forall n | n in below && n in PointerGraph(recs) ensures PointerGraph(recs)[n] <= below {
      assert RankedAt(recs, rank, n);
    }
    ReachesStaysInside(PointerGraph(recs), Parents(recs[d]), below, a);
  }

  function RankOf(rank: map<Name, nat>, n: Name): nat {
    if n in rank then rank[n] else 0
  }

  lemma {:induction false} Highest(names: set<Name>, rank: map<Name, nat>) returns (top: Name)
    requires names != {}
    ensures top in names && forall n :: n in names ==> RankOf(rank, n) <= RankOf(rank, top)
    decreases |names|
  {
    top :| top in names;
    var rest := names - {top};
    if rest != {} {
      var other := Highest(rest, rank);
      if RankOf(rank, other) > RankOf(rank, top) {
        top := other;
      }
    }
  }

  /** In an acyclic ledger that holds anything there is a tip. */
  lemma TipExists(cfg: Config, s: Ledger)
    requires cfg.Valid() && Inv(cfg, s)
    requires Acyclic(Records(s.store)) && Records(s.store) != map[]
    ensures TipStates(cfg, s) != {}
  {
    var recs := Records(s.store);
    var rank :| Ranked(recs, rank);
    assert recs.Keys != {};
    var top := Highest(recs.Keys, rank);
    assert SoundAt(s.store, top);
    if d :| d in s.store[top].descendants {
      DescendantRanksHigher(recs, rank, d, top);
    }
    TipsAreLoaded(cfg, s, top);
  }

  /** A submission in an acyclic ledger that holds anything is never a genesis record. */
  lemma LaterSubmissionIsGeneric(cfg: Config, s: Ledger, payload: Bytes, tips: seq<Name>)
    requires cfg.Valid() && Inv(cfg, s) && Enabled(cfg, s, Submit(payload, tips))
    requires Acyclic(Records(s.store)) && Records(s.store) != map[]
    ensures !SubmissionRecord(cfg, s, payload, tips).IsGenesis()
  {
    TipExists(cfg, s);
    if tips == [] {
      NoTips(cfg, s);
    }
  }

  /** A genesis record points at itself at most, any other record never. */
  ghost predicate SelfPointing(r: Record) {
    if r.IsGenesis() then Parents(r) <= {ToStateName(r.name)} else ToStateName(r.name) !in Parents(r)
  }

  /** Neither held nor pointed at. */
  ghost predicate Unknown(recs: map<Name, Record>, x: Name) {
    x !in recs && forall n :: n in recs ==> x !in Parents(recs[n])
  }

  /** A new record that nothing points at keeps an acyclic graph acyclic, provided it does
      not point at itself or is a genesis record doing just that. */
  lemma FreshRecordKeepsAcyclic(recs: map<Name, Record>, x: Name, r: Record)
    requires Acyclic(recs) && Unknown(recs, x) && x == ToStateName(r.name) && SelfPointing(r)
    ensures Acyclic(recs[x := r])
  {
    var rank :| Ranked(recs, rank);
    var top := RankBound(rank);
    var more := recs[x := r];
    var wider := map n | n in rank.Keys + Parents(r) + {x} ::
      if n == x then top + 1 else RankOf(rank, n);
    forall n | n in more ensures RankedAt(more, wider, n) {
      if n != x {
        assert RankedAt(recs, rank, n);
      }
    }
    assert Ranked(more, wider);
  }

  lemma RankBound(rank: map<Name, nat>) returns (bound: nat)
    ensures forall n :: n in rank ==> rank[n] <= bound
  {
    bound := 0;
    if rank.Keys != {} {
      var top := Highest(rank.Keys, rank);
      bound := rank[top];
      forall n | n in rank ensures rank[n] <= bound {
        assert RankOf(rank, n) <= RankOf(rank, top);
      }
    }
  }

  // ----- What a step does to the store and to the publications -----

  ghost predicate AddedAndHarvested(cfg: Config, before: Store, r: Record, after: Store) {
    after == HarvestStore(AddStore(before, r), cfg.Score(), cfg.threshold)
  }

  lemma SubmitEffect(cfg: Config, s: Ledger, payload: Bytes, tips: seq<Name>)
    requires Inv(cfg, s) && NoCollision(cfg, s, payload) && cfg.dataName(payload).Some? && cfg.dataName(payload).value !in s.data
    ensures var r := SubmissionRecord(cfg, s, payload, tips); var t := SubmitStep(cfg, s, payload, tips);
      AddedAndHarvested(cfg, s.store, r, t.store) && t.published == s.published + [r]
  {
    NewDataNotIndexed(cfg, s, payload);
    SubmitResult(cfg, s, payload, tips);
  }

  lemma ReplyEffect(cfg: Config, s: Ledger, targets: seq<Name>)
    requires targets != []
    ensures var r := ReplyRecord(cfg, s, targets); var t := ReplyStep(cfg, s, targets);
      AddedAndHarvested(cfg, s.store, r, t.store) && t.published == s.published + [r]
  {
    IssueEffect(cfg, s, s.replied + Elements(targets), ReplyRecord(cfg, s, targets));
  }

  lemma IssueEffect(cfg: Config, s: Ledger, replied: set<Name>, r: Record)
    ensures var t := IssueStep(cfg, s.(replied := replied), r);
      AddedAndHarvested(cfg, s.store, r, t.store) && t.published == s.published + [r]
  {
  }

  /** A delivery that returns before the harvest: its packet is malformed or stored already. */
  predicate EndsEarly(cfg: Config, s: Ledger, r: Record) {
    !r.IsReply() && (cfg.dataName(r.payload).None? || cfg.dataName(r.payload).value in s.data)
  }

  lemma RestEffect(cfg: Config, s1: Ledger, r: Record)
    ensures var t := DeliverRest(cfg, s1, r);
      t.store == if EndsEarly(cfg, s1, r) then s1.store else HarvestStore(s1.store, cfg.Score(), cfg.threshold)
    ensures DeliverRest(cfg, s1, r).published == s1.published
  {
  }

  lemma DeliverEffect(cfg: Config, s: Ledger, r: Record)
    ensures var t := DeliverStep(cfg, s, r);
      if EndsEarly(cfg, s, r) then t.store == AddStore(s.store, r)
      else AddedAndHarvested(cfg, s.store, r, t.store)
    ensures DeliverStep(cfg, s, r).published == s.published
  {
    RestEffect(cfg, AddTracked(s, r, s.seqNo), r);
  }

  lemma AddThenHarvest(cfg: Config, s: Ledger, r: Record, t: Ledger)
    requires WellFormed(s.store)
    requires AddedAndHarvested(cfg, s.store, r, t.store) || t.store == AddStore(s.store, r)
    ensures Records(t.store) == Records(AddStore(s.store, r))
    ensures Records(t.store).Keys == Records(s.store).Keys + {ToStateName(r.name)}
  {
    AddRecords(s.store, r);
    HarvestRecords(AddStore(s.store, r), cfg.Score(), cfg.threshold);
  }

  lemma SubmissionIsProper(cfg: Config, s: Ledger, payload: Bytes, tips: seq<Name>)
    requires cfg.Valid() && Inv(cfg, s) && Enabled(cfg, s, Submit(payload, tips))
    ensures var r := SubmissionRecord(cfg, s, payload, tips);
      Unknown(Records(s.store), ToStateName(r.name)) && SelfPointing(r)
  {
    var r := SubmissionRecord(cfg, s, payload, tips);
    SubmissionFresh(cfg, s, payload, tips);
    assert ToStateName(r.name) !in Records(s.store);
    if r.IsGenesis() {
      assert r.pointers == [r.name];
    }
  }

  lemma ReplyIsProper(cfg: Config, s: Ledger, targets: seq<Name>)
    requires cfg.Valid() && Inv(cfg, s) && Enabled(cfg, s, ReplyTimer(targets))
    ensures var r := ReplyRecord(cfg, s, targets);
      Unknown(Records(s.store), ToStateName(r.name)) && SelfPointing(r)
  {
    var r := ReplyRecord(cfg, s, targets);
    ReplyRecordFresh(cfg, s, targets);
    assert ToStateName(r.name) !in Records(s.store);
    ReplyNotSelf(cfg, s, r);
  }

  lemma SubmissionKeepsAcyclic(cfg: Config, s: Ledger, payload: Bytes, tips: seq<Name>)
    requires cfg.Valid() && Inv(cfg, s) && Enabled(cfg, s, Submit(payload, tips))
    requires Acyclic(Records(s.store))
    ensures Acyclic(Records(SubmitStep(cfg, s, payload, tips).store))
  {
    if cfg.dataName(payload).value !in s.data {
      var r := SubmissionRecord(cfg, s, payload, tips);
      SubmissionIsProper(cfg, s, payload, tips);
      SubmitEffect(cfg, s, payload, tips);
      PublishedKeepsAcyclic(cfg, s, r, SubmitStep(cfg, s, payload, tips));
    }
  }

  lemma ReplyKeepsAcyclic(cfg: Config, s: Ledger, targets: seq<Name>)
    requires cfg.Valid() && Inv(cfg, s) && Enabled(cfg, s, ReplyTimer(targets))
    requires Acyclic(Records(s.store))
    ensures Acyclic(Records(ReplyStep(cfg, s, targets).store))
  {
    if targets != [] {
      var r := ReplyRecord(cfg, s, targets);
      ReplyIsProper(cfg, s, targets);
      ReplyEffect(cfg, s, targets);
      PublishedKeepsAcyclic(cfg, s, r, ReplyStep(cfg, s, targets));
    }
  }

  /** What this instance publishes itself never closes a cycle. */
  lemma OwnRecordsKeepAcyclic(cfg: Config, s: Ledger, ev: Event)
    requires cfg.Valid() && Inv(cfg, s) && Enabled(cfg, s, ev) && !ev.Deliver?
    requires Acyclic(Records(s.store))
    ensures Acyclic(Records(Step(cfg, s, ev).store))
  {
    match ev
    case Submit(payload, tips) => SubmissionKeepsAcyclic(cfg, s, payload, tips);
    case ReplyTimer(targets) => ReplyKeepsAcyclic(cfg, s, targets);
  }

  lemma ReplyNotSelf(cfg: Config, s: Ledger, r: Record)
    requires Inv(cfg, s) && Enumerates(r.pointers, ReplyTargets(cfg, s))
    requires ToStateName(r.name) !in s.store
    ensures ToStateName(r.name) !in Parents(r)
  {
    forall p | p in r.pointers ensures ToStateName(p) in s.store {
      TargetIsNew(cfg, s, p);
    }
  }

  lemma PublishedKeepsAcyclic(cfg: Config, s: Ledger, r: Record, t: Ledger)
    requires WellFormed(s.store) && Acyclic(Records(s.store))
    requires Unknown(Records(s.store), ToStateName(r.name)) && SelfPointing(r)
    requires AddedAndHarvested(cfg, s.store, r, t.store) || t.store == AddStore(s.store, r)
    ensures Acyclic(Records(t.store))
  {
    FreshRecordKeepsAcyclic(Records(s.store), ToStateName(r.name), r);
    AddRecords(s.store, r);
    AddThenHarvest(cfg, s, r, t);
  }

  // ----- At most one genesis record of its own -----

  /** The records an instance published are held, and only the first can be a genesis record. */
  ghost predicate PublishedOk(held: set<Name>, published: seq<Record>) {
    && (forall i :: 0 <= i < |published| ==> ToStateName(published[i].name) in held)
    && (forall i :: 0 < i < |published| ==> !published[i].IsGenesis())
  }

  lemma PublishOne(held: set<Name>, published: seq<Record>, r: Record)
    requires PublishedOk(held, published) && (held != {} ==> !r.IsGenesis())
    ensures PublishedOk(held + {ToStateName(r.name)}, published + [r])
  {
    if published != [] {
      assert ToStateName(published[0].name) in held;
    }
  }

  ghost predicate AcyclicRun(cfg: Config, evs: seq<Event>) {
    forall i :: 0 <= i <= |evs| ==> Acyclic(Records(Run(cfg, evs[..i]).store))
  }

  lemma {:induction false} AcyclicRunOneGenesis(cfg: Config, evs: seq<Event>)
    requires cfg.Valid() && AcyclicRun(cfg, evs)
    ensures var s := Run(cfg, evs); PublishedOk(Records(s.store).Keys, s.published)
  {
    if evs != [] {
      var before := evs[..|evs| - 1];
      var s, ev := Run(cfg, before), evs[|evs| - 1];
      forall i | 0 <= i <= |before| ensures Acyclic(Records(Run(cfg, before[..i]).store)) {
        assert before[..i] == evs[..i];
      }
      AcyclicRunOneGenesis(cfg, before);
      ReachableInv(cfg, before);
      assert before == evs[..|before|];
      if Enabled(cfg, s, ev) {
        StepPublishes(cfg, s, ev);
      }
    }
  }

  lemma StepPublishes(cfg: Config, s: Ledger, ev: Event)
    requires cfg.Valid() && Inv(cfg, s) && Enabled(cfg, s, ev)
    requires Acyclic(Records(s.store)) && PublishedOk(Records(s.store).Keys, s.published)
    ensures var t := Step(cfg, s, ev); PublishedOk(Records(t.store).Keys, t.published)
  {
    match ev
    case Submit(payload, tips) =>
      if cfg.dataName(payload).value !in s.data {
        var r := SubmissionRecord(cfg, s, payload, tips);
        SubmitEffect(cfg, s, payload, tips);
        if Records(s.store) != map[] {
          LaterSubmissionIsGeneric(cfg, s, payload, tips);
        }
        AddThenHarvest(cfg, s, r, SubmitStep(cfg, s, payload, tips));
        PublishOne(Records(s.store).Keys, s.published, r);
      }
    case Deliver(r) =>
      DeliverEffect(cfg, s, r);
      AddThenHarvest(cfg, s, r, DeliverStep(cfg, s, r));
    case ReplyTimer(targets) =>
      if targets != [] {
        ReplyEffect(cfg, s, targets);
        AddThenHarvest(cfg, s, ReplyRecord(cfg, s, targets), ReplyStep(cfg, s, targets));
        PublishOne(Records(s.store).Keys, s.published, ReplyRecord(cfg, s, targets));
      }
  }

  // ----- Replies -----

  function ReplyCount(published: seq<Record>): nat {
    if published == [] then 0
    else ReplyCount(published[..|published| - 1]) + (if published[|published| - 1].IsReply() then 1 else 0)
  }

  function Referenced(published: seq<Record>): set<Name> {
    set i, p | 0 <= i < |published| && published[i].IsReply() && p in published[i].pointers :: p
  }

  function HeldNonReplies(store: Store): set<Name> {
    set n | n in store && store[n].status != INITIALIZED && !store[n].record.IsReply()
  }

  lemma {:induction false} RepliesReferToDistinct(published: seq<Record>)
    requires RepliesOnce(published)
    ensures ReplyCount(published) <= |Referenced(published)|
  {
    if published != [] {
      var before, last := published[..|published| - 1], published[|published| - 1];
      RepliesReferToDistinct(before);
      if last.IsReply() {
        var p := last.pointers[0];
        forall i | 0 <= i < |before| && before[i].IsReply() ensures p !in before[i].pointers {
          assert published[i] == before[i];
        }
        assert p !in Referenced(before);
        assert Referenced(before) + {p} <= Referenced(published);
        SubsetSize(Referenced(before) + {p}, Referenced(published));
      } else {
        assert Referenced(before) <= Referenced(published);
        SubsetSize(Referenced(before), Referenced(published));
      }
    }
  }

  lemma {:induction false} DistinctStateNames(names: set<Name>)
    ensures |set p | p in names :: ToStateName(p)| == |names|
    decreases |names|
  {
    if names != {} {
      var p :| p in names;
      var rest := names - {p};
      DistinctStateNames(rest);
      var states := set q | q in rest :: ToStateName(q);
      forall q | q in rest ensures ToStateName(q) != ToStateName(p) {
        if ToStateName(q) == ToStateName(p) {
          ToStateNameInjective(p, q);
        }
      }
      assert (set q | q in names :: ToStateName(q)) == states + {ToStateName(p)};
    } else {
      assert (set p | p in names :: ToStateName(p)) == {};
    }
  }

  /** In every run: no record is referenced by two replies, none of those referenced is a
      reply or pending, and an instance issues at most as many replies as there are records,
      replies aside, that it holds. */
  lemma RepliesBounded(cfg: Config, evs: seq<Event>)
    requires cfg.Valid()
    ensures var s := Run(cfg, evs);
      && (forall i, j, p :: 0 <= i < j < |s.published| && s.published[i].IsReply() && s.published[j].IsReply()
                      && p in s.published[i].pointers
            ==> p !in s.published[j].pointers)
      && (forall p :: p in Referenced(s.published) ==> ToStateName(p) in HeldNonReplies(s.store))
      && ReplyCount(s.published) <= |HeldNonReplies(s.store)|
      && (forall p :: p in s.replied ==> LoadedNonReply(s.store, p))
  {
    var s := Run(cfg, evs);
    ReachableInv(cfg, evs);
    RepliesReferToDistinct(s.published);
    var names := Referenced(s.published);
    forall p | p in names ensures ToStateName(p) in HeldNonReplies(s.store) {
      assert HeldNonReply(s.store, p);
    }
    DistinctStateNames(names);
    SubsetSize(set p | p in names :: ToStateName(p), HeldNonReplies(s.store));
  }

  // ----- Queries -----

  datatype Answer = Answer(record: Name, descendants: seq<Name>)

  /** The chain from a data name to the state of the record that carries it. */
  function StateFor(cfg: Config, s: Ledger, dn: Name): Option<EdgeState> {
    if dn !in s.data || cfg.mapName(s.data[dn]) !in s.index then None
    else
      var n := s.index[cfg.mapName(s.data[dn])];
      if n in s.store then Some(s.store[n]) else None
  }

  /** The payload indexed under `m` brought the packet `dn`, and the chain from that packet
      ends at its record unless octets followed the packet, in which case it breaks off. */
  ghost predicate LeadsBack(cfg: Config, s: Ledger, dn: Name, m: Name) {
    && Brings(cfg, s.store, s.index, m, dn) && s.index[m] in Records(s.store)
    && dn in s.data && s.data[dn] == cfg.packetOf(PayloadAt(s.store, s.index, m))
    && StateFor(cfg, s, dn) ==
       if PayloadAt(s.store, s.index, m) == s.data[dn] then Some(s.store[s.index[m]]) else None
  }

  /** In every run each stored packet came with one indexed payload, and the chain from the
      packet leads to the held record of that payload if and only if the payload is exactly
      the packet. */
  lemma IndexAgrees(cfg: Config, evs: seq<Event>, dn: Name)
    requires cfg.Valid()
    ensures dn in Run(cfg, evs).data ==> exists m :: LeadsBack(cfg, Run(cfg, evs), dn, m)
  {
    var s := Run(cfg, evs);
    ReachableInv(cfg, evs);
    if dn in s.data {
      assert PacketIndexed(cfg, s.store, s.index, dn);
      var m :| Brings(cfg, s.store, s.index, m, dn);
      BroughtIsStored(cfg, s.store, s.data, s.index, m, dn);
      FoundIffWhole(cfg, s, dn, m);
      assert LeadsBack(cfg, s, dn, m);
    }
  }

  /** A packet is the first octet of a payload. */
  function OneOctetConfig(): Config {
    InstanceConfig(1, AllDescendants, octets => octets, payload => if payload == [] then None else Some(Plain(0)),
                   payload => if payload == [] then [] else payload[..1], Plain(0))
  }

  lemma OneOctetConfigValid()
    ensures OneOctetConfig().Valid()
  {
    InstanceConfigValid(1, AllDescendants, octets => octets, payload => if payload == [] then None else Some(Plain(0)),
                        payload => if payload == [] then [] else payload[..1], Plain(0));
  }

  lemma OneOctetEnabled(r: Record)
    requires r == Record(Plain(1), GENERIC_RECORD, [], [7, 0])
    ensures Enabled(OneOctetConfig(), EMPTY, Deliver(r))
  {
    var cfg := OneOctetConfig();
    forall k | 0 < k < TWO_64 ensures Plain(1) != cfg.ownName(k) {
      assert |SequenceName(Plain(0), k)| == 2;
    }
    forall a, b ensures TellsApart(cfg.mapName, a, b) {
      MapNameCollides(octets => octets, a, b);
    }
  }

  lemma FirstDelivered(cfg: Config, r: Record, dn: Name)
    requires !r.IsReply() && cfg.dataName(r.payload) == Some(dn)
    ensures var t := DeliverStep(cfg, EMPTY, r);
      t.data == map[dn := cfg.packetOf(r.payload)] && t.index == map[cfg.mapName(r.payload) := ToStateName(r.name)]
  {
    var s1 := AddTracked(EMPTY, r, 0);
    assert DeliverStep(cfg, EMPTY, r) == HarvestStep(cfg, WithPacket(cfg, s1, r, dn));
  }

  lemma OneEvent(cfg: Config, ev: Event)
    requires Enabled(cfg, EMPTY, ev)
    ensures Run(cfg, [ev]) == Step(cfg, EMPTY, ev)
  {
    assert [ev][..0] == [];
  }

  /** The first record delivered breaks the chain when its packet is not found by digest. */
  lemma FirstBreaksChain(cfg: Config, r: Record, dn: Name)
    requires !r.IsReply() && cfg.dataName(r.payload) == Some(dn) && Enabled(cfg, EMPTY, Deliver(r))
    requires cfg.mapName(cfg.packetOf(r.payload)) != cfg.mapName(r.payload)
    ensures var s := Run(cfg, [Deliver(r)]); dn in s.data && StateFor(cfg, s, dn) == None
  {
    OneEvent(cfg, Deliver(r));
    FirstDelivered(cfg, r, dn);
  }

  /** A run in which the chain breaks off: one octet follows the packet of the only record
      delivered, and the packet is stored but leads nowhere. */
  lemma TrailingOctetBreaksChain(cfg: Config, r: Record)
    requires cfg == OneOctetConfig() && r == Record(Plain(1), GENERIC_RECORD, [], [7, 0])
    ensures cfg.Valid()
    ensures var s := Run(cfg, [Deliver(r)]); Plain(0) in s.data && StateFor(cfg, s, Plain(0)) == None
  {
    OneOctetConfigValid();
    OneOctetEnabled(r);
    MapNameCollides(octets => octets, [7], [7, 0]);
    assert cfg.packetOf(r.payload) == [7];
    FirstBreaksChain(cfg, r, Plain(0));
  }

  /** The selected descendants in canonical order, cut off at the threshold. */
  ghost function Chosen(cfg: Config, state: EdgeState): seq<Name> {
    Cut(Sorted(cfg.select(state.descendants)), cfg.threshold)
  }

  function Cut(list: seq<Name>, k: nat): seq<Name> {
    if |list| <= k then list else list[..k]
  }

  function RecordNameList(states: seq<Name>): (names: seq<Name>)
    ensures |names| == |states|
  {
    seq(|states|, i requires 0 <= i < |states| => FromStateName(states[i]))
  }

  lemma CutOneMore(list: seq<Name>, d: Name, k: nat)
    ensures RecordNameList(Cut(list + [d], k)) ==
            RecordNameList(Cut(list, k)) + (if |list| < k then [FromStateName(d)] else [])
  {
  }

  /** What a query that finds a state is answered with. */
  ghost function AnswerFor(cfg: Config, state: EdgeState): Answer {
    Answer(FromStateName(state.stateName), RecordNameList(Chosen(cfg, state)))
  }

  /** The chosen ones are selected, as many as the threshold allows, in order, and before all
      that are not chosen. */
  lemma ChosenAreFirst(cfg: Config, state: EdgeState)
    ensures |Chosen(cfg, state)| == Least(|cfg.select(state.descendants)|, cfg.threshold)
    ensures forall d :: d in Chosen(cfg, state) ==> d in cfg.select(state.descendants)
    ensures forall i, j :: 0 <= i < j < |Chosen(cfg, state)| ==> Less(Chosen(cfg, state)[i], Chosen(cfg, state)[j])
    ensures forall i, d :: (0 <= i < |Chosen(cfg, state)| && d in cfg.select(state.descendants) && d !in Chosen(cfg, state)) ==>
      Less(Chosen(cfg, state)[i], d)
  {
    var names := cfg.select(state.descendants);
    var all, chosen := Sorted(names), Chosen(cfg, state);
    SortedSize(names);
    forall i, j | 0 <= i < j < |all| ensures Less(all[i], all[j]) {
      SortedAscends(names, i, j);
    }
    forall i, d | 0 <= i < |chosen| && d in names && d !in chosen ensures Less(chosen[i], d) {
      var j :| 0 <= j < |all| && all[j] == d;
      InPrefix(all, |chosen|, j);
    }
  }

  lemma InPrefix(all: seq<Name>, k: nat, j: nat)
    requires k <= |all| && j < |all|
    ensures j < k ==> all[j] in all[..k]
  {
    if j < k {
      assert all[..k][j] == all[j];
    }
  }

  function Least(a: nat, b: nat): nat {
    if a <= b then a else b
  }

  /** A descendant is the state of a held record. */
  lemma DescendantIsHeld(store: Store, n: Name, d: Name)
    requires WellFormed(store) && Sound(store) && n in store && d in store[n].descendants
    ensures d in TrueDescendants(Records(store), n) && ToStateName(FromStateName(d)) == d
  {
    assert SoundAt(store, n);
    assert WellFormedState(store, n);
    assert WellFormedState(store, d);
  }

  /** In every run the answer to a query that finds a state names its record and as many
      distinct records as the policy selects, up to the threshold, each of which truly
      points, directly or not, at it; for an interlocked record that is the threshold. */
  lemma QueryAnswer(cfg: Config, evs: seq<Event>, dn: Name)
    requires cfg.Valid() && StateFor(cfg, Run(cfg, evs), dn).Some?
    ensures var s := Run(cfg, evs); var state := StateFor(cfg, s, dn).value; var answer := AnswerFor(cfg, state);
      && answer.record == state.record.name
      && |answer.descendants| == Least(cfg.Score()(state.descendants), cfg.threshold)
      && (state.status == INTERLOCKED ==> |answer.descendants| == cfg.threshold)
      && (forall i, j :: 0 <= i < j < |answer.descendants| ==> answer.descendants[i] != answer.descendants[j])
      && forall d :: d in answer.descendants ==> ToStateName(d) in TrueDescendants(Records(s.store), state.stateName)
  {
    var s := Run(cfg, evs);
    ReachableInv(cfg, evs);
    var n := s.index[cfg.mapName(s.data[dn])];
    var state := s.store[n];
    assert Indexes(cfg, s.store, s.data, cfg.mapName(s.data[dn]), n);
    assert WellFormedState(s.store, n);
    assert cfg.Score()(state.descendants) == |cfg.select(state.descendants)|;
    ChosenAreFirst(cfg, state);
    AnswerIsTrue(cfg, s.store, n);
  }

  lemma AnswerIsTrue(cfg: Config, store: Store, n: Name)
    requires cfg.Valid() && WellFormed(store) && Sound(store) && n in store
    ensures var answer := AnswerFor(cfg, store[n]).descendants;
      && (forall i, j :: 0 <= i < j < |answer| ==> answer[i] != answer[j])
      && forall d :: d in answer ==> ToStateName(d) in TrueDescendants(Records(store), n)
  {
    var chosen, answer := Chosen(cfg, store[n]), AnswerFor(cfg, store[n]).descendants;
    ChosenAreFirst(cfg, store[n]);
    forall i | 0 <= i < |chosen| ensures ToStateName(answer[i]) == chosen[i] && chosen[i] in TrueDescendants(Records(store), n) {
      assert chosen[i] in cfg.select(store[n].descendants) && cfg.select(store[n].descendants) <= store[n].descendants;
      DescendantIsHeld(store, n, chosen[i]);
    }
    forall i, j | 0 <= i < j < |answer| ensures answer[i] != answer[j] {
      LexIrreflexive(Key(chosen[i]));
      assert Less(chosen[i], chosen[j]);
    }
  }

  /** Under the witness policy the records of an answer come from distinct producers. */
  lemma WitnessAnswer(cfg: Config, store: Store, n: Name, i: nat, j: nat)
    requires cfg.Valid() && cfg.select == Witnesses && WellFormed(store) && Sound(store) && n in store
    requires i < j < |AnswerFor(cfg, store[n]).descendants|
    ensures var answer := AnswerFor(cfg, store[n]).descendants;
      Producer(ToStateName(answer[i])) != Producer(ToStateName(answer[j]))
  {
    var chosen, d := Chosen(cfg, store[n]), store[n].descendants;
    ChosenAreFirst(cfg, store[n]);
    OneWitnessPerProducer(d);
    assert chosen[i] in Witnesses(d) && chosen[j] in Witnesses(d);
    DescendantIsHeld(store, n, chosen[i]);
    DescendantIsHeld(store, n, chosen[j]);
    LexIrreflexive(Key(chosen[i]));
    assert Less(chosen[i], chosen[j]);
  }
}
