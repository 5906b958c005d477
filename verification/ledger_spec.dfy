/** The ledger instance as a state machine: submissions, records delivered by sync, and the
    reply timer, each ending in a harvest of the DAG. */
module LedgerSpec {
  import opened Names
  import opened Reachability
  import opened DagSpec
  import opened DagTheorems
  import opened Policies
  import opened Sets
  import opened Tlv

  /** Distinct arguments get distinct names. */
  predicate TellsApart<T(==)>(naming: T -> Name, a: T, b: T) {
    naming(a) == naming(b) ==> a == b
  }

  /** A data packet at the front of a payload is read again from its own octets. */
  predicate ReadsPacket(dataName: Bytes -> Option<Name>, packetOf: Bytes -> Bytes, payload: Bytes) {
    dataName(payload).Some? ==>
      && packetOf(payload) <= payload
      && dataName(packetOf(payload)) == dataName(payload) && packetOf(packetOf(payload)) == packetOf(payload)
  }

  /** What stays fixed: the interlock threshold and policy, the name octets are indexed
      under, the name of the data packet at the front of a payload (None when there is none)
      and that packet, and the name of this instance's k-th publication. */
  datatype Config = Config(threshold: nat, select: Selector, mapName: Bytes -> Name,
                           dataName: Bytes -> Option<Name>, packetOf: Bytes -> Bytes, ownName: nat -> Name)
  {
    /** The octets are one data packet, with nothing after it. */
    predicate IsPacket(payload: Bytes) {
      dataName(payload).Some? && packetOf(payload) == payload
    }

    ghost predicate Valid() {
      && threshold >= 1
      && WellBehaved(select)
      && (forall payload :: ReadsPacket(dataName, packetOf, payload))
      && (forall j: nat, k: nat :: j < TWO_64 && k < TWO_64 ==> TellsApart<nat>(ownName, j, k))
    }

    function Score(): DagSpec.Score {
      ScoreOf(select)
    }
  }

  /** The stored edge states, data packets and payload map, the tracker's list of states,
      the records replied to, and what sync has published. */
  datatype Ledger = Ledger(store: Store, data: map<Name, Bytes>, index: map<Name, Name>, tracker: set<Name>,
                           replied: set<Name>, seqNo: nat, published: seq<Record>)

  const EMPTY := Ledger(map[], map[], map[], {}, {}, 0, [])

  // ----- Steps -----

  /** Listed states without score; an interlocked state is never listed. */
  function TipStates(cfg: Config, s: Ledger): set<Name> {
    set n | n in s.store && s.store[n].status != INTERLOCKED && cfg.Score()(s.store[n].descendants) == 0
  }

  function RecordNames(states: set<Name>): set<Name> {
    set n | n in states :: FromStateName(n)
  }

  /** `list` enumerates `names`, each once. */
  ghost predicate Enumerates(list: seq<Name>, names: set<Name>) {
    && (forall n :: n in list <==> n in names)
    && (forall i, j :: 0 <= i < j < |list| ==> list[i] != list[j])
  }

  /** What is at the threshold in a store. */
  function RipeIn(cfg: Config, store: Store): set<Name> {
    set n | n in store && Ripe(store, cfg.Score(), cfg.threshold, n)
  }

  function RipeNames(cfg: Config, s: Ledger): set<Name> {
    RipeIn(cfg, s.store)
  }

  function RecordNamesIn(store: Store, states: set<Name>): set<Name> {
    set n | n in states :: Lookup(store, n).record.name
  }

  function HarvestStep(cfg: Config, s: Ledger): Ledger {
    s.(store := HarvestStore(s.store, cfg.Score(), cfg.threshold),
       replied := s.replied - RecordNamesIn(s.store, RipeNames(cfg, s)),
       tracker := s.tracker + RipeNames(cfg, s))
  }

  /** The record a submission publishes: it points at the tips, or at itself when there are none. */
  function RecordFor(own: Name, payload: Bytes, tips: seq<Name>): Record {
    if tips == [] then Record(own, GENESIS_RECORD, [own], payload)
    else Record(own, GENERIC_RECORD, tips, payload)
  }

  function SubmissionRecord(cfg: Config, s: Ledger, payload: Bytes, tips: seq<Name>): Record {
    RecordFor(cfg.ownName(s.seqNo + 1), payload, tips)
  }

  ghost function PublishAndAdd(s: Ledger, r: Record): Ledger {
    s.(store := AddStore(s.store, r), seqNo := s.seqNo + 1, published := s.published + [r])
  }

  /** Indexes the payload of a record just added, tracks the record, and harvests. Storage
      refuses to overwrite an index entry; the submission fails there. */
  function IndexAndHarvest(cfg: Config, s: Ledger, r: Record): Ledger {
    var m, x := cfg.mapName(r.payload), ToStateName(r.name);
    if m in s.index then s
    else HarvestStep(cfg, s.(index := s.index[m := x], tracker := s.tracker + {x}))
  }

  /** A submission of a packet with the new data name `dn`. */
  ghost function SubmitNew(cfg: Config, s: Ledger, dn: Name, payload: Bytes, tips: seq<Name>): Ledger {
    var r := RecordFor(cfg.ownName(s.seqNo + 1), payload, tips);
    IndexAndHarvest(cfg, PublishAndAdd(s.(data := s.data[dn := payload]), r), r)
  }

  ghost function SubmitStep(cfg: Config, s: Ledger, payload: Bytes, tips: seq<Name>): Ledger
    requires cfg.dataName(payload).Some?
  {
    var dn := cfg.dataName(payload).value;
    if dn in s.data then s else SubmitNew(cfg, s, dn, payload, tips)
  }

  /** Stores the data packet `dn` a record carries, and indexes the whole payload unless it
      already is. */
  function WithPacket(cfg: Config, s: Ledger, r: Record, dn: Name): Ledger {
    var m := cfg.mapName(r.payload);
    s.(data := s.data[dn := cfg.packetOf(r.payload)],
       index := if m in s.index then s.index else s.index[m := ToStateName(r.name)])
  }

  ghost function AddTracked(s: Ledger, r: Record, later: nat): Ledger {
    s.(store := AddStore(s.store, r), seqNo := later, tracker := s.tracker + {ToStateName(r.name)})
  }

  /** What a delivery does once the record is added and tracked: its data packet, unless it
      is a reply, is stored and indexed; a malformed or duplicate packet ends the step
      without a harvest. */
  function DeliverRest(cfg: Config, s1: Ledger, r: Record): Ledger {
    if r.IsReply() then HarvestStep(cfg, s1)
    else
      match cfg.dataName(r.payload)
      case None => s1
      case Some(dn) => if dn in s1.data then s1 else HarvestStep(cfg, WithPacket(cfg, s1, r, dn))
  }

  ghost function DeliverStep(cfg: Config, s: Ledger, r: Record): Ledger {
    DeliverRest(cfg, AddTracked(s, r, s.seqNo), r)
  }

  /** The loaded records below the threshold, not replies, not replied to before. */
  function ReplyTargets(cfg: Config, s: Ledger): set<Name> {
    set n | n in s.store && s.store[n].status == LOADED && !Ripe(s.store, cfg.Score(), cfg.threshold, n)
            && s.store[n].record.name !in s.replied && !s.store[n].record.IsReply()
          :: s.store[n].record.name
  }

  function ReplyFor(own: Name, targets: seq<Name>): Record {
    Record(own, REPLY_RECORD, targets, [])
  }

  function ReplyRecord(cfg: Config, s: Ledger, targets: seq<Name>): Record {
    ReplyFor(cfg.ownName(s.seqNo + 1), targets)
  }

  ghost function IssueStep(cfg: Config, s: Ledger, r: Record): Ledger {
    HarvestStep(cfg, PublishAndAdd(s, r))
  }

  /** The targets count as replied to; a reply is issued when there is any. */
  ghost function ReplyStep(cfg: Config, s: Ledger, targets: seq<Name>): Ledger {
    if targets == [] then s
    else IssueStep(cfg, s.(replied := s.replied + Elements(targets)), ReplyRecord(cfg, s, targets))
  }

  /** An event carries the order in which a set of names happened to be enumerated. */
  datatype Event =
    | Submit(payload: Bytes, tips: seq<Name>)
    | Deliver(record: Record)
    | ReplyTimer(targets: seq<Name>)

  /** Nobody has published under, or pointed at, this instance's future names. */
  ghost predicate NotFuture(cfg: Config, seqNo: nat, n: Name) {
    forall k :: seqNo < k < TWO_64 ==> n != cfg.ownName(k)
  }

  function PayloadAt(store: Store, index: map<Name, Name>, m: Name): Bytes
    requires m in index
  {
    Lookup(store, index[m]).record.payload
  }

  /** The octets whose digest is or may be taken: indexed payloads and stored packets. */
  function Digested(store: Store, data: map<Name, Bytes>, index: map<Name, Name>): set<Bytes> {
    (set m | m in index :: PayloadAt(store, index, m)) + data.Values
  }

  ghost predicate Distinct(cfg: Config, strings: set<Bytes>) {
    forall a, b :: a in strings && b in strings ==> TellsApart(cfg.mapName, a, b)
  }

  /** Neither the payload nor its packet shares a map name with other octets of this ledger. */
  ghost predicate NoCollision(cfg: Config, s: Ledger, payload: Bytes) {
    Distinct(cfg, Digested(s.store, s.data, s.index) + {payload, cfg.packetOf(payload)})
  }

  ghost predicate Enabled(cfg: Config, s: Ledger, ev: Event) {
    match ev
    case Submit(payload, tips) =>
      && cfg.IsPacket(payload) && s.seqNo + 1 < TWO_64 && NoCollision(cfg, s, payload)
      && Enumerates(tips, RecordNames(TipStates(cfg, s)))
    case Deliver(r) =>
      && NotFuture(cfg, s.seqNo, r.name) && (forall p :: p in r.pointers ==> NotFuture(cfg, s.seqNo, p))
      && (ToStateName(r.name) in Records(s.store) ==> Records(s.store)[ToStateName(r.name)] == r)
      && (!r.IsReply() ==> NoCollision(cfg, s, r.payload))
    case ReplyTimer(targets) =>
      s.seqNo + 1 < TWO_64 && Enumerates(targets, ReplyTargets(cfg, s))
  }

  ghost function Step(cfg: Config, s: Ledger, ev: Event): Ledger
    requires Enabled(cfg, s, ev)
  {
    match ev
    case Submit(payload, tips) => SubmitStep(cfg, s, payload, tips)
    case Deliver(r) => DeliverStep(cfg, s, r)
    case ReplyTimer(targets) => ReplyStep(cfg, s, targets)
  }

  // ----- The invariant, part by part -----

  ghost predicate StoreOk(cfg: Config, store: Store) {
    && WellFormed(store) && Sound(store)
    && (forall n :: n in store && store[n].status == INTERLOCKED ==> cfg.Score()(store[n].descendants) >= cfg.threshold)
  }

  /** No held record is named by, or points at, a name this instance has yet to publish. */
  ghost predicate FutureOk(cfg: Config, recs: map<Name, Record>, seqNo: nat) {
    forall n :: n in recs ==>
      NotFuture(cfg, seqNo, recs[n].name) && forall p :: p in recs[n].pointers ==> NotFuture(cfg, seqNo, p)
  }

  /** The tracker lists held records only, and among them every one that is interlocked or
      not a reply. */
  ghost predicate TrackerOk(store: Store, tracker: set<Name>) {
    && tracker <= Records(store).Keys
    && (forall n :: n in store && store[n].status == INTERLOCKED ==> n in tracker)
    && (forall n :: n in Records(store) && !Records(store)[n].IsReply() ==> n in tracker)
  }

  ghost predicate LoadedNonReply(store: Store, p: Name) {
    var n := ToStateName(p);
    n in store && store[n].status == LOADED && !store[n].record.IsReply()
  }

  ghost predicate HeldNonReply(store: Store, p: Name) {
    var n := ToStateName(p);
    n in store && store[n].status != INITIALIZED && !store[n].record.IsReply()
  }

  /** What this instance replied to is loaded and not interlocked; what any of its replies
      points at is held, not a reply, and either still in the replied set or interlocked. */
  ghost predicate RepliedOk(store: Store, replied: set<Name>, published: seq<Record>) {
    && (forall p :: p in replied ==> LoadedNonReply(store, p))
    && (forall i, p :: 0 <= i < |published| && published[i].IsReply() && p in published[i].pointers ==>
          HeldNonReply(store, p) && (p in replied || store[ToStateName(p)].status == INTERLOCKED))
  }

  /** No record is referenced by two replies, and no reply is empty or names a record twice. */
  ghost predicate RepliesOnce(published: seq<Record>) {
    && (forall i :: 0 <= i < |published| && published[i].IsReply() ==> published[i].pointers != [])
    && (forall i, j, k :: 0 <= i < |published| && published[i].IsReply() && 0 <= j < k < |published[i].pointers|
          ==> published[i].pointers[j] != published[i].pointers[k])
    && (forall i, j, p :: 0 <= i < j < |published| && published[i].IsReply() && published[j].IsReply()
                    && p in published[i].pointers
          ==> p !in published[j].pointers)
  }

  /** A held record carries the payload indexed under `m`; the packet in it is stored. */
  ghost predicate Indexes(cfg: Config, store: Store, data: map<Name, Bytes>, m: Name, n: Name) {
    && n in store && store[n].status != INITIALIZED
    && var p := store[n].record.payload;
       && cfg.mapName(p) == m && cfg.dataName(p).Some?
       && cfg.dataName(p).value in data && data[cfg.dataName(p).value] == cfg.packetOf(p)
  }

  /** The payload indexed under `m` holds the packet `dn`. */
  predicate Brings(cfg: Config, store: Store, index: map<Name, Name>, m: Name, dn: Name) {
    m in index && cfg.dataName(PayloadAt(store, index, m)) == Some(dn)
  }

  ghost predicate PacketIndexed(cfg: Config, store: Store, index: map<Name, Name>, dn: Name) {
    exists m :: Brings(cfg, store, index, m, dn)
  }

  /** Every stored packet came with exactly one indexed payload, and no digests collide. */
  ghost predicate IndexOk(cfg: Config, store: Store, data: map<Name, Bytes>, index: map<Name, Name>) {
    && (forall m :: m in index ==> Indexes(cfg, store, data, m, index[m]))
    && (forall dn :: dn in data ==> PacketIndexed(cfg, store, index, dn))
    && (forall m, o, dn :: Brings(cfg, store, index, m, dn) && Brings(cfg, store, index, o, dn) ==> m == o)
    && Distinct(cfg, Digested(store, data, index))
  }

  ghost predicate Inv(cfg: Config, s: Ledger) {
    && StoreOk(cfg, s.store)
    && FutureOk(cfg, Records(s.store), s.seqNo)
    && TrackerOk(s.store, s.tracker)
    && RepliedOk(s.store, s.replied, s.published)
    && RepliesOnce(s.published)
    && IndexOk(cfg, s.store, s.data, s.index)
  }

  // ----- What adding a record keeps -----

  lemma AddStoreOk(cfg: Config, store: Store, r: Record)
    requires StoreOk(cfg, store)
    ensures StoreOk(cfg, AddStore(store, r))
  {
    AddWellFormed(store, r);
    AddSound(store, r);
    if Lookup(store, ToStateName(r.name)).status == INITIALIZED {
      forall n | n in AddStore(store, r) && AddStore(store, r)[n].status == INTERLOCKED
        ensures cfg.Score()(AddStore(store, r)[n].descendants) >= cfg.threshold
      {
        AddEffect(store, r, n);
      }
    }
  }

  /** Adding never interlocks, and a held record stays as it is. */
  lemma AddHolds(store: Store, r: Record, n: Name)
    requires n in store && store[n].status != INITIALIZED
    ensures n in AddStore(store, r) && AddStore(store, r)[n].status == store[n].status
    ensures AddStore(store, r)[n].record == store[n].record
  {
    if Lookup(store, ToStateName(r.name)).status == INITIALIZED {
      AddEffect(store, r, n);
    }
  }

  lemma AddLoads(store: Store, r: Record)
    requires WellFormed(store)
    requires ToStateName(r.name) in Records(store) ==> Records(store)[ToStateName(r.name)] == r
    ensures ToStateName(r.name) in AddStore(store, r)
    ensures AddStore(store, r)[ToStateName(r.name)].status != INITIALIZED
    ensures AddStore(store, r)[ToStateName(r.name)].record == r
  {
    var x := ToStateName(r.name);
    if Lookup(store, x).status == INITIALIZED {
      AddEffect(store, r, x);
    } else {
      assert x in Records(store);
    }
  }

  lemma AddFutureOk(cfg: Config, store: Store, r: Record, seqNo: nat, later: nat)
    requires WellFormed(store) && FutureOk(cfg, Records(store), seqNo) && later >= seqNo
    requires NotFuture(cfg, later, r.name) && forall p :: p in r.pointers ==> NotFuture(cfg, later, p)
    ensures FutureOk(cfg, Records(AddStore(store, r)), later)
  {
    AddRecords(store, r);
  }

  /** A stored name is held or pointed at, so an unpublished name is not stored. */
  lemma FutureNotStored(cfg: Config, store: Store, seqNo: nat, k: nat)
    requires WellFormed(store) && Sound(store) && FutureOk(cfg, Records(store), seqNo)
    requires seqNo < k < TWO_64
    ensures ToStateName(cfg.ownName(k)) !in store
    ensures forall n :: n in Records(store) ==> ToStateName(cfg.ownName(k)) !in Parents(Records(store)[n])
  {
    var own, recs := cfg.ownName(k), Records(store);
    var x := ToStateName(own);
    forall n | n in recs ensures x != n && x !in Parents(recs[n]) {
      assert WellFormedState(store, n);
      assert NotFuture(cfg, seqNo, recs[n].name);
      forall p | p in recs[n].pointers ensures ToStateName(p) != x {
        assert NotFuture(cfg, seqNo, p);
        if ToStateName(p) == x {
          ToStateNameInjective(p, own);
        }
      }
      if x == n {
        ToStateNameInjective(recs[n].name, own);
      }
    }
    UnmentionedNotStored(store, x);
  }

  /** A held record stays held, with its record, and only a harvest interlocks. */
  ghost predicate Keeps(store: Store, after: Store) {
    forall n :: n in store && store[n].status != INITIALIZED ==>
      n in after && after[n].status == store[n].status && after[n].record == store[n].record
  }

  lemma AddKeeps(store: Store, r: Record)
    ensures Keeps(store, AddStore(store, r))
  {
    forall n | n in store && store[n].status != INITIALIZED
      ensures n in AddStore(store, r) && AddStore(store, r)[n].status == store[n].status
      ensures AddStore(store, r)[n].record == store[n].record
    {
      AddHolds(store, r, n);
    }
  }

  lemma RepliedOkKept(store: Store, after: Store, replied: set<Name>, published: seq<Record>)
    requires RepliedOk(store, replied, published) && Keeps(store, after)
    ensures RepliedOk(after, replied, published)
  {
    forall p | p in replied ensures LoadedNonReply(after, p) {
      assert LoadedNonReply(store, p);
    }
    forall i, p | 0 <= i < |published| && published[i].IsReply() && p in published[i].pointers
      ensures HeldNonReply(after, p) && (p in replied || after[ToStateName(p)].status == INTERLOCKED)
    {
      assert HeldNonReply(store, p);
    }
  }

  ghost predicate SameRecord(store: Store, after: Store, n: Name) {
    n in store && store[n].status != INITIALIZED ==>
      n in after && after[n].status != INITIALIZED && after[n].record == store[n].record
  }

  /** Indexed records stay held as they are. */
  ghost predicate Carried(store: Store, after: Store, index: map<Name, Name>) {
    forall m :: m in index ==> SameRecord(store, after, index[m])
  }

  lemma CarriedPayload(cfg: Config, store: Store, after: Store, data: map<Name, Bytes>, index: map<Name, Name>, m: Name)
    requires IndexOk(cfg, store, data, index) && Carried(store, after, index) && m in index
    ensures PayloadAt(after, index, m) == PayloadAt(store, index, m) && Indexes(cfg, after, data, m, index[m])
  {
    assert Indexes(cfg, store, data, m, index[m]) && SameRecord(store, after, index[m]);
  }

  lemma CarriedDigested(cfg: Config, store: Store, after: Store, data: map<Name, Bytes>, index: map<Name, Name>)
    requires IndexOk(cfg, store, data, index) && Carried(store, after, index)
    ensures Digested(after, data, index) == Digested(store, data, index)
  {
    forall m | m in index ensures PayloadAt(after, index, m) == PayloadAt(store, index, m) {
      CarriedPayload(cfg, store, after, data, index, m);
    }
  }

  lemma CarriedBrings(cfg: Config, store: Store, after: Store, data: map<Name, Bytes>, index: map<Name, Name>, m: Name, dn: Name)
    requires IndexOk(cfg, store, data, index) && Carried(store, after, index)
    ensures Brings(cfg, after, index, m, dn) <==> Brings(cfg, store, index, m, dn)
  {
    if m in index {
      CarriedPayload(cfg, store, after, data, index, m);
    }
  }

  /** The index stays consistent while indexed records stay held as they are. */
  lemma IndexOkCarried(cfg: Config, store: Store, after: Store, data: map<Name, Bytes>, index: map<Name, Name>)
    requires IndexOk(cfg, store, data, index) && Carried(store, after, index)
    ensures IndexOk(cfg, after, data, index)
  {
    forall m | m in index ensures Indexes(cfg, after, data, m, index[m]) {
      CarriedPayload(cfg, store, after, data, index, m);
    }
    forall dn | dn in data ensures PacketIndexed(cfg, after, index, dn) {
      assert PacketIndexed(cfg, store, index, dn);
      var m :| Brings(cfg, store, index, m, dn);
      CarriedBrings(cfg, store, after, data, index, m, dn);
    }
    forall m, o, dn | Brings(cfg, after, index, m, dn) && Brings(cfg, after, index, o, dn) ensures m == o {
      CarriedBrings(cfg, store, after, data, index, m, dn);
      CarriedBrings(cfg, store, after, data, index, o, dn);
    }
    CarriedDigested(cfg, store, after, data, index);
  }

  lemma IndexOkKept(cfg: Config, store: Store, after: Store, data: map<Name, Bytes>, index: map<Name, Name>)
    requires IndexOk(cfg, store, data, index) && Keeps(store, after)
    ensures IndexOk(cfg, after, data, index)
    ensures Digested(after, data, index) == Digested(store, data, index)
  {
    assert Carried(store, after, index);
    IndexOkCarried(cfg, store, after, data, index);
    CarriedDigested(cfg, store, after, data, index);
  }

  lemma TrackerOkKept(store: Store, tracker: set<Name>, r: Record)
    requires WellFormed(store) && TrackerOk(store, tracker)
    requires ToStateName(r.name) in Records(store) ==> Records(store)[ToStateName(r.name)] == r
    ensures TrackerOk(AddStore(store, r), tracker + {ToStateName(r.name)})
    ensures r.IsReply() ==> TrackerOk(AddStore(store, r), tracker)
  {
    var x, after := ToStateName(r.name), AddStore(store, r);
    AddLoads(store, r);
    AddRecords(store, r);
    forall n | n in after && after[n].status == INTERLOCKED ensures n in tracker {
      if Lookup(store, x).status == INITIALIZED {
        AddEffect(store, r, n);
      }
    }
  }

  /** Adding a record keeps the invariant, given that the tracker follows. */
  lemma AddKeepsInv(cfg: Config, s: Ledger, r: Record, tracker: set<Name>, later: nat)
    requires Inv(cfg, s) && later >= s.seqNo
    requires NotFuture(cfg, later, r.name) && forall p :: p in r.pointers ==> NotFuture(cfg, later, p)
    requires TrackerOk(AddStore(s.store, r), tracker)
    ensures Inv(cfg, s.(store := AddStore(s.store, r), seqNo := later, tracker := tracker))
  {
    AddStoreOk(cfg, s.store, r);
    AddFutureOk(cfg, s.store, r, s.seqNo, later);
    AddKeeps(s.store, r);
    RepliedOkKept(s.store, AddStore(s.store, r), s.replied, s.published);
    IndexOkKept(cfg, s.store, AddStore(s.store, r), s.data, s.index);
  }

  // ----- What harvesting keeps -----

  lemma HarvestRepliedOk(cfg: Config, s: Ledger)
    requires WellFormed(s.store) && RepliedOk(s.store, s.replied, s.published)
    ensures RepliedOk(HarvestStep(cfg, s).store, HarvestStep(cfg, s).replied, s.published)
  {
    var t := HarvestStep(cfg, s);
    forall p | p in t.replied ensures LoadedNonReply(t.store, p) {
      assert LoadedNonReply(s.store, p);
      ReplyLeaves(cfg, s, p);
    }
    forall i, p | 0 <= i < |s.published| && s.published[i].IsReply() && p in s.published[i].pointers
      ensures HeldNonReply(t.store, p) && (p in t.replied || t.store[ToStateName(p)].status == INTERLOCKED)
    {
      assert HeldNonReply(s.store, p);
      HarvestAt(s.store, cfg.Score(), cfg.threshold, ToStateName(p));
      if p in s.replied {
        ReplyLeaves(cfg, s, p);
      }
    }
  }

  /** A replied record leaves the replied set exactly when it is interlocked. */
  lemma ReplyLeaves(cfg: Config, s: Ledger, p: Name)
    requires WellFormed(s.store) && p in s.replied && LoadedNonReply(s.store, p)
    ensures p in HarvestStep(cfg, s).replied <==> HarvestStep(cfg, s).store[ToStateName(p)].status == LOADED
    ensures HarvestStep(cfg, s).store[ToStateName(p)].record == s.store[ToStateName(p)].record
  {
    var n := ToStateName(p);
    HarvestAt(s.store, cfg.Score(), cfg.threshold, n);
    assert WellFormedState(s.store, n);
    ToStateNameInjective(s.store[n].record.name, p);
    if p in RecordNamesIn(s.store, RipeNames(cfg, s)) {
      var m :| m in RipeNames(cfg, s) && Lookup(s.store, m).record.name == p;
      assert WellFormedState(s.store, m);
      assert m == n;
    }
    if n in RipeNames(cfg, s) {
      assert Lookup(s.store, n).record.name == p;
    }
  }

  lemma HarvestTrackerOk(cfg: Config, s: Ledger)
    requires TrackerOk(s.store, s.tracker)
    ensures TrackerOk(HarvestStep(cfg, s).store, HarvestStep(cfg, s).tracker)
  {
    var t := HarvestStep(cfg, s);
    HarvestRecords(s.store, cfg.Score(), cfg.threshold);
    forall n | n in t.store && t.store[n].status == INTERLOCKED ensures n in t.tracker {
      HarvestAt(s.store, cfg.Score(), cfg.threshold, n);
    }
  }

  lemma HarvestIndexOk(cfg: Config, store: Store, data: map<Name, Bytes>, index: map<Name, Name>)
    requires IndexOk(cfg, store, data, index)
    ensures IndexOk(cfg, HarvestStore(store, cfg.Score(), cfg.threshold), data, index)
  {
    var t := HarvestStore(store, cfg.Score(), cfg.threshold);
    forall m | m in index ensures SameRecord(store, t, index[m]) {
      HarvestAt(store, cfg.Score(), cfg.threshold, index[m]);
    }
    IndexOkCarried(cfg, store, t, data, index);
  }

  lemma HarvestStoreOk(cfg: Config, store: Store)
    requires StoreOk(cfg, store)
    ensures StoreOk(cfg, HarvestStore(store, cfg.Score(), cfg.threshold))
  {
    var t := HarvestStore(store, cfg.Score(), cfg.threshold);
    HarvestWellFormed(store, cfg.Score(), cfg.threshold);
    HarvestSound(store, cfg.Score(), cfg.threshold);
    forall n | n in t && t[n].status == INTERLOCKED ensures cfg.Score()(t[n].descendants) >= cfg.threshold {
      HarvestAt(store, cfg.Score(), cfg.threshold, n);
    }
  }

  lemma HarvestKeepsInv(cfg: Config, s: Ledger)
    requires Inv(cfg, s)
    ensures Inv(cfg, HarvestStep(cfg, s))
  {
    HarvestStoreOk(cfg, s.store);
    HarvestRecords(s.store, cfg.Score(), cfg.threshold);
    HarvestTrackerOk(cfg, s);
    HarvestRepliedOk(cfg, s);
    HarvestIndexOk(cfg, s.store, s.data, s.index);
  }
}
