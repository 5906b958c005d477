/** The ledger instance itself: the DAG engine with the storage, tracker and reply
    bookkeeping around it. Each handler performs one step of LedgerSpec. */
module LedgerModule {
  import opened Names
  import opened DagSpec
  import opened Policies
  import opened Sets
  import opened Tlv
  import opened DagModule
  import opened LedgerSpec
  import opened LedgerRuns
  import opened LedgerTheorems

  class LedgerModule {
    const cfg: Config
    const dag: DagModule
    var data: map<Name, Bytes>
    var index: map<Name, Name>
    var tracker: set<Name>
    var replied: set<Name>
    var seqNo: nat
    var published: seq<Record>

    constructor (cfg: Config)
      requires cfg.Valid()
      ensures Valid() && fresh(this) && fresh(dag)
      ensures this.cfg == cfg && Abs() == EMPTY
    {
      this.cfg := cfg;
      dag := new DagModule(cfg.Score());
      data, index, tracker, replied, seqNo, published := map[], map[], {}, {}, 0, [];
    }

    ghost function Abs(): Ledger
      reads this, dag
    {
      Ledger(dag.store, data, index, tracker, replied, seqNo, published)
    }

    ghost predicate Valid()
      reads this, dag
    {
      && cfg.Valid() && dag.score == cfg.Score()
      && dag.Valid() && Tidy(dag.store, dag.waitlist)
      && Inv(cfg, Abs())
    }

    /** The engine is consistent; the rest may be between two consistent states. */
    ghost predicate EngineValid()
      reads this, dag
    {
      && cfg.Valid() && dag.score == cfg.Score()
      && dag.Valid() && Tidy(dag.store, dag.waitlist)
    }

    method UpdateStatesTracker(stateName: Name, interlocked: bool)
      modifies this`tracker
      ensures tracker == old(tracker) + {stateName}
    {
      if stateName !in tracker {
        tracker := tracker + {stateName};
      }
      // A listed state is rewritten with the time it was interlocked, which is not kept
      // here, or refused; neither changes the list.
    }

    /** False when storage refuses to overwrite an entry. */
    method AddPayloadMap(payload: Bytes, mapTo: Name) returns (ok: bool)
      modifies this`index
      ensures ok == (cfg.mapName(payload) !in old(index))
      ensures index == if ok then old(index)[cfg.mapName(payload) := mapTo] else old(index)
    {
      var mapName := cfg.mapName(payload);
      ok := mapName !in index;
      if ok {
        index := index[mapName := mapTo];
      }
    }

    method PublishRecord(r: Record) returns (name: Name)
      requires r.name == cfg.ownName(seqNo + 1)
      modifies this`seqNo, this`published
      ensures name == r.name && seqNo == old(seqNo) + 1 && published == old(published) + [r]
    {
      name := cfg.ownName(seqNo + 1);
      seqNo := seqNo + 1;
      published := published + [r];
    }

    /** Interlocks what reached the threshold, forgets that it was replied to, and tracks it. */
    method DagHarvest()
      requires EngineValid()
      modifies this`tracker, this`replied, dag
      ensures EngineValid()
      ensures Abs() == HarvestStep(cfg, old(Abs()))
    {
      ghost var s := Abs();
      HarvestsPartition(dag.store, dag.score, dag.waitlist, cfg.threshold);
      ListedIsRipe(cfg, s, dag.waitlist);
      var recordList := dag.HarvestAbove(cfg.threshold, true);
      ListedRecords(s.store, recordList, RipeNames(cfg, s));
      NoteInterlocked(recordList);
      HarvestFields(cfg, Abs(), s);
    }

    method NoteInterlocked(recordList: seq<Record>)
      modifies this`tracker, this`replied
      ensures replied == old(replied) - NamesOf(recordList)
      ensures tracker == old(tracker) + StatesOf(recordList)
    {
      for i := 0 to |recordList|
        invariant replied == old(replied) - NamesOf(recordList[..i])
        invariant tracker == old(tracker) + StatesOf(recordList[..i])
      {
        var r := recordList[i];
        TakeOneMore(recordList, i);
        OneMoreRecord(recordList[..i], r);
        if r.name in replied {
          replied := replied - {r.name};
        }
        UpdateStatesTracker(ToStateName(r.name), true);
      }
      TakeAll(recordList);
    }

    /** Publishes a record under the next own name and adds it to the DAG. */
    method PublishAndAddRecord(r: Record) returns (stateName: Name)
      requires EngineValid() && r.name == cfg.ownName(seqNo + 1)
      modifies this`seqNo, this`published, dag
      ensures EngineValid()
      ensures stateName == ToStateName(r.name)
      ensures Abs() == PublishAndAdd(old(Abs()), r)
    {
      ghost var s := Abs();
      var _ := PublishRecord(r);
      stateName := dag.Add(r);
      FromFields(s, r, dag.store, seqNo, published);
    }

    /** Indexes a record just added, tracks it and harvests. */
    method IndexRecord(newRecord: Record, stateName: Name) returns (ok: bool)
      requires EngineValid() && stateName == ToStateName(newRecord.name)
      modifies this`index, this`tracker, this`replied, dag
      ensures EngineValid()
      ensures Abs() == IndexAndHarvest(cfg, old(Abs()), newRecord)
      ensures ok == (cfg.mapName(newRecord.payload) !in old(index))
    {
      ghost var s := Abs();
      ok := AddPayloadMap(newRecord.payload, stateName);
      if !ok {
        return;
      }
      UpdateStatesTracker(ToStateName(newRecord.name), false);
      IndexedFields(cfg, Abs(), s, newRecord);
      DagHarvest();
    }

    /** The second half of a submission: publish, add, index, track, harvest. */
    method SubmitRecord(newRecord: Record) returns (ok: bool)
      requires EngineValid() && newRecord.name == cfg.ownName(seqNo + 1)
      modifies this`index, this`tracker, this`replied, this`seqNo, this`published, dag
      ensures EngineValid()
      ensures Abs() == IndexAndHarvest(cfg, PublishAndAdd(old(Abs()), newRecord), newRecord)
      ensures ok == (cfg.mapName(newRecord.payload) !in old(index))
    {
      var stateName := PublishAndAddRecord(newRecord);
      ok := IndexRecord(newRecord, stateName);
    }

    /** A validated submission: stored, published as a record that points at the current
        tips, indexed, and harvested after. A known data name is ignored. It fails only when
        the payload's map name is taken by another payload. */
    method AfterValidation(payload: Bytes) returns (ok: bool, ghost tips: seq<Name>)
      requires Valid() && cfg.IsPacket(payload) && seqNo + 1 < TWO_64
      modifies this, dag
      ensures EngineValid()
      ensures Enumerates(tips, RecordNames(TipStates(cfg, old(Abs()))))
      ensures Abs() == SubmitStep(cfg, old(Abs()), payload, tips)
      ensures NoCollision(cfg, old(Abs()), payload) ==> Valid() && ok
    {
      ghost var s := Abs();
      var dn := cfg.dataName(payload).value;
      if dn in data {
        tips := EnumerateNames(RecordNames(TipStates(cfg, s)));
        return true, tips;
      }
      var pointers := ReadTips();
      tips := pointers;
      ok := StoreAndSubmit(payload, dn, pointers);
      if NoCollision(cfg, s, payload) {
        NewDataNotIndexed(cfg, s, payload);
        SubmitInv(cfg, Abs(), s, payload, tips);
      }
    }

    /** Stores a packet and submits the record that carries it. */
    method StoreAndSubmit(payload: Bytes, dn: Name, pointers: seq<Name>) returns (ok: bool)
      requires EngineValid()
      modifies this, dag
      ensures EngineValid()
      ensures ok == (cfg.mapName(payload) !in old(index))
      ensures Abs() == SubmitNew(cfg, old(Abs()), dn, payload, pointers)
    {
      ghost var s := Abs();
      var newRecord := NewRecord(cfg.ownName(seqNo + 1), pointers, payload);
      data := data[dn := payload];
      assert Abs() == s.(data := s.data[dn := payload]);
      ok := SubmitRecord(newRecord);
    }

    /** A record that points at the given names, or at itself when there are none. */
    method NewRecord(own: Name, pointers: seq<Name>, payload: Bytes) returns (r: Record)
      ensures r == RecordFor(own, payload, pointers)
    {
      if |pointers| < 1 {
        r := Record(own, GENESIS_RECORD, [own], payload);
      } else {
        r := Record(own, GENERIC_RECORD, pointers, payload);
      }
    }

    /** The names of the records in bucket zero. */
    method ReadTips() returns (pointers: seq<Name>)
      requires Valid()
      modifies dag`waitlist
      ensures Valid() && Abs() == old(Abs())
      ensures Enumerates(pointers, RecordNames(TipStates(cfg, Abs())))
    {
      TipBucket(cfg, Abs(), dag.waitlist);
      var waiting := dag.GetWaitList(0);
      SameBuckets(dag.store, dag.score, old(dag.waitlist), dag.waitlist);
      pointers := TipPointerList(waiting, cfg, Abs());
    }

    /** The second half of a delivery: the packet a record carries. */
    method StorePacket(record: Record, stateName: Name)
      requires EngineValid() && stateName == ToStateName(record.name)
      modifies this`data, this`index, this`tracker, this`replied, dag
      ensures EngineValid()
      ensures Abs() == DeliverRest(cfg, old(Abs()), record)
    {
      if record.rtype != REPLY_RECORD {
        var parsed := cfg.dataName(record.payload);
        if parsed.None? || parsed.value in data {
          return;
        }
        data := data[parsed.value := cfg.packetOf(record.payload)];
        var _ := AddPayloadMap(record.payload, stateName);
      }
      DagHarvest();
    }

    /** A record delivered by sync, whatever it holds; a delivery sync can make keeps the
        whole invariant. */
    method OnSyncRecord(record: Record)
      requires EngineValid()
      modifies this, dag
      ensures EngineValid()
      ensures Abs() == DeliverStep(cfg, old(Abs()), record)
      ensures old(Valid()) && Enabled(cfg, old(Abs()), Deliver(record)) ==> Valid()
    {
      ghost var s := Abs();
      if Inv(cfg, s) && Enabled(cfg, s, Deliver(record)) {
        DeliverKeepsInv(cfg, s, record);
      }
      var stateName := dag.Add(record);
      UpdateStatesTracker(stateName, false);
      StorePacket(record, stateName);
    }

    /** Gathers the records to reply to, and remembers them. */
    method GatherTargets() returns (pointers: seq<Name>)
      requires Valid()
      modifies this`replied
      ensures EngineValid()
      ensures Enumerates(pointers, ReplyTargets(cfg, old(Abs())))
      ensures Abs() == old(Abs()).(replied := old(replied) + Elements(pointers))
    {
      ghost var s := Abs();
      HarvestsPartition(dag.store, dag.score, dag.waitlist, cfg.threshold);
      var nonInterlocked := dag.HarvestBelow(cfg.threshold);
      TargetsListed(cfg, s, nonInterlocked, ListedBelow(s.store, cfg.Score(), dag.waitlist, cfg.threshold));
      pointers := TakeNew(nonInterlocked);
    }

    /** The names not replied to before, replies aside; they count as replied to from now on. */
    method TakeNew(list: seq<Record>) returns (pointers: seq<Name>)
      requires forall j, k :: 0 <= j < k < |list| ==> list[j].name != list[k].name
      modifies this`replied
      ensures Enumerates(pointers, NewNames(list, old(replied)))
      ensures replied == old(replied) + Elements(pointers)
    {
      pointers := [];
      for i := 0 to |list|
        invariant replied == old(replied) + Elements(pointers)
        invariant Enumerates(pointers, NewNames(list[..i], old(replied)))
      {
        var record := list[i];
        TakeOneMore(list, i);
        NewNamesStep(list, i, old(replied));
        if record.name !in replied && record.rtype != REPLY_RECORD {
          pointers := pointers + [record.name];
          replied := replied + {record.name};
        }
      }
      TakeAll(list);
    }

    /** Publishes a reply, adds it and harvests. */
    method IssueReply(newReply: Record)
      requires EngineValid() && newReply.name == cfg.ownName(seqNo + 1)
      modifies this`tracker, this`replied, this`seqNo, this`published, dag
      ensures EngineValid()
      ensures Abs() == IssueStep(cfg, old(Abs()), newReply)
    {
      var _ := PublishAndAddRecord(newReply);
      DagHarvest();
    }

    /** The reply timer: one reply that points at every loaded record below the threshold
        that is no reply and was not replied to before; none when there is no such record. */
    method PublishReply() returns (ghost targets: seq<Name>)
      requires Valid() && seqNo + 1 < TWO_64
      modifies this, dag
      ensures Valid()
      ensures Enabled(cfg, old(Abs()), ReplyTimer(targets))
      ensures Abs() == ReplyStep(cfg, old(Abs()), targets)
    {
      ghost var s := Abs();
      var pointers := GatherTargets();
      targets := pointers;
      if |pointers| > 0 {
        var newReply := ReplyFor(cfg.ownName(seqNo + 1), pointers);
        assert newReply == ReplyRecord(cfg, s, targets);
        IssueReply(newReply);
        ReplyInv(cfg, Abs(), s, targets);
      } else {
        NoReply(Abs(), s, targets);
      }
    }

    /** Answers a query for a data name: the record that carries it and, of the descendants
        the policy selects, the first in canonical order, at most the threshold. None stands
        for the application nack. */
    method OnQuery(dn: Name) returns (answer: Option<Answer>)
      requires Valid()
      ensures answer == match StateFor(cfg, Abs(), dn) case None => None case Some(state) => Some(AnswerFor(cfg, state))
    {
      if dn !in data {
        return None;
      }
      var mapName := cfg.mapName(data[dn]);
      if mapName !in index {
        return None;
      }
      var n := index[mapName];
      assert Indexes(cfg, dag.store, data, mapName, n);
      var state := dag.store[n];
      assert WellFormedState(dag.store, n);
      var names := ChooseDescendants(cfg, state);
      answer := Some(Answer(FromStateName(state.stateName), names));
    }
  }

  /** Walks the selected descendants in canonical order and keeps the first `threshold`. */
  method ChooseDescendants(cfg: Config, state: EdgeState) returns (names: seq<Name>)
    ensures names == RecordNameList(Chosen(cfg, state))
  {
    var selected := cfg.select(state.descendants);
    names := [];
    var todo := selected;
    ghost var done: seq<Name> := [];
    assert done + Sorted(todo) == Sorted(selected);
    var count := 0;
    while todo != {}
      invariant done + Sorted(todo) == Sorted(selected) && count == |done|
      invariant names == RecordNameList(Cut(done, cfg.threshold))
      decreases |todo|
    {
      var des := PickFirst(todo);
      SortedOneMore(done, todo, selected, des);
      CutOneMore(done, des, cfg.threshold);
      if count < cfg.threshold {
        names := names + [FromStateName(des)];
      }
      done := done + [des];
      todo := todo - {des};
      count := count + 1;
    }
    assert done == Sorted(selected);
  }

  // ----- The steps as the handlers take them -----

  lemma FromFields(s: Ledger, r: Record, store: Store, seqNo: nat, published: seq<Record>)
    requires store == AddStore(s.store, r) && seqNo == s.seqNo + 1 && published == s.published + [r]
    ensures Ledger(store, s.data, s.index, s.tracker, s.replied, seqNo, published) == PublishAndAdd(s, r)
  {
  }

  lemma HarvestFields(cfg: Config, t: Ledger, s: Ledger)
    requires t.store == HarvestStore(s.store, cfg.Score(), cfg.threshold)
    requires t.replied == s.replied - RecordNamesIn(s.store, RipeNames(cfg, s)) && t.tracker == s.tracker + RipeNames(cfg, s)
    requires t.data == s.data && t.index == s.index && t.seqNo == s.seqNo && t.published == s.published
    ensures t == HarvestStep(cfg, s)
  {
  }

  lemma IndexedFields(cfg: Config, t: Ledger, s: Ledger, r: Record)
    requires t.index == s.index[cfg.mapName(r.payload) := ToStateName(r.name)]
    requires t.tracker == s.tracker + {ToStateName(r.name)}
    requires t.store == s.store && t.data == s.data && t.replied == s.replied
    requires t.seqNo == s.seqNo && t.published == s.published
    requires cfg.mapName(r.payload) !in s.index
    ensures HarvestStep(cfg, t) == IndexAndHarvest(cfg, s, r)
  {
    assert t == s.(index := t.index, tracker := t.tracker);
  }

  lemma ReplyInv(cfg: Config, t: Ledger, s: Ledger, targets: seq<Name>)
    requires cfg.Valid() && Inv(cfg, s) && Enabled(cfg, s, ReplyTimer(targets))
    requires t == ReplyStep(cfg, s, targets)
    ensures Inv(cfg, t)
  {
    ReplyKeepsInv(cfg, s, targets);
  }

  lemma SubmitInv(cfg: Config, t: Ledger, s: Ledger, payload: Bytes, tips: seq<Name>)
    requires cfg.Valid() && Inv(cfg, s) && Enabled(cfg, s, Submit(payload, tips))
    requires t == SubmitStep(cfg, s, payload, tips)
    ensures Inv(cfg, t)
  {
    SubmitKeepsInv(cfg, s, payload, tips);
  }

  lemma NoReply(t: Ledger, s: Ledger, targets: seq<Name>)
    requires targets == [] && t == s.(replied := s.replied + Elements(targets))
    ensures t == s
  {
    assert s.replied + {} == s.replied;
  }

  lemma ListedIsRipe(cfg: Config, s: Ledger, waitlist: Waitlist)
    requires forall n :: n in ListedFrom(s.store, cfg.Score(), waitlist, cfg.threshold) <==>
      Ripe(s.store, cfg.Score(), cfg.threshold, n)
    ensures ListedFrom(s.store, cfg.Score(), waitlist, cfg.threshold) == RipeNames(cfg, s)
  {
  }

  lemma TakeOneMore<T>(list: seq<T>, i: nat)
    requires i < |list|
    ensures list[..i + 1] == list[..i] + [list[i]]
  {
  }

  lemma TakeAll<T>(list: seq<T>)
    ensures list[..|list|] == list
  {
  }

  lemma NewNamesStep(list: seq<Record>, i: nat, replied: set<Name>)
    requires i < |list| && forall j, k :: 0 <= j < k < |list| ==> list[j].name != list[k].name
    ensures NewNames(list[..i] + [list[i]], replied) ==
      NewNames(list[..i], replied) + (if list[i].name in replied || list[i].IsReply() then {} else {list[i].name})
    ensures list[i].name !in NewNames(list[..i], replied)
  {
    forall r | r in list[..i] ensures r.name != list[i].name {
      var j :| 0 <= j < i && list[j] == r;
      assert list[j].name != list[i].name;
    }
  }

  // ----- Lists the handlers walk -----

  function NamesOf(list: seq<Record>): set<Name> {
    set r | r in list :: r.name
  }

  function StatesOf(list: seq<Record>): set<Name> {
    set r | r in list :: ToStateName(r.name)
  }

  lemma OneMoreRecord(list: seq<Record>, r: Record)
    ensures NamesOf(list + [r]) == NamesOf(list) + {r.name}
    ensures StatesOf(list + [r]) == StatesOf(list) + {ToStateName(r.name)}
  {
  }

  lemma ListedRecords(store: Store, list: seq<Record>, states: set<Name>)
    requires WellFormed(store) && Lists(store, list, states)
    requires forall n :: n in states ==> n in store && store[n].status != INITIALIZED
    ensures NamesOf(list) == RecordNamesIn(store, states) && StatesOf(list) == states
  {
    forall n | n in states ensures Lookup(store, n).record.name in NamesOf(list) && n in StatesOf(list) {
      assert WellFormedState(store, n);
      assert Lookup(store, n).record in list;
    }
    forall r | r in list ensures ToStateName(r.name) in states && r.name in RecordNamesIn(store, states) {
      var i :| 0 <= i < |list| && list[i] == r;
      assert Lookup(store, ToStateName(list[i].name)).record == list[i];
    }
  }

  lemma TipBucket(cfg: Config, s: Ledger, waitlist: Waitlist)
    requires Indexed(s.store, cfg.Score(), waitlist) && Tidy(s.store, waitlist)
    ensures Bucket(waitlist, 0) == TipStates(cfg, s)
  {
    BucketContents(s.store, cfg.Score(), waitlist, 0);
  }

  lemma SameBuckets(store: Store, score: Score, before: Waitlist, after: Waitlist)
    requires Indexed(store, score, before) && Tidy(store, before)
    requires forall j :: Bucket(after, j) == Bucket(before, j)
    ensures Indexed(store, score, after) && Tidy(store, after)
  {
  }

  /** The record names of the waiting states, one after the other. */
  method TipPointerList(waiting: set<Name>, ghost cfg: Config, ghost s: Ledger) returns (pointers: seq<Name>)
    requires cfg.Valid() && Inv(cfg, s) && waiting == TipStates(cfg, s)
    ensures Enumerates(pointers, RecordNames(waiting))
  {
    pointers := [];
    var todo := waiting;
    while todo != {}
      invariant todo <= waiting
      invariant Enumerates(pointers, RecordNames(waiting - todo))
    {
      var i :| i in todo;
      TipNameNew(cfg, s, waiting - todo, i);
      pointers := pointers + [FromStateName(i)];
      todo := todo - {i};
    }
    assert waiting - todo == waiting;
  }

  lemma TipNameNew(cfg: Config, s: Ledger, done: set<Name>, n: Name)
    requires cfg.Valid() && Inv(cfg, s) && done <= TipStates(cfg, s)
    requires n in TipStates(cfg, s) && n !in done
    ensures FromStateName(n) !in RecordNames(done)
    ensures RecordNames(done + {n}) == RecordNames(done) + {FromStateName(n)}
  {
    forall m | m in done ensures FromStateName(m) != FromStateName(n) {
      TipsAreLoaded(cfg, s, m);
      TipsAreLoaded(cfg, s, n);
      assert WellFormedState(s.store, m) && WellFormedState(s.store, n);
    }
  }

  /** The names a reply still has to reference. */
  function NewNames(list: seq<Record>, replied: set<Name>): set<Name> {
    set r | r in list && r.name !in replied && !r.IsReply() :: r.name
  }

  lemma TargetsListed(cfg: Config, s: Ledger, list: seq<Record>, states: set<Name>)
    requires WellFormed(s.store) && Lists(s.store, list, states)
    requires forall n :: n in states <==>
      n in s.store && s.store[n].status == LOADED && !Ripe(s.store, cfg.Score(), cfg.threshold, n)
    ensures NewNames(list, s.replied) == ReplyTargets(cfg, s)
  {
    forall p | p in NewNames(list, s.replied) ensures p in ReplyTargets(cfg, s) {
      var r :| r in list && r.name == p && p !in s.replied && !r.IsReply();
      var i :| 0 <= i < |list| && list[i] == r;
      assert ToStateName(list[i].name) in states;
    }
    forall p | p in ReplyTargets(cfg, s) ensures p in NewNames(list, s.replied) {
      var n :| n in s.store && s.store[n].status == LOADED && !Ripe(s.store, cfg.Score(), cfg.threshold, n)
               && p !in s.replied && !s.store[n].record.IsReply() && s.store[n].record.name == p;
      assert n in states;
      assert Lookup(s.store, n).record in list;
    }
  }
}
