/** Whole runs on the classes: fed any sequence of operations, the engine ends in the state
    of the corresponding run of DagRuns, and a ledger instance in one of LedgerRuns. */
module Replay {
  import opened Names
  import opened Tlv
  import opened DagSpec
  import opened DagModule
  import opened LedgerSpec
  import opened LedgerModule
  import D = DagRuns
  import L = LedgerRuns

  // ----- The engine -----

  lemma RunOneMore(score: Score, ops: seq<D.Op>, k: nat)
    requires k < |ops|
    ensures D.Run(score, ops[..k + 1]) == D.Apply(D.Run(score, ops[..k]), score, ops[k])
  {
    assert ops[..k + 1][..k] == ops[..k];
  }

  /** The engine after a sequence of adds and removing harvests. */
  method ReplayDag(score: Score, ops: seq<D.Op>) returns (dag: DagModule)
    ensures fresh(dag) && dag.Valid() && dag.score == score
    ensures dag.store == D.Run(score, ops) && Tidy(dag.store, dag.waitlist)
  {
    dag := new DagModule(score);
    for i := 0 to |ops|
      invariant fresh(dag) && dag.Valid() && dag.score == score
      invariant dag.store == D.Run(score, ops[..i]) && Tidy(dag.store, dag.waitlist)
    {
      RunOneMore(score, ops, i);
      match ops[i]
      case Add(r) => var _ := dag.Add(r);
      case Harvest(threshold) => var _ := dag.HarvestAbove(threshold, true);
    }
    assert ops[..|ops|] == ops;
  }

  // ----- A ledger instance -----

  /** What happens to an instance; in which order it walks a set is its own choice. */
  datatype Request = Submission(payload: Bytes) | Delivery(record: Record) | ReplyTime

  predicate Answers(req: Request, ev: Event) {
    match req
    case Submission(payload) => ev.Submit? && ev.payload == payload
    case Delivery(r) => ev == Deliver(r)
    case ReplyTime => ev.ReplyTimer?
  }

  /** What the environment has to keep to: see LedgerSpec.Enabled. */
  ghost predicate Possible(cfg: Config, s: Ledger, req: Request) {
    match req
    case Submission(payload) => cfg.IsPacket(payload) && s.seqNo + 1 < TWO_64 && NoCollision(cfg, s, payload)
    case Delivery(r) => Enabled(cfg, s, Deliver(r))
    case ReplyTime => s.seqNo + 1 < TWO_64
  }

  /** `evs` is one way in which an instance may answer the first requests. */
  ghost predicate Follows(cfg: Config, requests: seq<Request>, evs: seq<Event>) {
    && |evs| <= |requests|
    && forall i :: 0 <= i < |evs| ==> Answers(requests[i], evs[i]) && Enabled(cfg, L.Run(cfg, evs[..i]), evs[i])
  }

  /** Each request is possible when its turn comes, however the earlier ones were answered. */
  ghost predicate AllPossible(cfg: Config, requests: seq<Request>) {
    forall evs :: Follows(cfg, requests, evs) && |evs| < |requests| ==>
      Possible(cfg, L.Run(cfg, evs), requests[|evs|])
  }

  lemma RunOneEvent(cfg: Config, evs: seq<Event>, ev: Event)
    requires Enabled(cfg, L.Run(cfg, evs), ev)
    ensures L.Run(cfg, evs + [ev]) == Step(cfg, L.Run(cfg, evs), ev)
  {
    var all := evs + [ev];
    assert all[..|all| - 1] == evs;
  }

  lemma FollowsOneMore(cfg: Config, requests: seq<Request>, evs: seq<Event>, ev: Event)
    requires Follows(cfg, requests, evs) && |evs| < |requests|
    requires Answers(requests[|evs|], ev) && Enabled(cfg, L.Run(cfg, evs), ev)
    ensures Follows(cfg, requests, evs + [ev])
  {
    var all := evs + [ev];
    forall i | 0 <= i < |all| ensures Answers(requests[i], all[i]) && Enabled(cfg, L.Run(cfg, all[..i]), all[i]) {
      if i < |evs| {
        assert all[..i] == evs[..i];
      } else {
        assert all[..i] == evs;
      }
    }
  }

  /** One request, answered by its handler: a step of the state machine. */
  method Handle(ledger: LedgerModule, req: Request) returns (ghost ev: Event)
    requires ledger.Valid() && Possible(ledger.cfg, ledger.Abs(), req)
    modifies ledger, ledger.dag
    ensures ledger.Valid() && Answers(req, ev) && Enabled(ledger.cfg, old(ledger.Abs()), ev)
    ensures ledger.Abs() == Step(ledger.cfg, old(ledger.Abs()), ev)
  {
    match req
    case Submission(payload) =>
      var _, tips := ledger.AfterValidation(payload);
      ev := Submit(payload, tips);
    case Delivery(r) =>
      ledger.OnSyncRecord(r);
      ev := Deliver(r);
    case ReplyTime =>
      ghost var targets := ledger.PublishReply();
      ev := ReplyTimer(targets);
  }

  /** `s` is reached by answering the first requests with `evs`. */
  ghost predicate Reached(cfg: Config, requests: seq<Request>, evs: seq<Event>, s: Ledger) {
    Follows(cfg, requests, evs) && s == L.Run(cfg, evs)
  }

  lemma NextPossible(cfg: Config, requests: seq<Request>, evs: seq<Event>, s: Ledger)
    requires AllPossible(cfg, requests) && Reached(cfg, requests, evs, s) && |evs| < |requests|
    ensures Possible(cfg, s, requests[|evs|])
  {
  }

  lemma ReachedOneMore(cfg: Config, requests: seq<Request>, evs: seq<Event>, s: Ledger, ev: Event)
    requires Reached(cfg, requests, evs, s) && |evs| < |requests|
    requires Answers(requests[|evs|], ev) && Enabled(cfg, s, ev)
    ensures Reached(cfg, requests, evs + [ev], Step(cfg, s, ev))
  {
    RunOneEvent(cfg, evs, ev);
    FollowsOneMore(cfg, requests, evs, ev);
  }

  lemma ReachedStart(cfg: Config, requests: seq<Request>)
    ensures Reached(cfg, requests, [], EMPTY)
  {
  }

  /** An instance after a sequence of requests: its state is that of a run whose events
      answer them one by one, so all that holds over runs holds of it. */
  method ReplayLedger(cfg: Config, requests: seq<Request>) returns (ledger: LedgerModule, ghost evs: seq<Event>)
    requires cfg.Valid() && AllPossible(cfg, requests)
    ensures ledger.Valid() && ledger.cfg == cfg
    ensures |evs| == |requests| && Reached(cfg, requests, evs, ledger.Abs())
  {
    ledger := new LedgerModule(cfg);
    evs := [];
    ReachedStart(cfg, requests);
    for i := 0 to |requests|
      invariant fresh(ledger) && fresh(ledger.dag) && ledger.Valid() && ledger.cfg == cfg
      invariant |evs| == i && Reached(cfg, requests, evs, ledger.Abs())
    {
      ghost var s := ledger.Abs();
      NextPossible(cfg, requests, evs, s);
      ghost var ev := Handle(ledger, requests[i]);
      ReachedOneMore(cfg, requests, evs, s, ev);
      evs := evs + [ev];
    }
  }
}
