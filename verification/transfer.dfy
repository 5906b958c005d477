/** A whole transfer: a producer's packets, fetched through the window in any order, put
    together by the consumer. */
module Transfer {
  import opened Names
  import opened Sets
  import opened Tlv
  import opened Producer
  import opened Consumer
  import opened PipelineSpec

  datatype Transfer = Transfer(pipeline: Pipeline, consumer: Reassembly)

  /** One event, with the packets `PacketsOf(block, size)` on the producer's side. */
  function TransferStep(t: Transfer, packets: seq<Data>, ev: Event): Transfer
    requires |packets| > 0 && Enabled(t.pipeline, |packets| - 1, ev)
  {
    var p := Step(t.pipeline, |packets| - 1, ev);
    match ev
    case DataArrives(i) =>
      var k := t.pipeline.slots[i].segmentNo;
      var q := Learn(Finish(t.pipeline, i, Stopped), packets[k].finalBlock);
      if q.stopping then Transfer(p, t.consumer)
      else Transfer(p, Receive(t.consumer, k, packets[k].content, AllReceived(Deliver(q, k))))
    case FetchFails(_) => Transfer(p, t.consumer)
    case CancelledByUser => Transfer(p, t.consumer)
  }

  function TransferRun(window: nat, packets: seq<Data>, evs: seq<Event>): Transfer
    requires |packets| > 0
  {
    if evs == [] then Transfer(RunFrom(Fresh(window), 0), START)
    else
      var t, ev := TransferRun(window, packets, evs[..|evs| - 1]), evs[|evs| - 1];
      if Enabled(t.pipeline, |packets| - 1, ev) then TransferStep(t, packets, ev) else t
  }

  /** The finish callback was made once, with the whole block, if the transfer is complete,
      and not at all otherwise. */
  ghost predicate TransferInv(t: Transfer, window: nat, segments: seq<Bytes>)
    requires |segments| > 0
  {
    && Inv(t.pipeline, window, |segments| - 1)
    && Settled(t.consumer, segments, Elements(t.pipeline.delivered))
    && t.consumer.finished == if AllReceived(t.pipeline) then [Concat(segments)] else []
  }

  lemma FetchNextKeeps(p: Pipeline, i: nat)
    requires p.stopping || i < |p.slots|
    ensures FetchNext(p, i).0.delivered == p.delivered && AllReceived(FetchNext(p, i).0) == AllReceived(p)
  {
  }

  /** A packet arrives at a transfer that is not complete yet. */
  lemma NotYetComplete(p: Pipeline, i: nat, window: nat, last: nat)
    requires Inv(p, window, last) && Enabled(p, last, DataArrives(i))
    ensures !AllReceived(p) && p.slots[i].segmentNo !in p.delivered
  {
    CompleteIffAll(p, last);
  }

  lemma LearnKeeps(p: Pipeline, i: nat, window: nat, last: nat)
    requires Inv(p, window, last) && Enabled(p, last, DataArrives(i))
    ensures var q := Learn(Finish(p, i, Stopped), Some(last));
      && q.delivered == p.delivered && q.nReceived == p.nReceived && q.hasFinal && q.last == last
      && !AllReceived(q)
      && (!q.stopping ==> i < |q.slots|)
  {
    NotYetComplete(p, i, window, last);
  }

  /** What one packet does to pipeline and consumer together. */
  lemma DataEffect(t: Transfer, window: nat, packets: seq<Data>, i: nat)
    requires |packets| > 0 && Inv(t.pipeline, window, |packets| - 1)
    requires Enabled(t.pipeline, |packets| - 1, DataArrives(i))
    requires forall k :: 0 <= k < |packets| ==> packets[k].finalBlock == Some(|packets| - 1)
    ensures var u := TransferStep(t, packets, DataArrives(i)); var k := t.pipeline.slots[i].segmentNo;
      if Learn(Finish(t.pipeline, i, Stopped), Some(|packets| - 1)).stopping then
        u.consumer == t.consumer && u.pipeline.delivered == t.pipeline.delivered && !AllReceived(u.pipeline)
      else
        && u.pipeline.delivered == t.pipeline.delivered + [k]
        && u.consumer == Receive(t.consumer, k, packets[k].content, AllReceived(u.pipeline))
  {
    var k := t.pipeline.slots[i].segmentNo;
    var q := Learn(Finish(t.pipeline, i, Stopped), Some(|packets| - 1));
    LearnKeeps(t.pipeline, i, window, |packets| - 1);
    if !q.stopping {
      FetchNextKeeps(Deliver(q, k), i);
    }
  }

  lemma DataKeepsTransfer(t: Transfer, window: nat, packets: seq<Data>, segments: seq<Bytes>, i: nat)
    requires |packets| == |segments| > 0
    requires forall k :: 0 <= k < |packets| ==> packets[k] == Data(k, segments[k], Some(|packets| - 1))
    requires TransferInv(t, window, segments) && Enabled(t.pipeline, |packets| - 1, DataArrives(i))
    ensures TransferInv(TransferStep(t, packets, DataArrives(i)), window, segments)
  {
    var last := |packets| - 1;
    var u := TransferStep(t, packets, DataArrives(i));
    DataKeepsInv(t.pipeline, i, window, last);
    NotYetComplete(t.pipeline, i, window, last);
    DataEffect(t, window, packets, i);
    if !Learn(Finish(t.pipeline, i, Stopped), Some(last)).stopping {
      ReceiveOne(t, u, window, segments, t.pipeline.slots[i].segmentNo);
    }
  }

  lemma ReceiveOne(t: Transfer, u: Transfer, window: nat, segments: seq<Bytes>, k: nat)
    requires |segments| > 0 && TransferInv(t, window, segments) && Inv(u.pipeline, window, |segments| - 1)
    requires k < |segments| && k !in t.pipeline.delivered && !AllReceived(t.pipeline)
    requires u.pipeline.delivered == t.pipeline.delivered + [k]
    requires u.consumer == Receive(t.consumer, k, segments[k], AllReceived(u.pipeline))
    ensures TransferInv(u, window, segments)
  {
    assert Elements(u.pipeline.delivered) == Elements(t.pipeline.delivered) + {k};
    ReceiveSettles(t.consumer, segments, Elements(t.pipeline.delivered), k, AllReceived(u.pipeline));
    if AllReceived(u.pipeline) {
      CompleteIffAll(u.pipeline, |segments| - 1);
      AllWritten(u.consumer, segments, Elements(u.pipeline.delivered));
    }
  }

  lemma TransferStart(window: nat, segments: seq<Bytes>)
    requires |segments| > 0
    ensures TransferInv(Transfer(RunFrom(Fresh(window), 0), START), window, segments)
  {
    var p := RunFrom(Fresh(window), 0);
    StartsOpen(Fresh(window), window, 0);
    StartInv(window, |segments| - 1);
    assert Elements(p.delivered) == {};
    assert segments[..0] == [] && Concat([]) == [];
    assert Settled(START, segments, {});
  }

  lemma {:induction false} TransferReachable(window: nat, packets: seq<Data>, segments: seq<Bytes>, evs: seq<Event>)
    requires |packets| == |segments| > 0
    requires forall k :: 0 <= k < |packets| ==> packets[k] == Data(k, segments[k], Some(|packets| - 1))
    ensures var t := TransferRun(window, packets, evs);
      TransferInv(t, window, segments) && t.pipeline == Run(window, |packets| - 1, evs)
  {
    var last := |packets| - 1;
    if evs == [] {
      TransferStart(window, segments);
    } else {
      var before, ev := evs[..|evs| - 1], evs[|evs| - 1];
      TransferReachable(window, packets, segments, before);
      var t := TransferRun(window, packets, before);
      if Enabled(t.pipeline, last, ev) {
        if ev.DataArrives? {
          DataKeepsTransfer(t, window, packets, segments, ev.place);
        } else {
          StepKeepsInv(t.pipeline, window, last, ev);
        }
      }
    }
  }

  /** The round trip: for every block, segment size and window, and whatever order packets,
      failures and cancellations come in, the consumer finishes exactly when the transfer
      is complete, once, with the block that was published; the failure callback comes exactly
      once when the transfer stopped otherwise than by cancellation, and then it is
      incomplete, and not at all else; a transfer that is neither complete nor stopped is still
      fetching some segment of the block; and it ends, since only so many fetches are started
      and only so many reports of theirs can take effect. */
  lemma TransferRoundTrip(block: Bytes, size: nat, window: nat, evs: seq<Event>)
    requires size >= 1 && |block| >= 1 && window >= 1
    ensures var t := TransferRun(window, PacketsOf(block, size), evs);
      && t.consumer.finished == (if AllReceived(t.pipeline) then [block] else [])
      && (var cancelled := UserStopped(window, SegmentCount(block, size) - 1, evs);
          && t.pipeline.failures == (if t.pipeline.stopping && !cancelled then 1 else 0)
          && (t.pipeline.stopping && !cancelled ==> t.consumer.finished == []))
      && (AllReceived(t.pipeline) <==> forall k :: 0 <= k < SegmentCount(block, size) ==> k in t.pipeline.delivered)
      && (t.pipeline.stopping || AllReceived(t.pipeline) ||
          exists i :: 0 <= i < |t.pipeline.slots| && RunningAt(t.pipeline, i)
                      && t.pipeline.slots[i].segmentNo < SegmentCount(block, size))
      && Reports(window, SegmentCount(block, size) - 1, evs) <= SegmentCount(block, size) + window + 1
      && t.pipeline.nextSegmentNo <= SegmentCount(block, size) + window
  {
    var packets, segments := PacketsOf(block, size), SegmentsOf(block, size);
    CountCovers(block, size);
    TransferReachable(window, packets, segments, evs);
    SegmentsRestore(block, size);
    Counting(window, |packets| - 1, evs);
    NeverStalls(window, |packets| - 1, evs);
    FailureExactly(window, |packets| - 1, evs);
    ReportsBounded(window, |packets| - 1, evs);
    RequestsBounded(window, |packets| - 1, evs);
  }
}
