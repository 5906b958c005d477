/** The fixed-window pipeline: event handlers that update the window in place, tied to the
    state machine of PipelineSpec, with the consumer it feeds. */
module Pipeline {
  import opened Names
  import opened Tlv
  import opened Producer
  import opened Consumer
  import opened PipelineSpec

  class PipelineInterestsFixed {
    const maxPipelineSize: nat
    const consumer: Consumer
    var segmentFetchers: seq<Slot>
    var nextSegmentNo: nat
    var hasFinalBlockId: bool
    var lastSegmentNo: nat
    var nReceived: nat
    var hasFailure: bool
    var isStopping: bool
    ghost var delivered: seq<nat>
    ghost var failures: nat

    constructor (maxPipelineSize: nat, consumer: Consumer)
      ensures Abs() == Fresh(maxPipelineSize)
      ensures this.maxPipelineSize == maxPipelineSize && this.consumer == consumer
    {
      this.maxPipelineSize := maxPipelineSize;
      this.consumer := consumer;
      segmentFetchers := seq(maxPipelineSize, _ => Empty);
      nextSegmentNo, hasFinalBlockId, lastSegmentNo, nReceived := 0, false, 0, 0;
      hasFailure, isStopping, delivered, failures := false, false, [], 0;
    }

    ghost function Abs(): Pipeline
      reads this
    {
      PipelineSpec.Pipeline.Pipeline(segmentFetchers, nextSegmentNo, hasFinalBlockId, lastSegmentNo, nReceived,
                                     hasFailure, isStopping, delivered, failures)
    }

    /** True when as many segments were received as the content has. */
    predicate AllSegmentsReceived()
      reads this
    {
      nReceived > 0 && hasFinalBlockId && nReceived - 1 >= lastSegmentNo
    }

    method GetNextSegmentNo() returns (n: nat)
      modifies this`nextSegmentNo
      ensures n == old(nextSegmentNo) && nextSegmentNo == n + 1
    {
      n := nextSegmentNo;
      nextSegmentNo := nextSegmentNo + 1;
    }

    method DoRun()
      requires Abs() == Fresh(maxPipelineSize)
      modifies this
      ensures Abs() == RunFrom(Fresh(maxPipelineSize), 0)
    {
      var nRequestedSegments := 0;
      while nRequestedSegments < maxPipelineSize
        invariant 0 <= nRequestedSegments <= maxPipelineSize
        invariant Starting(Abs(), maxPipelineSize, nRequestedSegments)
        invariant RunFrom(Abs(), nRequestedSegments) == RunFrom(Fresh(maxPipelineSize), 0)
      {
        var more := FetchNextSegment(nRequestedSegments);
        if !more {
          break;
        }
        nRequestedSegments := nRequestedSegments + 1;
      }
    }

    method FetchNextSegment(pipeNo: nat) returns (more: bool)
      requires isStopping || pipeNo < |segmentFetchers|
      requires !isStopping ==> !RunningAt(Abs(), pipeNo)
      modifies this
      ensures (Abs(), more) == FetchNext(old(Abs()), pipeNo)
    {
      if isStopping {
        return false;
      }
      if hasFailure {
        OnFailure();
        return false;
      }
      var n := GetNextSegmentNo();
      if hasFinalBlockId && n > lastSegmentNo {
        return false;
      }
      segmentFetchers := segmentFetchers[pipeNo := Slot(Running, n)];
      more := true;
    }

    method Cancel()
      modifies this
      ensures Abs() == PipelineSpec.Cancel(old(Abs()))
    {
      if isStopping {
        return;
      }
      isStopping := true;
      segmentFetchers := [];
    }

    method OnFailure()
      modifies this
      ensures Abs() == PipelineSpec.OnFailure(old(Abs()))
    {
      if isStopping {
        return;
      }
      Cancel();
      failures := failures + 1;
    }

    method OnData(segmentNo: nat, content: Bytes)
      modifies this`nReceived, this`delivered, consumer
      ensures Abs() == Deliver(old(Abs()), segmentNo)
      ensures consumer.Abs() == Receive(old(consumer.Abs()), segmentNo, content, AllReceived(Abs()))
    {
      nReceived := nReceived + 1;
      delivered := delivered + [segmentNo];
      var _ := consumer.HandleData(segmentNo, content, AllSegmentsReceived(), true, false);
    }

    /** The first packet that names the last segment: fetchers beyond it are cancelled; a
        fetcher within it that failed fails the transfer. */
    method LearnFinalBlock(final: Option<nat>)
      requires !isStopping
      modifies this
      ensures Abs() == Learn(old(Abs()), final)
    {
      if hasFinalBlockId || final.None? {
        return;
      }
      lastSegmentNo := final.value;
      hasFinalBlockId := true;
      ghost var p := Abs();
      for i := 0 to |segmentFetchers|
        invariant !isStopping && |segmentFetchers| == |p.slots|
        invariant Abs() == p.(slots := segmentFetchers)
        invariant forall j :: 0 <= j < i ==> segmentFetchers[j] == CancelBeyond(p.slots, p.last)[j]
        invariant forall j :: i <= j < |p.slots| ==> segmentFetchers[j] == p.slots[j]
        invariant forall j :: 0 <= j < i && p.slots[j].Slot? && p.slots[j].segmentNo <= p.last ==> p.slots[j].status != Failed
      {
        var fetcher := segmentFetchers[i];
        if fetcher.Empty? {
          continue;
        }
        if fetcher.segmentNo > lastSegmentNo {
          segmentFetchers := segmentFetchers[i := Cancelled(fetcher)];
        } else if fetcher.status == Failed {
          assert SomeFailedWithin(p.slots, p.last);
          OnFailure();
          return;
        }
      }
      assert segmentFetchers == CancelBeyond(p.slots, p.last);
    }

    /** The fetcher in place `pipeNo`, which has just stopped, reports its packet. */
    method HandleData(pipeNo: nat, final: Option<nat>, content: Bytes)
      requires !isStopping && RunningAt(Abs(), pipeNo)
      modifies this, consumer
      ensures Abs() == DataStep(old(Abs()), pipeNo, final)
      ensures var q := Learn(Finish(old(Abs()), pipeNo, Stopped), final); var k := old(segmentFetchers[pipeNo].segmentNo);
        consumer.Abs() == if q.stopping then old(consumer.Abs())
                          else Receive(old(consumer.Abs()), k, content, AllReceived(Deliver(q, k)))
    {
      var k := segmentFetchers[pipeNo].segmentNo;
      segmentFetchers := segmentFetchers[pipeNo := segmentFetchers[pipeNo].(status := Stopped)];
      LearnFinalBlock(final);
      if isStopping {
        return;
      }
      OnData(k, content);
      if !AllSegmentsReceived() {
        var _ := FetchNextSegment(pipeNo);
      }
    }

    /** The fetcher in place `pipeNo`, which has just failed, gives up. */
    method HandleFail(pipeNo: nat)
      requires !isStopping && RunningAt(Abs(), pipeNo)
      modifies this
      ensures Abs() == FailStep(old(Abs()), pipeNo)
    {
      var k := segmentFetchers[pipeNo].segmentNo;
      segmentFetchers := segmentFetchers[pipeNo := segmentFetchers[pipeNo].(status := Failed)];
      if hasFinalBlockId && k <= lastSegmentNo {
        OnFailure();
        return;
      }
      if !hasFinalBlockId {
        var areAllFetchersStopped := CancelFollowing(k);
        if areAllFetchersStopped {
          OnFailure();
        } else {
          hasFailure := true;
        }
      }
    }

    /** Cancels the fetchers of the segments after `k`; whether nothing up to `k` runs. */
    method CancelFollowing(k: nat) returns (areAllFetchersStopped: bool)
      modifies this`segmentFetchers
      ensures segmentFetchers == CancelBeyond(old(segmentFetchers), k)
      ensures areAllFetchersStopped <==> !SomeRunningUpTo(segmentFetchers, k)
    {
      areAllFetchersStopped := true;
      for i := 0 to |segmentFetchers|
        invariant |segmentFetchers| == |old(segmentFetchers)|
        invariant forall j :: 0 <= j < i ==> segmentFetchers[j] == CancelBeyond(old(segmentFetchers), k)[j]
        invariant forall j :: i <= j < |segmentFetchers| ==> segmentFetchers[j] == old(segmentFetchers)[j]
        invariant areAllFetchersStopped <==> !SomeRunningUpTo(segmentFetchers[..i], k)
      {
        var fetcher := segmentFetchers[i];
        if fetcher.Slot? {
          if fetcher.segmentNo > k {
            segmentFetchers := segmentFetchers[i := Cancelled(fetcher)];
          } else if fetcher.status == Running {
            areAllFetchersStopped := false;
          }
        }
        RunningUpToOneMore(segmentFetchers, i, k);
      }
      assert segmentFetchers == CancelBeyond(old(segmentFetchers), k);
      assert segmentFetchers[..|segmentFetchers|] == segmentFetchers;
    }
  }

  lemma RunningUpToOneMore(slots: seq<Slot>, i: nat, k: nat)
    requires i < |slots|
    ensures SomeRunningUpTo(slots[..i + 1], k) <==>
      SomeRunningUpTo(slots[..i], k) || (slots[i].Slot? && slots[i].segmentNo <= k && slots[i].status == Running)
  {
    var more, less := slots[..i + 1], slots[..i];
    if SomeRunningUpTo(less, k) {
      var j :| 0 <= j < |less| && less[j].Slot? && less[j].segmentNo <= k && less[j].status == Running;
      assert more[j] == less[j];
    }
    if slots[i].Slot? && slots[i].segmentNo <= k && slots[i].status == Running {
      assert more[i] == slots[i];
    }
    if SomeRunningUpTo(more, k) {
      var j :| 0 <= j < |more| && more[j].Slot? && more[j].segmentNo <= k && more[j].status == Running;
      assert j < i ==> less[j] == more[j];
    }
  }
}
