/** The window of concurrent fetches, as a state machine over what its fetchers report. */
module PipelineSpec {
  import opened Sets
  import opened Tlv

  datatype FetchStatus = Running | Stopped | Failed

  /** One place of the window: a fetcher and the segment it fetches. */
  datatype Slot = Empty | Slot(status: FetchStatus, segmentNo: nat)

  /** `delivered` lists the segments passed on so far; `failures` counts failure callbacks. */
  datatype Pipeline = Pipeline(slots: seq<Slot>, nextSegmentNo: nat, hasFinal: bool, last: nat, nReceived: nat,
                               hasFailure: bool, stopping: bool, delivered: seq<nat>, failures: nat)

  function Fresh(size: nat): Pipeline {
    Pipeline(seq(size, _ => Empty), 0, false, 0, 0, false, false, [], 0)
  }

  predicate AllReceived(p: Pipeline) {
    p.nReceived > 0 && p.hasFinal && p.nReceived - 1 >= p.last
  }

  function Cancelled(slot: Slot): Slot {
    if slot.Slot? && slot.status == Running then slot.(status := Stopped) else slot
  }

  /** Cancels every fetcher beyond segment `k`. */
  function CancelBeyond(slots: seq<Slot>, k: nat): (r: seq<Slot>)
    ensures |r| == |slots|
  {
    seq(|slots|, i requires 0 <= i < |slots| =>
      if slots[i].Slot? && slots[i].segmentNo > k then Cancelled(slots[i]) else slots[i])
  }

  function Cancel(p: Pipeline): Pipeline {
    if p.stopping then p else p.(stopping := true, slots := [])
  }

  function OnFailure(p: Pipeline): Pipeline {
    if p.stopping then p else Cancel(p).(failures := p.failures + 1)
  }

  /** Puts a fetcher for the next segment in place `i`, unless the content is known to end
      before it. Once a fetch has failed, nothing more is fetched. */
  function FetchNext(p: Pipeline, i: nat): (r: (Pipeline, bool))
    requires p.stopping || i < |p.slots|
  {
    if p.stopping then (p, false)
    else if p.hasFailure then (OnFailure(p), false)
    else
      var n := p.nextSegmentNo;
      var q := p.(nextSegmentNo := n + 1);
      if q.hasFinal && n > q.last then (q, false)
      else (q.(slots := q.slots[i := Slot(Running, n)]), true)
  }

  function RunFrom(p: Pipeline, i: nat): Pipeline
    requires p.stopping || i <= |p.slots|
    decreases |p.slots| - i
  {
    if p.stopping || i >= |p.slots| then p
    else
      var (q, more) := FetchNext(p, i);
      if more then RunFrom(q, i + 1) else q
  }

  predicate SomeFailedWithin(slots: seq<Slot>, k: nat) {
    exists i :: 0 <= i < |slots| && slots[i].Slot? && slots[i].segmentNo <= k && slots[i].status == Failed
  }

  /** The first packet that names the last segment fixes the length of the content. */
  function Learn(p: Pipeline, final: Option<nat>): Pipeline {
    if p.hasFinal || final.None? then p
    else
      var q := p.(hasFinal := true, last := final.value);
      if SomeFailedWithin(q.slots, q.last) then OnFailure(q)
      else q.(slots := CancelBeyond(q.slots, q.last))
  }

  function Deliver(p: Pipeline, segmentNo: nat): Pipeline {
    p.(nReceived := p.nReceived + 1, delivered := p.delivered + [segmentNo])
  }

  predicate RunningAt(p: Pipeline, i: nat) {
    i < |p.slots| && p.slots[i].Slot? && p.slots[i].status == Running
  }

  function Finish(p: Pipeline, i: nat, status: FetchStatus): Pipeline
    requires RunningAt(p, i)
  {
    p.(slots := p.slots[i := p.slots[i].(status := status)])
  }

  /** The fetcher in place `i` got its packet. */
  function DataStep(p: Pipeline, i: nat, final: Option<nat>): Pipeline
    requires !p.stopping && RunningAt(p, i)
  {
    var q := Learn(Finish(p, i, Stopped), final);
    if q.stopping then q
    else
      var r := Deliver(q, p.slots[i].segmentNo);
      if AllReceived(r) then r else FetchNext(r, i).0
  }

  predicate SomeRunningUpTo(slots: seq<Slot>, k: nat) {
    exists i :: 0 <= i < |slots| && slots[i].Slot? && slots[i].segmentNo <= k && slots[i].status == Running
  }

  /** The fetcher in place `i` gave up. */
  function FailStep(p: Pipeline, i: nat): Pipeline
    requires !p.stopping && RunningAt(p, i)
  {
    var k := p.slots[i].segmentNo;
    var q := Finish(p, i, Failed);
    if p.hasFinal && k <= p.last then OnFailure(q)
    else if p.hasFinal then q
    else
      var r := q.(slots := CancelBeyond(q.slots, k));
      if SomeRunningUpTo(r.slots, k) then r.(hasFailure := true) else OnFailure(r)
  }

  // ----- Runs -----

  datatype Event = DataArrives(place: nat) | FetchFails(place: nat) | CancelledByUser

  /** A fetcher still running may report; the producer has segments up to `last` only. */
  predicate Enabled(p: Pipeline, last: nat, ev: Event) {
    match ev
    case DataArrives(i) => !p.stopping && RunningAt(p, i) && p.slots[i].segmentNo <= last
    case FetchFails(i) => !p.stopping && RunningAt(p, i)
    case CancelledByUser => true
  }

  function Step(p: Pipeline, last: nat, ev: Event): Pipeline
    requires Enabled(p, last, ev)
  {
    match ev
    case DataArrives(i) => DataStep(p, i, Some(last))
    case FetchFails(i) => FailStep(p, i)
    case CancelledByUser => Cancel(p)
  }

  // ----- The invariant -----

  ghost predicate Counted(p: Pipeline, last: nat) {
    && p.nReceived == |p.delivered|
    && (forall i :: 0 <= i < |p.delivered| ==> p.delivered[i] <= last)
    && (forall i, j :: 0 <= i < j < |p.delivered| ==> p.delivered[i] != p.delivered[j])
    && (p.hasFinal ==> p.last == last)
    && (p.nReceived > 0 ==> p.hasFinal)
  }

  /** Every place is in use, holds its own segment, and runs only for what is not yet delivered. */
  ghost predicate Window(p: Pipeline, size: nat) {
    && |p.slots| == size
    && (forall i :: 0 <= i < size ==> p.slots[i].Slot? && p.slots[i].segmentNo < p.nextSegmentNo)
    && (forall i, j :: 0 <= i < j < size ==> p.slots[i].segmentNo != p.slots[j].segmentNo)
    && (forall i :: 0 <= i < size && p.slots[i].status == Running ==> p.slots[i].segmentNo !in p.delivered)
    && (forall k :: k in p.delivered ==> k < p.nextSegmentNo)
  }

  /** Before the length is known: the first segments, in place; the first still runs; whatever
      does not run failed or was cancelled after an earlier failure. */
  ghost predicate Opening(p: Pipeline, size: nat)
    requires Window(p, size)
  {
    && p.nextSegmentNo == size && p.delivered == []
    && (forall i :: 0 <= i < size ==> p.slots[i].segmentNo == i)
    && (size > 0 ==> p.slots[0].status == Running)
    && (forall i :: 0 <= i < size && p.slots[i].status == Stopped ==>
          exists j :: 0 <= j < i && p.slots[j].status == Failed)
    && (p.hasFailure <==> exists i :: 0 <= i < size && p.slots[i].status == Failed)
  }

  /** Afterwards: nothing runs beyond the end, nothing within it failed, every requested
      segment within it is delivered or running, and while segments remain to be requested
      every place runs. */
  ghost predicate Known(p: Pipeline, size: nat, last: nat)
    requires Window(p, size)
  {
    && (forall i :: 0 <= i < size && p.slots[i].segmentNo > last ==> p.slots[i].status != Running)
    && (forall k :: 0 <= k < p.nextSegmentNo && k <= last ==>
          k in p.delivered || exists i :: 0 <= i < size && p.slots[i] == Slot(Running, k))
    && (p.nextSegmentNo <= last && !AllReceived(p) ==> forall i :: 0 <= i < size ==> p.slots[i].status == Running)
    && (p.hasFailure ==> AllReceived(p))
  }

  ghost predicate Inv(p: Pipeline, size: nat, last: nat) {
    && Counted(p, last)
    && (p.stopping ==> p.slots == [])
    && (!p.stopping ==>
          && Window(p, size)
          && (!p.hasFinal ==> Opening(p, size))
          && (p.hasFinal ==> Known(p, size, last)))
  }

  function Upto(last: nat): (s: set<nat>)
    ensures |s| == last + 1
    ensures forall k :: k in s <==> 0 <= k <= last
    decreases last
  {
    if last == 0 then {0} else Upto(last - 1) + {last}
  }

  lemma {:induction false} DistinctElements(list: seq<nat>)
    requires forall i, j :: 0 <= i < j < |list| ==> list[i] != list[j]
    ensures |Elements(list)| == |list|
  {
    if list == [] {
      assert Elements(list) == {};
    } else {
      var front, x := list[..|list| - 1], list[|list| - 1];
      DistinctElements(front);
      assert Elements(list) == Elements(front) + {x};
      assert x !in front;
    }
  }

  /** Complete means every segment of the content was delivered, and conversely. */
  lemma CompleteIffAll(p: Pipeline, last: nat)
    requires Counted(p, last)
    ensures AllReceived(p) <==> forall k :: 0 <= k <= last ==> k in p.delivered
    ensures |p.delivered| <= last + 1
  {
    var got := Elements(p.delivered);
    DistinctElements(p.delivered);
    SubsetSize(got, Upto(last));
    if forall k :: 0 <= k <= last ==> k in p.delivered {
      SubsetSize(Upto(last), got);
    }
    if AllReceived(p) {
      forall k | 0 <= k <= last ensures k in p.delivered {
        assert k in got;
      }
    }
  }

  // ----- Steps keep the invariant -----

  /** After `n` places are filled, nothing else having happened yet. */
  ghost predicate Starting(p: Pipeline, size: nat, n: nat) {
    && |p.slots| == size && n <= size && p.nextSegmentNo == n
    && !p.stopping && !p.hasFinal && !p.hasFailure && p.nReceived == 0 && p.delivered == []
    && (forall i :: 0 <= i < n ==> p.slots[i] == Slot(Running, i))
    && (forall i :: n <= i < size ==> p.slots[i] == Empty)
  }

  lemma {:induction false} StartsOpen(p: Pipeline, size: nat, n: nat)
    requires Starting(p, size, n)
    ensures Starting(RunFrom(p, n), size, size)
    decreases size - n
  {
    if n < size {
      StartsOpen(FetchNext(p, n).0, size, n + 1);
    }
  }

  lemma StartInv(size: nat, last: nat)
    ensures Inv(RunFrom(Fresh(size), 0), size, last)
  {
    StartsOpen(Fresh(size), size, 0);
  }

  lemma CancelKeepsInv(p: Pipeline, size: nat, last: nat)
    requires Inv(p, size, last)
    ensures Inv(Cancel(p), size, last) && Inv(OnFailure(p), size, last)
  {
  }

  /** Stopping fetchers, by whatever cause, keeps the window in order. */
  ghost predicate Quieter(slots: seq<Slot>, after: seq<Slot>) {
    && |after| == |slots|
    && forall i :: 0 <= i < |slots| && slots[i].Slot? ==>
         && after[i].Slot? && after[i].segmentNo == slots[i].segmentNo
         && (after[i].status == Running ==> slots[i].status == Running)
         && (after[i].status == Failed <== slots[i].status == Failed)
  }

  lemma WindowQuieter(p: Pipeline, q: Pipeline, size: nat)
    requires Window(p, size) && Quieter(p.slots, q.slots)
    requires q.nextSegmentNo == p.nextSegmentNo && q.delivered == p.delivered
    ensures Window(q, size)
  {
  }

  lemma FailOpening(p: Pipeline, i: nat, size: nat)
    requires Window(p, size) && Opening(p, size) && 0 < i < size && p.slots[i].status == Running
    ensures var q := Finish(p, i, Failed).(slots := CancelBeyond(Finish(p, i, Failed).slots, i), hasFailure := true);
      Window(q, size) && Opening(q, size)
  {
    var q := Finish(p, i, Failed).(slots := CancelBeyond(Finish(p, i, Failed).slots, i), hasFailure := true);
    WindowQuieter(p, q, size);
    assert q.slots[0] == p.slots[0] && q.slots[i].status == Failed;
    forall j | 0 <= j < size && q.slots[j].status == Stopped
      ensures exists k :: 0 <= k < j && q.slots[k].status == Failed
    {
      if p.slots[j].status == Stopped {
        var k :| 0 <= k < j && p.slots[k].status == Failed;
        assert q.slots[k].status == Failed;
      }
    }
  }

  lemma FailKeepsInv(p: Pipeline, i: nat, size: nat, last: nat)
    requires Inv(p, size, last) && !p.stopping && RunningAt(p, i)
    ensures Inv(FailStep(p, i), size, last)
  {
    if !p.hasFinal {
      var q := Finish(p, i, Failed);
      var slots := CancelBeyond(q.slots, i);
      if SomeRunningUpTo(slots, i) {
        assert i != 0;
        FailOpening(p, i, size);
      }
    }
  }

  /** Among the first segments, those within the content still run unless one of them failed. */
  lemma OpeningWithin(p: Pipeline, size: nat, last: nat, i: nat)
    requires Window(p, size) && Opening(p, size) && i < size && i <= last
    requires !SomeFailedWithin(p.slots, last)
    ensures p.slots[i].status == Running
  {
  }

  /** The packet that names the last segment, in place `i`, leaves what is within the
      content running, and nothing beyond it. */
  lemma LearnKnown(p: Pipeline, i: nat, size: nat, last: nat)
    requires Counted(p, last) && Window(p, size) && Opening(p, size) && !p.hasFinal && !p.stopping
    requires RunningAt(p, i) && p.slots[i].segmentNo <= last
    requires !SomeFailedWithin(p.slots, last)
    ensures var q := Learn(Finish(p, i, Stopped), Some(last));
      && !q.stopping && q.hasFinal && q.last == last && Window(q, size)
      && q.delivered == [] && q.nextSegmentNo == size && q.hasFailure == p.hasFailure && q.nReceived == 0
      && (forall j :: 0 <= j < size && j != i && j <= last ==> q.slots[j] == Slot(Running, j))
      && (forall j :: 0 <= j < size && j > last ==> q.slots[j].status != Running)
      && q.slots[i] == Slot(Stopped, i)
  {
    var f := Finish(p, i, Stopped);
    assert !SomeFailedWithin(f.slots, last);
    var q := Learn(f, Some(last));
    WindowQuieter(p, q, size);
    forall j | 0 <= j < size && j != i && j <= last ensures q.slots[j] == Slot(Running, j) {
      OpeningWithin(p, size, last, j);
    }
  }

  /** Delivering a segment of a place that stopped, then asking for the next one, keeps the
      invariant. */
  ghost predicate Between(q: Pipeline, i: nat, size: nat, last: nat) {
    && Counted(q, last) && Window(q, size) && !q.stopping && q.hasFinal
    && i < size && q.slots[i].status == Stopped && q.slots[i].segmentNo <= last
    && q.slots[i].segmentNo !in q.delivered
    && (forall j :: 0 <= j < size && q.slots[j].segmentNo > last ==> q.slots[j].status != Running)
    && (forall k :: 0 <= k < q.nextSegmentNo && k <= last && k != q.slots[i].segmentNo ==>
          k in q.delivered || exists j :: 0 <= j < size && q.slots[j] == Slot(Running, k))
    && (q.nextSegmentNo <= last ==> forall j :: 0 <= j < size && j != i ==> q.slots[j].status == Running)
  }

  lemma DeliverCounted(q: Pipeline, i: nat, size: nat, last: nat)
    requires Between(q, i, size, last)
    ensures var r := Deliver(q, q.slots[i].segmentNo); Counted(r, last) && Window(r, size)
  {
    var r := Deliver(q, q.slots[i].segmentNo);
    forall j | 0 <= j < size && r.slots[j].status == Running ensures r.slots[j].segmentNo !in r.delivered {
      assert j != i;
    }
  }

  lemma RefillKeepsInv(q: Pipeline, i: nat, size: nat, last: nat)
    requires Between(q, i, size, last)
    ensures var r := Deliver(q, q.slots[i].segmentNo);
      Inv(if AllReceived(r) then r else FetchNext(r, i).0, size, last)
  {
    var k := q.slots[i].segmentNo;
    var r := Deliver(q, k);
    DeliverCounted(q, i, size, last);
    RequestedKept(q, i, size, last);
    if AllReceived(r) {
    } else if r.hasFailure {
    } else if r.nextSegmentNo > last {
    } else {
      RefillPlace(r, i, size, last);
    }
  }

  lemma RequestedKept(q: Pipeline, i: nat, size: nat, last: nat)
    requires Between(q, i, size, last)
    ensures var r := Deliver(q, q.slots[i].segmentNo);
      forall k :: 0 <= k < r.nextSegmentNo && k <= last ==>
        k in r.delivered || exists j :: 0 <= j < size && r.slots[j] == Slot(Running, k)
  {
    var r := Deliver(q, q.slots[i].segmentNo);
    assert r.delivered[|q.delivered|] == q.slots[i].segmentNo;
    forall k | 0 <= k < r.nextSegmentNo && k <= last && k !in r.delivered
      ensures exists j :: 0 <= j < size && r.slots[j] == Slot(Running, k)
    {
      assert k !in q.delivered && k != q.slots[i].segmentNo;
    }
  }

  lemma RefillPlace(r: Pipeline, i: nat, size: nat, last: nat)
    requires Counted(r, last) && Window(r, size) && !r.stopping && r.hasFinal && !r.hasFailure
    requires i < size && r.slots[i].status == Stopped && r.nextSegmentNo <= last
    requires forall j :: 0 <= j < size && j != i ==> r.slots[j].status == Running
    requires forall k :: 0 <= k < r.nextSegmentNo && k <= last ==>
      k in r.delivered || exists j :: 0 <= j < size && r.slots[j] == Slot(Running, k)
    ensures Inv(FetchNext(r, i).0, size, last)
  {
    var t := FetchNext(r, i).0;
    assert t.slots[i] == Slot(Running, r.nextSegmentNo);
    forall k | 0 <= k < t.nextSegmentNo && k <= last && k !in t.delivered
      ensures exists j :: 0 <= j < size && t.slots[j] == Slot(Running, k)
    {
      if k < r.nextSegmentNo {
        var j :| 0 <= j < size && r.slots[j] == Slot(Running, k);
        assert t.slots[j] == Slot(Running, k);
      }
    }
  }

  lemma DataKeepsInv(p: Pipeline, i: nat, size: nat, last: nat)
    requires Inv(p, size, last) && !p.stopping && RunningAt(p, i) && p.slots[i].segmentNo <= last
    ensures Inv(DataStep(p, i, Some(last)), size, last)
  {
    var f := Finish(p, i, Stopped);
    var q := Learn(f, Some(last));
    if p.hasFinal {
      KnownBetween(p, i, size, last);
      RefillKeepsInv(f, i, size, last);
    } else if SomeFailedWithin(p.slots, last) {
      FailedStays(p, i, last);
    } else {
      LearnKnown(p, i, size, last);
      OpeningBetween(q, i, size, last);
      RefillKeepsInv(q, i, size, last);
    }
  }

  lemma FailedStays(p: Pipeline, i: nat, last: nat)
    requires RunningAt(p, i) && SomeFailedWithin(p.slots, last)
    ensures SomeFailedWithin(Finish(p, i, Stopped).slots, last)
  {
    var j :| 0 <= j < |p.slots| && p.slots[j].Slot? && p.slots[j].segmentNo <= last && p.slots[j].status == Failed;
    assert Finish(p, i, Stopped).slots[j] == p.slots[j];
  }

  lemma OpeningBetween(q: Pipeline, i: nat, size: nat, last: nat)
    requires Window(q, size) && !q.stopping && q.hasFinal && q.last == last
    requires q.delivered == [] && q.nReceived == 0 && q.nextSegmentNo == size
    requires i < size && i <= last && q.slots[i] == Slot(Stopped, i)
    requires forall j :: 0 <= j < size && j != i && j <= last ==> q.slots[j] == Slot(Running, j)
    requires forall j :: 0 <= j < size && j > last ==> q.slots[j].status != Running
    ensures Between(q, i, size, last)
  {
  }

  lemma KnownBetween(p: Pipeline, i: nat, size: nat, last: nat)
    requires Inv(p, size, last) && !p.stopping && p.hasFinal && RunningAt(p, i) && p.slots[i].segmentNo <= last
    ensures Between(Finish(p, i, Stopped), i, size, last)
    ensures !AllReceived(p) && !p.hasFailure
  {
    var f := Finish(p, i, Stopped);
    CompleteIffAll(p, last);
    assert p.slots[i].segmentNo !in p.delivered;
    WindowQuieter(p, f, size);
    forall k | 0 <= k < f.nextSegmentNo && k <= last && k != f.slots[i].segmentNo && k !in f.delivered
      ensures exists j :: 0 <= j < size && f.slots[j] == Slot(Running, k)
    {
      var j :| 0 <= j < size && p.slots[j] == Slot(Running, k);
      assert f.slots[j] == Slot(Running, k);
    }
  }

  lemma StepKeepsInv(p: Pipeline, size: nat, last: nat, ev: Event)
    requires Inv(p, size, last) && Enabled(p, last, ev)
    ensures Inv(Step(p, last, ev), size, last)
  {
    match ev
    case DataArrives(i) => DataKeepsInv(p, i, size, last);
    case FetchFails(i) => FailKeepsInv(p, i, size, last);
    case CancelledByUser => CancelKeepsInv(p, size, last);
  }

  // ----- Whole runs -----

  /** From the start of a run: events that are not enabled cannot happen and are skipped. */
  function Run(size: nat, last: nat, evs: seq<Event>): Pipeline {
    if evs == [] then RunFrom(Fresh(size), 0)
    else
      var p, ev := Run(size, last, evs[..|evs| - 1]), evs[|evs| - 1];
      if Enabled(p, last, ev) then Step(p, last, ev) else p
  }

  lemma {:induction false} ReachableInv(size: nat, last: nat, evs: seq<Event>)
    ensures Inv(Run(size, last, evs), size, last)
  {
    if evs == [] {
      StartInv(size, last);
    } else {
      var p, ev := Run(size, last, evs[..|evs| - 1]), evs[|evs| - 1];
      ReachableInv(size, last, evs[..|evs| - 1]);
      if Enabled(p, last, ev) {
        StepKeepsInv(p, size, last, ev);
      }
    }
  }

  /** For any window and any order of events: the segments passed on are distinct and within
      the content, and the transfer counts as complete exactly when all of them were. */
  lemma Counting(size: nat, last: nat, evs: seq<Event>)
    ensures var p := Run(size, last, evs);
      && (forall i :: 0 <= i < |p.delivered| ==> p.delivered[i] <= last)
      && (forall i, j :: 0 <= i < j < |p.delivered| ==> p.delivered[i] != p.delivered[j])
      && (AllReceived(p) <==> forall k :: 0 <= k <= last ==> k in p.delivered)
  {
    ReachableInv(size, last, evs);
    CompleteIffAll(Run(size, last, evs), last);
  }

  /** The pipeline never stalls: it has stopped, or is complete, or some fetcher still runs
      on a segment of the content. */
  lemma NeverStalls(size: nat, last: nat, evs: seq<Event>)
    requires size >= 1
    ensures var p := Run(size, last, evs);
      p.stopping || AllReceived(p) ||
      exists i :: 0 <= i < |p.slots| && RunningAt(p, i) && p.slots[i].segmentNo <= last
  {
    var p := Run(size, last, evs);
    ReachableInv(size, last, evs);
    if !p.stopping && !AllReceived(p) {
      if !p.hasFinal {
        assert RunningAt(p, 0);
      } else if p.nextSegmentNo <= last {
        assert RunningAt(p, 0) && p.slots[0].segmentNo < p.nextSegmentNo;
      } else {
        CompleteIffAll(p, last);
        var k :| 0 <= k <= last && k !in p.delivered;
        var i :| 0 <= i < size && p.slots[i] == Slot(Running, k);
        assert RunningAt(p, i);
      }
    }
  }

  /** Once stopped, nothing is passed on any more. */
  lemma {:induction false} StoppedIsFinal(size: nat, last: nat, evs: seq<Event>, k: nat)
    requires k <= |evs| && Run(size, last, evs[..k]).stopping
    ensures Run(size, last, evs) == Run(size, last, evs[..k])
    decreases |evs| - k
  {
    if k == |evs| {
      assert evs[..k] == evs;
    } else {
      assert evs[..k + 1][..k] == evs[..k];
      assert Run(size, last, evs[..k + 1]) == Run(size, last, evs[..k]);
      StoppedIsFinal(size, last, evs, k + 1);
    }
  }

  /** A failed fetch is held against the pipeline even when it was for a segment the content
      does not have: the first packet survives an earlier failure exactly when it is the
      whole content. */
  lemma FirstPacketSurvivesIff(size: nat, last: nat, p: Pipeline, i: nat)
    requires Inv(p, size, last) && Enabled(p, last, DataArrives(i)) && !p.hasFinal
    ensures DataStep(p, i, Some(last)).stopping <==> p.hasFailure && last > 0
  {
    if SomeFailedWithin(p.slots, last) {
      FailedStays(p, i, last);
      var j :| 0 <= j < |p.slots| && p.slots[j].Slot? && p.slots[j].segmentNo <= last && p.slots[j].status == Failed;
      assert p.hasFailure && j != 0;
    } else {
      LearnKnown(p, i, size, last);
    }
  }

  /** So failures beyond the end alone fail the pipeline, although nothing within the content
      failed: the first packet is passed on, the failure callback follows. */
  lemma FailedBeyondEnd(p: Pipeline, i: nat, size: nat, last: nat)
    requires Inv(p, size, last) && Enabled(p, last, DataArrives(i)) && !p.hasFinal && p.hasFailure
    requires last > 0 && !SomeFailedWithin(p.slots, last)
    ensures var q := DataStep(p, i, Some(last));
      && q.stopping && q.failures == p.failures + 1
      && q.delivered == [p.slots[i].segmentNo] && !AllReceived(q)
  {
    LearnKnown(p, i, size, last);
  }

  lemma ThirdFetchFails()
    ensures var p := Run(3, 1, [FetchFails(2)]);
      && !p.stopping && p.hasFailure && !p.hasFinal
      && p.slots == [Slot(Running, 0), Slot(Running, 1), Slot(Failed, 2)]
  {
    assert [FetchFails(2)][..0] == [];
    var start := Run(3, 1, []);
    StartsOpen(Fresh(3), 3, 0);
    var failed := Finish(start, 2, Failed);
    assert failed.slots == [Slot(Running, 0), Slot(Running, 1), Slot(Failed, 2)];
    assert CancelBeyond(failed.slots, 2) == failed.slots;
    assert failed.slots[0] == Slot(Running, 0);
  }

  /** A run that gets there: a content of two segments, fetched through a window of three.
      Only the fetch of segment 2, which does not exist, fails; the first packet then fails
      the pipeline while segment 1 is still being fetched. */
  lemma FailureBeyondEnd()
    ensures var p, q := Run(3, 1, [FetchFails(2)]), Run(3, 1, [FetchFails(2), DataArrives(0)]);
      && !p.stopping && p.slots == [Slot(Running, 0), Slot(Running, 1), Slot(Failed, 2)]
      && q.stopping && q.failures == p.failures + 1 && q.delivered == [0] && !AllReceived(q)
  {
    var evs := [FetchFails(2), DataArrives(0)];
    assert evs[..1] == [FetchFails(2)];
    ThirdFetchFails();
    ReachableInv(3, 1, evs[..1]);
    FailedBeyondEnd(Run(3, 1, evs[..1]), 0, 3, 1);
  }

  // ----- When a pipeline stops, and what it reports -----

  /** A packet stops the pipeline exactly when it is the first, an earlier fetch failed, and
      it is not the whole content. */
  lemma DataStopsIff(p: Pipeline, i: nat, size: nat, last: nat)
    requires Inv(p, size, last) && Enabled(p, last, DataArrives(i))
    ensures DataStep(p, i, Some(last)).stopping <==> !p.hasFinal && p.hasFailure && last > 0
  {
    if p.hasFinal {
      KnownBetween(p, i, size, last);
    } else {
      FirstPacketSurvivesIff(size, last, p, i);
    }
  }

  /** A failure stops the pipeline exactly when the length is known, or no earlier segment is
      still being fetched. */
  lemma FailureStopsIff(p: Pipeline, i: nat, size: nat, last: nat)
    requires Inv(p, size, last) && Enabled(p, last, FetchFails(i))
    ensures FailStep(p, i).stopping <==>
            p.hasFinal || forall j :: 0 <= j < size && p.slots[j].segmentNo < p.slots[i].segmentNo ==> !RunningAt(p, j)
    ensures FailStep(p, i).stopping <==> p.hasFinal || p.slots[i].segmentNo == 0
  {
    if !p.hasFinal {
      var slots := CancelBeyond(Finish(p, i, Failed).slots, i);
      assert RunningAt(p, 0);
      if i != 0 {
        assert slots[0] == p.slots[0];
      }
    }
  }

  /** Before the length is known, a failure that does not stop the pipeline marks its place,
      cancels exactly the fetchers of later segments, and is remembered. */
  lemma FailureCancelsLater(p: Pipeline, i: nat, size: nat, last: nat, j: nat)
    requires Inv(p, size, last) && Enabled(p, last, FetchFails(i)) && !FailStep(p, i).stopping && j < size
    ensures var q := FailStep(p, i);
      && q.hasFailure && |q.slots| == size && q.delivered == p.delivered && q.nextSegmentNo == p.nextSegmentNo
      && q.slots[j] == (if j == i then Slot(Failed, p.slots[i].segmentNo)
                        else if p.slots[j].segmentNo > p.slots[i].segmentNo && p.slots[j].status == Running
                        then Slot(Stopped, p.slots[j].segmentNo) else p.slots[j])
  {
    FailureStopsIff(p, i, size, last);
  }

  /** Did the user's cancellation stop the pipeline? */
  function UserStopped(size: nat, last: nat, evs: seq<Event>): bool {
    if evs == [] then false
    else
      var before, ev := evs[..|evs| - 1], evs[|evs| - 1];
      UserStopped(size, last, before) || (ev.CancelledByUser? && !Run(size, last, before).stopping)
  }

  /** Stopped means either cancelled by the user, with no failure reported, or one failure
      reported, by an incomplete pipeline. */
  ghost predicate Accounted(p: Pipeline, userStopped: bool) {
    && (userStopped ==> p.stopping)
    && p.failures == (if p.stopping && !userStopped then 1 else 0)
    && (p.stopping && !userStopped ==> !AllReceived(p))
  }

  lemma StepAccounted(p: Pipeline, size: nat, last: nat, ev: Event, userStopped: bool)
    requires Inv(p, size, last) && Enabled(p, last, ev) && Accounted(p, userStopped)
    ensures Accounted(Step(p, last, ev), userStopped || (ev.CancelledByUser? && !p.stopping))
  {
    CompleteIffAll(p, last);
  }

  /** In every run: a pipeline that stopped without being cancelled has made the failure
      callback exactly once, and is incomplete; any other has made none. */
  lemma {:induction false} FailureExactly(size: nat, last: nat, evs: seq<Event>)
    ensures Accounted(Run(size, last, evs), UserStopped(size, last, evs))
  {
    if evs == [] {
      StartsOpen(Fresh(size), size, 0);
      NoFailureAtStart(Fresh(size), size, 0);
    } else {
      var before, ev := evs[..|evs| - 1], evs[|evs| - 1];
      var p := Run(size, last, before);
      FailureExactly(size, last, before);
      ReachableInv(size, last, before);
      if Enabled(p, last, ev) {
        StepAccounted(p, size, last, ev, UserStopped(size, last, before));
      }
    }
  }

  lemma {:induction false} NoFailureAtStart(p: Pipeline, size: nat, n: nat)
    requires Starting(p, size, n)
    ensures RunFrom(p, n).failures == p.failures
    decreases size - n
  {
    if n < size {
      NoFailureAtStart(FetchNext(p, n).0, size, n + 1);
    }
  }

  // ----- How long a run can last -----

  /** How many fetcher reports took effect: cancellations aside, events that were enabled. */
  function Reports(size: nat, last: nat, evs: seq<Event>): nat {
    if evs == [] then 0
    else
      var before, ev := evs[..|evs| - 1], evs[|evs| - 1];
      Reports(size, last, before) + (if !ev.CancelledByUser? && Enabled(Run(size, last, before), last, ev) then 1 else 0)
  }

  function FailedPlaces(slots: seq<Slot>): set<nat> {
    set i | 0 <= i < |slots| && slots[i].Slot? && slots[i].status == Failed
  }

  /** What bounds the reports so far: failures until the length is known, then deliveries,
      then nothing more. */
  function ReportBound(p: Pipeline, size: nat, last: nat): nat {
    if p.stopping then last + size + 2
    else if p.hasFinal then |p.delivered| + size
    else |FailedPlaces(p.slots)|
  }

  lemma PlacesBound(slots: seq<Slot>, free: nat)
    requires free < |slots| && slots[free].Slot? && slots[free].status != Failed
    ensures |FailedPlaces(slots)| < |slots|
  {
    var others := Upto(|slots| - 1) - {free};
    assert FailedPlaces(slots) <= others;
    SubsetSize(FailedPlaces(slots), others);
  }

  lemma BoundIsBounded(p: Pipeline, size: nat, last: nat)
    requires Inv(p, size, last)
    ensures ReportBound(p, size, last) <= last + size + 2
    ensures !p.stopping ==> ReportBound(p, size, last) <= last + size + 1
  {
    CompleteIffAll(p, last);
    if !p.stopping && !p.hasFinal && size > 0 {
      PlacesBound(p.slots, 0);
    }
  }

  lemma OneMoreFailed(p: Pipeline, i: nat, k: nat)
    requires RunningAt(p, i)
    ensures |FailedPlaces(CancelBeyond(Finish(p, i, Failed).slots, k))| == |FailedPlaces(p.slots)| + 1
  {
    var slots := CancelBeyond(Finish(p, i, Failed).slots, k);
    var before, after := FailedPlaces(p.slots), FailedPlaces(slots);
    assert |slots| == |p.slots|;
    forall j ensures j in after <==> j in before + {i} {
      if 0 <= j < |slots| && j != i {
        assert slots[j].Slot? <==> p.slots[j].Slot?;
        assert p.slots[j].Slot? ==> (slots[j].status == Failed <==> p.slots[j].status == Failed);
      }
    }
    assert after == before + {i} && i !in before;
  }

  lemma FailureReport(p: Pipeline, i: nat, size: nat, last: nat)
    requires Inv(p, size, last) && Enabled(p, last, FetchFails(i))
    ensures ReportBound(p, size, last) < ReportBound(FailStep(p, i), size, last)
  {
    BoundIsBounded(p, size, last);
    if p.hasFinal {
      CompleteIffAll(p, last);
    } else {
      OneMoreFailed(p, i, p.slots[i].segmentNo);
    }
  }

  /** What a packet does to the deliveries. */
  lemma DataProgress(p: Pipeline, i: nat, size: nat, last: nat)
    requires Inv(p, size, last) && Enabled(p, last, DataArrives(i))
    ensures var t := DataStep(p, i, Some(last));
      t.stopping || (t.hasFinal && |t.delivered| == |p.delivered| + 1)
  {
  }

  lemma DataReport(p: Pipeline, i: nat, size: nat, last: nat)
    requires Inv(p, size, last) && Enabled(p, last, DataArrives(i))
    ensures ReportBound(p, size, last) < ReportBound(DataStep(p, i, Some(last)), size, last)
  {
    CompleteIffAll(p, last);
    DataProgress(p, i, size, last);
    if !p.hasFinal {
      PlacesBound(p.slots, i);
    }
  }

  /** However its events are ordered, a pipeline takes at most as many reports as there are
      segments and places, and one more. */
  lemma {:induction false} ReportsBounded(size: nat, last: nat, evs: seq<Event>)
    ensures Reports(size, last, evs) <= ReportBound(Run(size, last, evs), size, last) <= last + size + 2
  {
    ReachableInv(size, last, evs);
    BoundIsBounded(Run(size, last, evs), size, last);
    if evs != [] {
      var before, ev := evs[..|evs| - 1], evs[|evs| - 1];
      ReportsBounded(size, last, before);
      ReachableInv(size, last, before);
      var p := Run(size, last, before);
      if Enabled(p, last, ev) {
        match ev
        case DataArrives(i) => DataReport(p, i, size, last);
        case FetchFails(i) => FailureReport(p, i, size, last);
        case CancelledByUser => assert Run(size, last, evs) == Cancel(p);
      }
    }
  }

  /** A fetcher is started for at most one segment per place and per delivery. */
  lemma {:induction false} RequestsBounded(size: nat, last: nat, evs: seq<Event>)
    ensures Run(size, last, evs).nextSegmentNo <= size + |Run(size, last, evs).delivered|
    ensures |Run(size, last, evs).delivered| <= last + 1
  {
    ReachableInv(size, last, evs);
    CompleteIffAll(Run(size, last, evs), last);
    if evs == [] {
      StartsOpen(Fresh(size), size, 0);
    } else {
      var p, ev := Run(size, last, evs[..|evs| - 1]), evs[|evs| - 1];
      RequestsBounded(size, last, evs[..|evs| - 1]);
      if Enabled(p, last, ev) {
        StepRequests(p, last, ev);
      }
    }
  }

  lemma StepRequests(p: Pipeline, last: nat, ev: Event)
    requires Enabled(p, last, ev)
    ensures var t := Step(p, last, ev);
      |t.delivered| >= |p.delivered| && t.nextSegmentNo - p.nextSegmentNo <= |t.delivered| - |p.delivered|
  {
  }
}
