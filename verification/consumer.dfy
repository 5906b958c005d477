/** The consumer of a segmented transfer: buffers segments that arrive early and writes
    them out in order. */
module Consumer {
  import opened Names
  import opened Tlv
  import opened Producer

  /** Segments waiting, the number of the next one to write, what was written, and the blocks
      handed to the finish callback. */
  datatype Reassembly = Reassembly(buffered: map<nat, Bytes>, next: nat, output: Bytes, finished: seq<Bytes>)

  const START := Reassembly(map[], 0, [], [])

  /** The first buffered segment is the next one to write. */
  predicate FrontReady(buffered: map<nat, Bytes>, next: nat) {
    next in buffered && forall k: nat :: k in buffered ==> next <= k
  }

  function Flush(c: Reassembly): Reassembly
    decreases |c.buffered|
  {
    if FrontReady(c.buffered, c.next) then
      SmallerWithout(c.buffered, c.next);
      Flush(c.(buffered := c.buffered - {c.next}, next := c.next + 1, output := c.output + c.buffered[c.next]))
    else c
  }

  lemma SmallerWithout(m: map<nat, Bytes>, k: nat)
    requires k in m
    ensures |m - {k}| == |m| - 1
  {
    assert (m - {k}).Keys == m.Keys - {k};
  }

  /** A validated segment arrives; `complete` is what the pipeline reports afterwards. */
  function Receive(c: Reassembly, segmentNo: nat, content: Bytes, complete: bool): Reassembly {
    var f := Flush(c.(buffered := c.buffered[segmentNo := content]));
    if complete then f.(finished := f.finished + [f.output]) else f
  }

  /** What was received is written or buffered, and what is written is a prefix of the whole. */
  ghost predicate Assembles(c: Reassembly, segments: seq<Bytes>, received: set<nat>) {
    && c.next <= |segments|
    && (forall k: nat :: k in received <==> k < c.next || k in c.buffered)
    && (forall k: nat :: k in c.buffered ==> c.next <= k < |segments| && c.buffered[k] == segments[k])
    && c.output == Concat(segments[..c.next])
  }

  /** ... and nothing that could be written is left waiting. */
  ghost predicate Settled(c: Reassembly, segments: seq<Bytes>, received: set<nat>) {
    Assembles(c, segments, received) && c.next !in c.buffered
  }

  lemma {:induction false} FlushSettles(c: Reassembly, segments: seq<Bytes>, received: set<nat>)
    requires Assembles(c, segments, received)
    ensures Settled(Flush(c), segments, received)
    ensures Flush(c).finished == c.finished
    decreases |c.buffered|
  {
    if FrontReady(c.buffered, c.next) {
      SmallerWithout(c.buffered, c.next);
      ConcatOneMore(segments, c.next);
      FlushSettles(c.(buffered := c.buffered - {c.next}, next := c.next + 1, output := c.output + c.buffered[c.next]),
                   segments, received);
    }
  }

  /** A segment not received before keeps the reassembly faithful, whatever its number. */
  lemma ReceiveSettles(c: Reassembly, segments: seq<Bytes>, received: set<nat>, k: nat, complete: bool)
    requires Settled(c, segments, received) && k < |segments| && k !in received
    ensures var d := Receive(c, k, segments[k], complete);
      && Settled(d, segments, received + {k})
      && d.finished == c.finished + (if complete then [d.output] else [])
  {
    FlushSettles(c.(buffered := c.buffered[k := segments[k]]), segments, received + {k});
  }

  /** Once every segment is in, everything is written. */
  lemma AllWritten(c: Reassembly, segments: seq<Bytes>, received: set<nat>)
    requires Settled(c, segments, received)
    requires forall k :: 0 <= k < |segments| ==> k in received
    ensures c.output == Concat(segments) && c.next == |segments| && c.buffered == map[]
  {
    assert c.next < |segments| ==> c.next in received;
    assert segments[..|segments|] == segments;
  }

  class Consumer {
    var bufferedData: map<nat, Bytes>
    var nextToPrint: nat
    var outputBuffer: Bytes
    var finished: seq<Bytes>

    constructor ()
      ensures Abs() == START
    {
      bufferedData, nextToPrint, outputBuffer, finished := map[], 0, [], [];
    }

    function Abs(): Reassembly
      reads this
    {
      Reassembly(bufferedData, nextToPrint, outputBuffer, finished)
    }

    /** False when the packet fails validation or is a nack by its content type, for which
        the source throws; such a packet leaves no trace. */
    method HandleData(segmentNo: nat, content: Bytes, complete: bool, valid: bool, nack: bool) returns (ok: bool)
      modifies this
      ensures ok <==> valid && !nack
      ensures Abs() == if ok then Receive(old(Abs()), segmentNo, content, complete) else old(Abs())
    {
      ok := valid && !nack;
      if !ok {
        return;
      }
      bufferedData := bufferedData[segmentNo := content];
      WriteInOrderData(complete);
    }

    method WriteInOrderData(complete: bool)
      modifies this
      ensures var f := Flush(old(Abs()));
        Abs() == if complete then f.(finished := f.finished + [f.output]) else f
    {
      while FrontReady(bufferedData, nextToPrint)
        invariant Flush(Abs()) == Flush(old(Abs()))
        decreases |bufferedData|
      {
        SmallerWithout(bufferedData, nextToPrint);
        outputBuffer := outputBuffer + bufferedData[nextToPrint];
        bufferedData := bufferedData - {nextToPrint};
        nextToPrint := nextToPrint + 1;
      }
      if complete {
        finished := finished + [outputBuffer];
      }
    }
  }
}
