/** The segment producer: cuts a block into data packets and serves them by number. */
module Producer {
  import opened Names
  import opened Tlv

  const INT_MAX := 0x7FFF_FFFF

  datatype Data = Data(segmentNo: nat, content: Bytes, finalBlock: Option<nat>)

  function Concat(parts: seq<Bytes>): Bytes {
    if parts == [] then [] else Concat(parts[..|parts| - 1]) + parts[|parts| - 1]
  }

  /** The k-th segment of a block. */
  function SegmentAt(block: Bytes, size: nat, k: nat): Bytes
    requires size >= 1 && k * size < |block|
  {
    block[k * size..if |block| - k * size < size then |block| else k * size + size]
  }

  function SegmentCount(block: Bytes, size: nat): nat
    requires size >= 1 && |block| >= 1
  {
    (|block| - 1) / size + 1
  }

  /** The count is the least number of segments that holds the block: all but the last
      are full. */
  lemma CountCovers(block: Bytes, size: nat)
    requires size >= 1 && |block| >= 1
    ensures var n := SegmentCount(block, size);
      1 <= n <= |block| && (n - 1) * size < |block| <= n * size
  {
    Division(|block| - 1, size);
  }

  lemma Division(a: nat, b: nat)
    requires b >= 1
    ensures (a / b) * b <= a < (a / b + 1) * b
    ensures a / b <= a
  {
    var q := a / b;
    assert q * b <= a < q * b + b;
    Product(q, b);
  }

  lemma Product(q: nat, b: nat)
    requires b >= 1
    ensures q <= q * b && (q + 1) * b == q * b + b
  {
  }

  lemma Monotonic(a: nat, b: nat, c: nat)
    requires a <= b
    ensures a * c <= b * c
  {
  }

  lemma SegmentFits(block: Bytes, size: nat, k: nat)
    requires size >= 1 && |block| >= 1 && k < SegmentCount(block, size)
    ensures k * size < |block|
    ensures k + 1 < SegmentCount(block, size) ==> (k + 1) * size < |block|
  {
    CountCovers(block, size);
    var n := SegmentCount(block, size);
    Monotonic(k, n - 1, size);
    if k + 1 < n {
      Monotonic(k + 1, n - 1, size);
    }
  }

  function SegmentsOf(block: Bytes, size: nat): (segments: seq<Bytes>)
    requires size >= 1 && |block| >= 1
    ensures |segments| == SegmentCount(block, size)
  {
    seq(SegmentCount(block, size), k requires 0 <= k < SegmentCount(block, size) =>
      SegmentFits(block, size, k);
      SegmentAt(block, size, k))
  }

  /** Segments are never empty and never larger than the maximum, and only the last may be
      smaller. */
  lemma SegmentSizes(block: Bytes, size: nat, k: nat)
    requires size >= 1 && |block| >= 1 && k < SegmentCount(block, size)
    ensures 1 <= |SegmentsOf(block, size)[k]| <= size
    ensures k + 1 < SegmentCount(block, size) ==> |SegmentsOf(block, size)[k]| == size
  {
    SegmentFits(block, size, k);
    if k + 1 < SegmentCount(block, size) {
      assert (k + 1) * size == k * size + size;
    }
  }

  /** Where the k-th segment starts; the end of the block after the last. */
  function Offset(block: Bytes, size: nat, k: nat): (offset: nat)
    requires size >= 1 && |block| >= 1 && k <= SegmentCount(block, size)
    ensures offset <= |block|
  {
    if k == SegmentCount(block, size) then |block| else (SegmentStart(block, size, k); k * size)
  }

  lemma SegmentBetween(block: Bytes, size: nat, k: nat)
    requires size >= 1 && |block| >= 1 && k < SegmentCount(block, size)
    ensures Offset(block, size, k) <= Offset(block, size, k + 1)
    ensures SegmentsOf(block, size)[k] == block[Offset(block, size, k)..Offset(block, size, k + 1)]
  {
    SegmentFits(block, size, k);
    CountCovers(block, size);
    assert (k + 1) * size == k * size + size;
  }

  lemma {:induction false} PrefixConcat(block: Bytes, size: nat, k: nat)
    requires size >= 1 && |block| >= 1 && k <= SegmentCount(block, size)
    ensures Concat(SegmentsOf(block, size)[..k]) == block[..Offset(block, size, k)]
  {
    var segments := SegmentsOf(block, size);
    if k == 0 {
      CountCovers(block, size);
    } else {
      PrefixConcat(block, size, k - 1);
      SegmentBetween(block, size, k - 1);
      ConcatOneMore(segments, k - 1);
      Rejoin(block, Offset(block, size, k - 1), Offset(block, size, k));
    }
  }

  lemma ConcatOneMore(parts: seq<Bytes>, k: nat)
    requires k < |parts|
    ensures Concat(parts[..k + 1]) == Concat(parts[..k]) + parts[k]
  {
    assert parts[..k + 1][..k] == parts[..k];
  }

  lemma Rejoin(block: Bytes, i: nat, j: nat)
    requires i <= j <= |block|
    ensures block[..i] + block[i..j] == block[..j]
  {
  }

  lemma SegmentStart(block: Bytes, size: nat, k: nat)
    requires size >= 1 && |block| >= 1 && k < SegmentCount(block, size)
    ensures 0 <= k * size <= |block|
  {
    SegmentFits(block, size, k);
  }

  /** Put together in order, the segments are the block. */
  lemma SegmentsRestore(block: Bytes, size: nat)
    requires size >= 1 && |block| >= 1
    ensures Concat(SegmentsOf(block, size)) == block
  {
    var segments := SegmentsOf(block, size);
    PrefixConcat(block, size, SegmentCount(block, size));
    assert segments[..SegmentCount(block, size)] == segments;
    assert block[..|block|] == block;
  }

  // ----- The range of int -----

  /** Every int the loop computes is in range: the count, and each offset and copy size. */
  ghost predicate IntsFit(block: Bytes, size: nat)
    requires size >= 1 && |block| >= 1
  {
    && SegmentCount(block, size) <= INT_MAX
    && forall k :: 0 <= k < SegmentCount(block, size) ==>
         k * size <= INT_MAX && |SegmentsOf(block, size)[k]| <= INT_MAX
  }

  /** The same, seen from the sizes: the count, the last offset and the first copy decide. */
  predicate FitsInt(length: nat, size: nat)
    requires size >= 1 && length >= 1
  {
    var last := (length - 1) / size;
    && last + 1 <= INT_MAX && last * size <= INT_MAX
    && (if length < size then length else size) <= INT_MAX
  }

  lemma FirstSegmentSize(block: Bytes, size: nat)
    requires size >= 1 && |block| >= 1
    ensures |SegmentsOf(block, size)[0]| == if |block| < size then |block| else size
  {
    CountCovers(block, size);
    SegmentFits(block, size, 0);
    assert SegmentsOf(block, size)[0] == SegmentAt(block, size, 0);
  }

  /** The sizes decide exactly whether every int of the loop fits. */
  lemma IntsFitIff(block: Bytes, size: nat)
    requires size >= 1 && |block| >= 1
    ensures IntsFit(block, size) <==> FitsInt(|block|, size)
  {
    var n := SegmentCount(block, size);
    CountCovers(block, size);
    FirstSegmentSize(block, size);
    if IntsFit(block, size) {
      assert (n - 1) * size <= INT_MAX;
      assert |SegmentsOf(block, size)[0]| <= INT_MAX;
    }
    if FitsInt(|block|, size) {
      forall k | 0 <= k < n ensures k * size <= INT_MAX && |SegmentsOf(block, size)[k]| <= INT_MAX {
        SegmentSizes(block, size, k);
        Monotonic(k, n - 1, size);
        if |block| < size {
          OnlySegment(|block|, size);
        }
      }
    }
  }

  /** What one turn of the loop needs. */
  lemma CopyFits(length: nat, size: nat, k: nat)
    requires size >= 1 && length >= 1 && k <= (length - 1) / size && FitsInt(length, size)
    ensures 0 <= k * size <= INT_MAX
    ensures (if size < length - k * size then size else length - k * size) <= INT_MAX
  {
    Monotonic(k, (length - 1) / size, size);
  }

  lemma OnlySegment(length: nat, size: nat)
    requires 1 <= length < size
    ensures (length - 1) / size == 0
  {
  }

  /** Blocks whose size is an int always fit; larger ones may. */
  lemma IntBlocksFit(length: nat, size: nat)
    requires size >= 1 && 1 <= length <= INT_MAX
    ensures FitsInt(length, size)
  {
    Division(length - 1, size);
  }

  lemma LargerBlockFits()
    ensures FitsInt(0x8000_0000, 8000) && FitsInt(0x8000_0000, 0x4000_0000)
    ensures !FitsInt(0x8000_0001, 0x4000_0000) && !FitsInt(0x8000_0000, 1)
  {
  }

  /** The packets a producer holds for a block: numbered from zero, each stamped with the
      number of the last. */
  function PacketsOf(block: Bytes, size: nat): (packets: seq<Data>)
    requires size >= 1 && |block| >= 1
    ensures |packets| == SegmentCount(block, size)
  {
    seq(SegmentCount(block, size), k requires 0 <= k < SegmentCount(block, size) =>
      Data(k, SegmentsOf(block, size)[k], Some(SegmentCount(block, size) - 1)))
  }

  class Producer {
    const maxSegmentSize: nat
    var store: seq<Data>

    /** A block's encoding is never empty; the ints of the loop must fit. */
    constructor (block: Bytes, maxSegmentSize: nat)
      requires maxSegmentSize >= 1 && |block| >= 1 && FitsInt(|block|, maxSegmentSize)
      ensures store == PacketsOf(block, maxSegmentSize)
    {
      this.maxSegmentSize := maxSegmentSize;
      store := [];
      new;
      PopulateStore(block);
    }

    /** Copies the block piece by piece through one buffer, then stamps every packet. */
    method PopulateStore(block: Bytes)
      requires maxSegmentSize >= 1 && |block| >= 1 && FitsInt(|block|, maxSegmentSize) && store == []
      modifies this`store
      ensures store == PacketsOf(block, maxSegmentSize)
    {
      var buffer := new Byte[maxSegmentSize](_ => 0);
      var total := (|block| - 1) / maxSegmentSize + 1;
      CountCovers(block, maxSegmentSize);
      assert total <= INT_MAX;
      var count := 0;
      while count < total
        invariant 0 <= count <= total == SegmentCount(block, maxSegmentSize)
        invariant |store| == count
        invariant forall k :: 0 <= k < count ==> store[k] == Data(k, SegmentsOf(block, maxSegmentSize)[k], None)
      {
        SegmentFits(block, maxSegmentSize, count);
        CopyFits(|block|, maxSegmentSize, count);
        var copyOffset := count * maxSegmentSize;
        count := count + 1;
        var copySize := if maxSegmentSize < |block| - copyOffset then maxSegmentSize else |block| - copyOffset;
        assert copyOffset <= INT_MAX && copySize <= INT_MAX;
        forall i | 0 <= i < copySize {
          buffer[i] := block[copyOffset + i];
        }
        assert buffer[..copySize] == block[copyOffset..copyOffset + copySize];
        store := store + [Data(|store|, buffer[..copySize], None)];
      }
      StampFinalBlock();
      assert store == PacketsOf(block, maxSegmentSize);
    }

    method StampFinalBlock()
      requires |store| > 0
      modifies this`store
      ensures |store| == |old(store)|
      ensures forall k :: 0 <= k < |store| ==> store[k] == old(store)[k].(finalBlock := Some(|store| - 1))
    {
      var finalBlockId := |store| - 1;
      for k := 0 to |store|
        invariant |store| == |old(store)|
        invariant forall j :: 0 <= j < k ==> store[j] == old(store)[j].(finalBlock := Some(finalBlockId))
        invariant forall j :: k <= j < |store| ==> store[j] == old(store)[j]
      {
        store := store[k := store[k].(finalBlock := Some(finalBlockId))];
      }
    }

    /** The packet an Interest is answered with; None is a network nack. An Interest that
        names no segment gets the first packet when that matches. */
    method ProcessSegmentInterest(segmentNo: Option<nat>, matchesFirst: bool) returns (data: Option<Data>)
      requires |store| > 0
      ensures segmentNo.Some? ==> data == if segmentNo.value < |store| then Some(store[segmentNo.value]) else None
      ensures segmentNo.None? ==> data == if matchesFirst then Some(store[0]) else None
    {
      data := None;
      if segmentNo.Some? {
        if segmentNo.value < |store| {
          data := Some(store[segmentNo.value]);
        }
      } else if matchesFirst {
        data := Some(store[0]);
      }
    }
  }
}
