/** The in-memory storage, and the engine's reads and writes of edge states through it: on
    stored octets they do what the engine does on the typed store. */
module Storage {
  import opened Names
  import opened Tlv
  import opened DagSpec
  import opened Codec

  class LedgerMemory {
    var list: map<Name, Bytes>

    constructor ()
      ensures list == map[]
    {
      list := map[];
    }

    /** Refuses to overwrite. */
    method AddBlock(name: Name, block: Bytes) returns (added: bool)
      modifies this
      ensures added <==> name !in old(list)
      ensures list == if added then old(list)[name := block] else old(list)
    {
      if name in list {
        return false;
      }
      list := list[name := block];
      added := true;
    }

    method GetBlock(name: Name) returns (block: Option<Bytes>)
      ensures block == if name in list then Some(list[name]) else None
    {
      if name !in list {
        return None;
      }
      block := Some(list[name]);
    }

    /** Refuses to delete what is not there. */
    method DeleteBlock(name: Name) returns (deleted: bool)
      modifies this
      ensures deleted <==> name in old(list)
      ensures list == old(list) - {name}
    {
      if name !in list {
        assert list == list - {name};
        return false;
      }
      list := list - {name};
      deleted := true;
    }
  }

  // ----- Edge states through storage -----

  /** A state made on the spot: its record has no name yet. */
  function Constructed(n: Name, created: Bytes, interlocked: Bytes): WireState {
    WireState(n, StatusCode(INITIALIZED), Record([], GENERIC_RECORD, [], []), {}, created, interlocked)
  }

  ghost function BlockOf(w: WireState): Bytes {
    Close(EDGE_STATE_TYPE, EdgeElements(w))
  }

  /** Reads a state, or stores a pending one. Octets that do not decode are taken for a
      missing state, which storage then refuses to add; None is that failure. */
  method GetOrConstruct(memory: LedgerMemory, n: Name, created: Bytes, interlocked: Bytes)
    returns (state: Option<WireState>)
    modifies memory
    ensures n in old(memory.list) ==>
      memory.list == old(memory.list) && state == EdgeStateOf(old(memory.list)[n])
    ensures n !in old(memory.list) ==> var made := Constructed(n, created, interlocked);
      memory.list == old(memory.list)[n := BlockOf(made)] && state == Some(made)
  {
    var found := memory.GetBlock(n);
    if found.Some? {
      var decoded := DecodeEdgeState(found.value);
      if decoded.Some? {
        return decoded;
      }
    }
    var made := Constructed(n, created, interlocked);
    var block := EncodeEdgeState(made);
    var added := memory.AddBlock(n, block);
    state := if added then Some(made) else None;
  }

  /** Replaces the stored octets of a state; fails, adding nothing, when there are none. */
  method Update(memory: LedgerMemory, state: WireState) returns (ok: bool)
    modifies memory
    ensures ok <==> state.stateName in old(memory.list)
    ensures memory.list == if ok then old(memory.list)[state.stateName := BlockOf(state)] else old(memory.list)
  {
    ghost var before := memory.list;
    var block := EncodeEdgeState(state);
    ok := memory.DeleteBlock(state.stateName);
    if ok {
      ok := memory.AddBlock(state.stateName, block);
      assert memory.list == before[state.stateName := block];
    } else {
      assert memory.list == before;
    }
  }

  /** The state `w` stands for, apart from the record name a state made on the spot lacks. */
  predicate Reads(w: WireState, s: EdgeState) {
    FromWire(w.(record := w.record.(name := s.record.name))) == Some(s)
  }

  /** Storing the octets of a state is updating the typed store. */
  lemma UpdateRefines(blocks: map<Name, Bytes>, s: Store, e: EdgeState, w: WireState)
    requires Holds(blocks, s) && w == ToWire(e, w.created, w.interlocked) && WellFormedWire(w)
    ensures Holds(blocks[e.stateName := BlockOf(w)], s[e.stateName := e])
  {
    assert HoldsState(BlockOf(w), e, w.created, w.interlocked);
    var after, store := blocks[e.stateName := BlockOf(w)], s[e.stateName := e];
    forall n | n in store ensures Encodes(after[n], store[n]) {
      if n != e.stateName {
        assert Encodes(blocks[n], s[n]);
      }
    }
  }

  /** Over storage that holds a typed store, reading never fails and yields the typed state. */
  lemma ReadRefines(blocks: map<Name, Bytes>, s: Store, n: Name)
    requires Holds(blocks, s) && n in s
    ensures EdgeStateOf(blocks[n]).Some? && Reads(EdgeStateOf(blocks[n]).value, Lookup(s, n))
  {
    assert Encodes(blocks[n], s[n]);
    var created, interlocked :| HoldsState(blocks[n], s[n], created, interlocked);
    HeldStateIsRead(blocks[n], s[n], created, interlocked);
  }

  /** A name not stored reads as the pending state, and its octets are that state's: the
      name of a record is not among them. */
  lemma ConstructRefines(blocks: map<Name, Bytes>, s: Store, n: Name, created: Bytes, interlocked: Bytes)
    requires Holds(blocks, s) && n !in s && WellFormedWire(ToWire(Pending(n), created, interlocked))
    ensures var made := Constructed(n, created, interlocked);
      Reads(made, Lookup(s, n)) && Holds(blocks[n := BlockOf(made)], s[n := Lookup(s, n)])
  {
    var made, pending := Constructed(n, created, interlocked), ToWire(Pending(n), created, interlocked);
    assert ContentElements(made.record) == ContentElements(pending.record);
    assert BlockOf(made) == BlockOf(pending);
    UpdateRefines(blocks, s, Pending(n), pending);
  }
}
