/** How edge states, state lists and payload maps are kept in storage: octets in, octets out. */
module Codec {
  import opened Names
  import opened Tlv
  import opened Policies
  import opened DagSpec

  // ----- Decoding element by element -----

  /** Runs a decoder's switch over the elements; None is a thrown exception. */
  function Fold<S>(step: (S, Element) -> Option<S>, es: seq<Element>, acc: S): Option<S> {
    if es == [] then Some(acc)
    else
      match step(acc, es[0])
      case None => None
      case Some(next) => Fold(step, es[1..], next)
  }

  lemma {:induction false} FoldAppend<S>(step: (S, Element) -> Option<S>, a: seq<Element>, b: seq<Element>, acc: S)
    ensures Fold(step, a + b, acc) ==
            match Fold(step, a, acc) case None => None case Some(mid) => Fold(step, b, mid)
  {
    if a == [] {
      assert a + b == b;
    } else {
      assert (a + b)[1..] == a[1..] + b;
      match step(acc, a[0])
      case None =>
      case Some(next) => FoldAppend(step, a[1..], b, next);
    }
  }

  lemma FoldLast<S>(step: (S, Element) -> Option<S>, es: seq<Element>, k: nat, acc: S)
    requires k < |es|
    ensures Fold(step, es[..k + 1], acc) ==
            match Fold(step, es[..k], acc) case None => None case Some(mid) => step(mid, es[k])
  {
    assert es[..k + 1] == es[..k] + [es[k]];
    FoldAppend(step, es[..k], [es[k]], acc);
  }

  lemma FoldFails<S>(step: (S, Element) -> Option<S>, es: seq<Element>, k: nat, acc: S)
    requires k <= |es| && Fold(step, es[..k], acc) == None
    ensures Fold(step, es, acc) == None
  {
    assert es == es[..k] + es[k..];
    FoldAppend(step, es[..k], es[k..], acc);
  }

  /** An element every step ignores can be put anywhere. */
  lemma FoldIgnores<S>(step: (S, Element) -> Option<S>, es: seq<Element>, k: nat, e: Element, acc: S)
    requires k <= |es|
    requires forall s :: step(s, e) == Some(s)
    ensures Fold(step, es[..k] + [e] + es[k..], acc) == Fold(step, es, acc)
  {
    assert es == es[..k] + es[k..];
    assert es[..k] + [e] + es[k..] == es[..k] + ([e] + es[k..]);
    FoldAppend(step, es[..k], es[k..], acc);
    FoldAppend(step, es[..k], [e] + es[k..], acc);
    assert ([e] + es[k..])[1..] == es[k..];
  }

  lemma FoldOne<S>(step: (S, Element) -> Option<S>, e: Element, a: S)
    ensures Fold(step, [e], a) == step(a, e)
  {
    assert [e][1..] == [];
  }

  lemma FoldTwo<S>(step: (S, Element) -> Option<S>, e: seq<Element>, a: S, b: S, c: S)
    requires |e| == 2 && step(a, e[0]) == Some(b) && step(b, e[1]) == Some(c)
    ensures Fold(step, e, a) == Some(c)
  {
    assert Fold(step, e[1..], b) == Some(c) by {
      assert e[1..][1..] == [];
    }
  }

  lemma FoldThree<S>(step: (S, Element) -> Option<S>, e: seq<Element>, a: S, b: S, c: S, d: S)
    requires |e| == 3 && step(a, e[0]) == Some(b) && step(b, e[1]) == Some(c) && step(c, e[2]) == Some(d)
    ensures Fold(step, e, a) == Some(d)
  {
    FoldTwo(step, e[1..], b, c, d);
  }

  /** An element a step refuses makes the whole fail, wherever it is. */
  lemma FoldRefuses<S>(step: (S, Element) -> Option<S>, es: seq<Element>, k: nat, e: Element, acc: S)
    requires k <= |es|
    requires forall s :: step(s, e) == None
    ensures Fold(step, es[..k] + [e] + es[k..], acc) == None
  {
    assert es[..k] + [e] + es[k..] == es[..k] + ([e] + es[k..]);
    FoldAppend(step, es[..k], [e] + es[k..], acc);
  }

  lemma OpenCloseTwo(kind: nat, es: seq<Element>, k: nat, e: Element)
    requires k <= |es| && 1 <= kind < TWO_32 && 1 <= e.kind < TWO_32
    requires forall x :: x in es ==> 1 <= x.kind < TWO_32
    requires |EncodeElements(es[..k] + [e] + es[k..])| < TWO_64 && |EncodeElements(es)| < TWO_64
    ensures Open(kind, Close(kind, es)) == Some(es)
    ensures Open(kind, Close(kind, es[..k] + [e] + es[k..])) == Some(es[..k] + [e] + es[k..])
  {
    var more := es[..k] + [e] + es[k..];
    InsertedMembers(es, k, e);
    OpenClose(kind, es);
    OpenClose(kind, more);
  }

  lemma InsertedMembers<T>(es: seq<T>, k: nat, e: T)
    requires k <= |es|
    ensures forall x :: x in es[..k] + [e] + es[k..] ==> x == e || x in es
  {
  }

  function DecodeNamesIn(value: Bytes): Option<seq<Name>> {
    match ParseElements(value)
    case None => None
    case Some(es) => DecodeNames(es)
  }

  /** A block that holds one block, which must be a name. */
  function DecodeNested(value: Bytes): Option<Name> {
    match ReadElement(value)
    case None => None
    case Some((e, rest)) => if rest == [] then DecodeName(e) else None
  }

  function Nested(n: Name): Bytes {
    EncodeElement(NameElement(n))
  }

  lemma NestedRoundTrip(n: Name)
    requires WellFormedName(n)
    ensures DecodeNested(Nested(n)) == Some(n)
  {
    NameRoundTrip(n);
    assert Nested(n) + [] == Nested(n);
    ReadElementEncoded(NameElement(n), []);
  }

  /** Opens a block of the expected type. */
  function Open(kind: nat, b: Bytes): Option<seq<Element>> {
    match ReadElement(b)
    case None => None
    case Some((e, rest)) => if rest == [] && e.kind == kind then ParseElements(e.value) else None
  }

  function Close(kind: nat, es: seq<Element>): Bytes {
    EncodeElement(Element(kind, EncodeElements(es)))
  }

  lemma OpenClose(kind: nat, es: seq<Element>)
    requires 1 <= kind < TWO_32 && |EncodeElements(es)| < TWO_64
    requires forall e :: e in es ==> 1 <= e.kind < TWO_32
    ensures Open(kind, Close(kind, es)) == Some(es)
  {
    PartsAreSmaller(es);
    ParseEncoded(es);
    var e := Element(kind, EncodeElements(es));
    assert EncodeElement(e) + [] == EncodeElement(e);
    ReadElementEncoded(e, []);
  }

  lemma {:induction false} PartsAreSmaller(es: seq<Element>)
    ensures forall e :: e in es ==> |e.value| < |EncodeElements(es)|
  {
    if es != [] {
      PartsAreSmaller(es[1..]);
      forall e | e in es ensures |e.value| < |EncodeElements(es)| {
        assert e == es[0] || e in es[1..];
      }
    }
  }

  // ----- Records -----

  const CONTENT_TYPE := 21
  const RECORD_TYPE := 211
  const RECORD_POINTER := 212
  const RECORD_PAYLOAD := 213

  function ContentElements(r: Record): seq<Element> {
    [ Element(RECORD_TYPE, EncodeNni(r.rtype)),
      Element(RECORD_POINTER, EncodeElements(NameElements(r.pointers))),
      Element(RECORD_PAYLOAD, r.payload) ]
  }

  /** Appends the encoded pointers one by one, then the three elements. */
  method PrepareContent(r: Record) returns (content: seq<Element>)
    ensures content == ContentElements(r)
  {
    var ptrsEnc: Bytes := [];
    for i := 0 to |r.pointers|
      invariant ptrsEnc == EncodeElements(NameElements(r.pointers[..i]))
    {
      EncodeOneMore(r.pointers[..i], r.pointers[i]);
      assert r.pointers[..i + 1] == r.pointers[..i] + [r.pointers[i]];
      ptrsEnc := ptrsEnc + EncodeElement(NameElement(r.pointers[i]));
    }
    assert r.pointers[..|r.pointers|] == r.pointers;
    content := [Element(RECORD_TYPE, EncodeNni(r.rtype)), Element(RECORD_POINTER, ptrsEnc), Element(RECORD_PAYLOAD, r.payload)];
  }

  function StepRecord(r: Record, e: Element): Option<Record> {
    if e.kind == RECORD_TYPE then
      match ReadNni(e.value) case None => None case Some(n) => Some(r.(rtype := n % TWO_32))
    else if e.kind == RECORD_PAYLOAD then Some(r.(payload := e.value))
    else if e.kind == RECORD_POINTER then
      match DecodeNamesIn(e.value) case None => None case Some(ns) => Some(r.(pointers := r.pointers + ns))
    else if IsCritical(e.kind) then None
    else Some(r)
  }

  function DecodeRecord(name: Name, content: Bytes): Option<Record> {
    match ParseElements(content)
    case None => None
    case Some(es) => Fold(StepRecord, es, Record(name, 0, [], []))
  }

  /** Fills the fields of a record element by element. */
  method ReadRecord(name: Name, content: Bytes) returns (record: Option<Record>)
    ensures record == DecodeRecord(name, content)
  {
    var parsed := ParseElements(content);
    if parsed == None {
      return None;
    }
    var es := parsed.value;
    var start := Record(name, 0, [], []);
    var r := start;
    for i := 0 to |es|
      invariant Fold(StepRecord, es[..i], start) == Some(r)
    {
      FoldLast(StepRecord, es, i, start);
      var next := StepRecord(r, es[i]);
      if next == None {
        FoldFails(StepRecord, es, i + 1, start);
        return None;
      }
      r := next.value;
    }
    assert es[..|es|] == es;
    record := Some(r);
  }

  predicate WellFormedRecord(r: Record) {
    r.rtype < TWO_32 && forall p :: p in r.pointers ==> WellFormedName(p)
  }

  lemma NamesInRoundTrip(ns: seq<Name>)
    requires forall n :: n in ns ==> WellFormedName(n)
    ensures DecodeNamesIn(EncodeElements(NameElements(ns))) == Some(ns)
  {
    NamesParse(ns);
    NamesRoundTrip(ns);
  }

  lemma StepPointers(r: Record, ns: seq<Name>)
    requires r.pointers == [] && forall n :: n in ns ==> WellFormedName(n)
    ensures StepRecord(r, Element(RECORD_POINTER, EncodeElements(NameElements(ns)))) == Some(r.(pointers := ns))
  {
    NamesInRoundTrip(ns);
    assert [] + ns == ns;
  }

  lemma StepType(r: Record, rtype: nat)
    requires rtype < TWO_32
    ensures StepRecord(r, Element(RECORD_TYPE, EncodeNni(rtype))) == Some(r.(rtype := rtype))
  {
    NniRoundTrip(rtype);
  }

  lemma StepPayload(r: Record, payload: Bytes)
    ensures StepRecord(r, Element(RECORD_PAYLOAD, payload)) == Some(r.(payload := payload))
  {
  }

  lemma ContentFold(r: Record)
    requires WellFormedRecord(r)
    ensures Fold(StepRecord, ContentElements(r), Record(r.name, 0, [], [])) == Some(r)
  {
    var r0 := Record(r.name, 0, [], []);
    var r1 := r0.(rtype := r.rtype);
    var r2 := r1.(pointers := r.pointers);
    var es := ContentElements(r);
    StepType(r0, r.rtype);
    StepPointers(r1, r.pointers);
    StepPayload(r2, r.payload);
    FoldThree(StepRecord, es, r0, r1, r2, r);
  }

  lemma RecordRoundTrip(r: Record)
    requires WellFormedRecord(r) && |EncodeElements(ContentElements(r))| < TWO_64
    ensures DecodeRecord(r.name, EncodeElements(ContentElements(r))) == Some(r)
  {
    PartsAreSmaller(ContentElements(r));
    ParseEncoded(ContentElements(r));
    ContentFold(r);
  }

  lemma ParseInserted(es: seq<Element>, k: nat, e: Element)
    requires k <= |es| && WellFormedElement(e) && forall x :: x in es ==> WellFormedElement(x)
    ensures ParseElements(EncodeElements(es)) == Some(es)
    ensures ParseElements(EncodeElements(es[..k] + [e] + es[k..])) == Some(es[..k] + [e] + es[k..])
  {
    var more := es[..k] + [e] + es[k..];
    InsertedMembers(es, k, e);
    ParseEncoded(es);
    ParseEncoded(more);
  }

  /** Inside a record too, an unknown element is ignored when non-critical and refused when critical. */
  lemma RecordEvolves(name: Name, es: seq<Element>, k: nat, e: Element)
    requires k <= |es| && e.kind !in {RECORD_TYPE, RECORD_POINTER, RECORD_PAYLOAD}
    requires WellFormedElement(e) && forall x :: x in es ==> WellFormedElement(x)
    ensures DecodeRecord(name, EncodeElements(es[..k] + [e] + es[k..])) ==
            if IsCritical(e.kind) then None else DecodeRecord(name, EncodeElements(es))
  {
    ParseInserted(es, k, e);
    if IsCritical(e.kind) {
      FoldRefuses(StepRecord, es, k, e, Record(name, 0, [], []));
    } else {
      FoldIgnores(StepRecord, es, k, e, Record(name, 0, [], []));
    }
  }

  // ----- Edge states -----

  const EDGE_STATE_TYPE := 311
  const EDGE_STATE_STATUS := 312
  const EDGE_STATE_DESCENDANTS := 313
  const EDGE_STATE_CREATED := 314
  const EDGE_STATE_INTERLOCKED := 315

  /** An edge state as stored: the status by number, the two times as opaque strings. */
  datatype WireState = WireState(stateName: Name, status: nat, record: Record, descendants: set<Name>,
                                 created: Bytes, interlocked: Bytes)

  // A fresh state: its record is of the generic type until a Content element replaces it.
  const BLANK := WireState([], 0, Record([], GENERIC_RECORD, [], []), {}, [], [])

  function NamesElement(kind: nat, ns: seq<Name>): seq<Element> {
    if ns == [] then [] else [Element(kind, EncodeElements(NameElements(ns)))]
  }

  ghost function EdgeElements(s: WireState): seq<Element> {
    EdgeHead(s)
    + NamesElement(EDGE_STATE_DESCENDANTS, Sorted(s.descendants))
    + EdgeTail(s)
  }

  lemma EncodeOneMore(done: seq<Name>, n: Name)
    ensures EncodeElements(NameElements(done + [n])) == EncodeElements(NameElements(done)) + EncodeElement(NameElement(n))
  {
    assert NameElements(done + [n]) == NameElements(done) + [NameElement(n)];
    EncodeElementsAppend(NameElements(done), [NameElement(n)]);
    assert EncodeElements([NameElement(n)]) == EncodeElement(NameElement(n));
  }

  /** Appends the encodings of a set of names in canonical order. */
  method EncodeNameSet(names: set<Name>) returns (buffer: Bytes)
    ensures buffer == EncodeElements(NameElements(Sorted(names)))
  {
    buffer := [];
    var todo := names;
    ghost var done: seq<Name> := [];
    assert done + Sorted(todo) == Sorted(names);
    while todo != {}
      invariant done + Sorted(todo) == Sorted(names)
      invariant buffer == EncodeElements(NameElements(done))
      decreases |todo|
    {
      var n := PickFirst(todo);
      SortedOneMore(done, todo, names, n);
      EncodeOneMore(done, n);
      buffer := buffer + EncodeElement(NameElement(n));
      done := done + [n];
      todo := todo - {n};
    }
    assert done == done + Sorted(todo);
  }

  method EncodeEdgeState(s: WireState) returns (b: Bytes)
    ensures b == Close(EDGE_STATE_TYPE, EdgeElements(s))
  {
    var content := PrepareContent(s.record);
    var block := [NameElement(s.stateName), Element(EDGE_STATE_STATUS, EncodeNni(s.status)),
                  Element(CONTENT_TYPE, EncodeElements(content))];
    var nameBuffer := EncodeNameSet(s.descendants);
    SortedEmpty(s.descendants);
    if |s.descendants| > 0 {
      block := block + [Element(EDGE_STATE_DESCENDANTS, nameBuffer)];
    }
    block := block + [Element(EDGE_STATE_CREATED, s.created), Element(EDGE_STATE_INTERLOCKED, s.interlocked)];
    assert block == EdgeElements(s);
    b := Close(EDGE_STATE_TYPE, block);
  }

  lemma SortedEmpty(names: set<Name>)
    ensures Sorted(names) == [] <==> |names| == 0
  {
    if names != {} {
      var n :| n in names;
      assert n in Sorted(names);
    }
  }

  function StepEdgeState(s: WireState, e: Element): Option<WireState> {
    if e.kind == NAME_TYPE then
      match DecodeName(e) case None => None case Some(n) => Some(s.(stateName := n))
    else if e.kind == EDGE_STATE_STATUS then
      match ReadNni(e.value) case None => None case Some(n) => Some(s.(status := n))
    else if e.kind == CONTENT_TYPE then
      match DecodeRecord(FromStateName(s.stateName), e.value) case None => None case Some(r) => Some(s.(record := r))
    else if e.kind == EDGE_STATE_DESCENDANTS then
      match DecodeNamesIn(e.value)
      case None => None
      case Some(ns) => Some(s.(descendants := s.descendants + set n | n in ns))
    else if e.kind == EDGE_STATE_CREATED then Some(s.(created := e.value))
    else if e.kind == EDGE_STATE_INTERLOCKED then Some(s.(interlocked := e.value))
    else if IsCritical(e.kind) then None
    else Some(s)
  }

  function EdgeStateOf(b: Bytes): Option<WireState> {
    match Open(EDGE_STATE_TYPE, b)
    case None => None
    case Some(es) => Fold(StepEdgeState, es, BLANK)
  }

  /** Fills the fields of a state element by element. */
  method DecodeEdgeState(b: Bytes) returns (state: Option<WireState>)
    ensures state == EdgeStateOf(b)
  {
    var parsed := Open(EDGE_STATE_TYPE, b);
    if parsed == None {
      return None;
    }
    var es := parsed.value;
    var s := BLANK;
    for i := 0 to |es|
      invariant Fold(StepEdgeState, es[..i], BLANK) == Some(s)
    {
      FoldLast(StepEdgeState, es, i, BLANK);
      var next := StepEdgeState(s, es[i]);
      if next == None {
        FoldFails(StepEdgeState, es, i + 1, BLANK);
        return None;
      }
      s := next.value;
    }
    assert es[..|es|] == es;
    state := Some(s);
  }

  ghost predicate WellFormedWire(s: WireState) {
    && WellFormedName(s.stateName) && s.record.name == FromStateName(s.stateName)
    && WellFormedRecord(s.record) && s.status < TWO_64
    && (forall d :: d in s.descendants ==> WellFormedName(d))
    && |EncodeElements(EdgeElements(s))| < TWO_64
  }

  function EdgeHead(s: WireState): seq<Element> {
    [ NameElement(s.stateName),
      Element(EDGE_STATE_STATUS, EncodeNni(s.status)),
      Element(CONTENT_TYPE, EncodeElements(ContentElements(s.record))) ]
  }

  lemma EdgeHeadDecodes(s: WireState)
    requires WellFormedName(s.stateName) && s.record.name == FromStateName(s.stateName)
    requires WellFormedRecord(s.record) && s.status < TWO_64
    requires |EncodeElements(ContentElements(s.record))| < TWO_64
    ensures Fold(StepEdgeState, EdgeHead(s), BLANK) ==
            Some(BLANK.(stateName := s.stateName, status := s.status, record := s.record))
  {
    var s1 := BLANK.(stateName := s.stateName);
    var s2 := s1.(status := s.status);
    NameRoundTrip(s.stateName);
    NniRoundTrip(s.status);
    RecordRoundTrip(s.record);
    FoldThree(StepEdgeState, EdgeHead(s), BLANK, s1, s2, s2.(record := s.record));
  }

  function EdgeTail(s: WireState): seq<Element> {
    [Element(EDGE_STATE_CREATED, s.created), Element(EDGE_STATE_INTERLOCKED, s.interlocked)]
  }

  lemma EdgeTailDecodes(s: WireState, acc: WireState)
    ensures Fold(StepEdgeState, EdgeTail(s), acc) == Some(acc.(created := s.created, interlocked := s.interlocked))
  {
    FoldTwo(StepEdgeState, EdgeTail(s), acc, acc.(created := s.created),
            acc.(created := s.created, interlocked := s.interlocked));
  }

  lemma ContentFits(s: WireState)
    requires |EncodeElements(EdgeElements(s))| < TWO_64
    ensures |EncodeElements(ContentElements(s.record))| < TWO_64
  {
    PartsAreSmaller(EdgeElements(s));
    assert EdgeElements(s)[2] == Element(CONTENT_TYPE, EncodeElements(ContentElements(s.record)));
    assert EdgeElements(s)[2] in EdgeElements(s);
  }

  lemma EdgeElementsDecode(s: WireState)
    requires WellFormedWire(s)
    ensures Fold(StepEdgeState, EdgeElements(s), BLANK) == Some(s)
  {
    var mid := NamesElement(EDGE_STATE_DESCENDANTS, Sorted(s.descendants));
    var s3 := BLANK.(stateName := s.stateName, status := s.status, record := s.record);
    ContentFits(s);
    EdgeHeadDecodes(s);
    DescendantsDecode(s3, s.descendants);
    EdgeTailDecodes(s, s3.(descendants := s.descendants));
    FoldAppend(StepEdgeState, EdgeHead(s) + mid, EdgeTail(s), BLANK);
    FoldAppend(StepEdgeState, EdgeHead(s), mid, BLANK);
  }

  lemma StepDescendants(s: WireState, ns: seq<Name>)
    requires s.descendants == {} && forall n :: n in ns ==> WellFormedName(n)
    ensures StepEdgeState(s, Element(EDGE_STATE_DESCENDANTS, EncodeElements(NameElements(ns)))) ==
            Some(s.(descendants := set n | n in ns))
  {
    NamesInRoundTrip(ns);
    NothingMore(set n | n in ns);
  }

  lemma NothingMore(names: set<Name>)
    ensures {} + names == names
  {
  }

  lemma DescendantsDecode(s: WireState, names: set<Name>)
    requires s.descendants == {} && forall d :: d in names ==> WellFormedName(d)
    ensures Fold(StepEdgeState, NamesElement(EDGE_STATE_DESCENDANTS, Sorted(names)), s) ==
            Some(s.(descendants := names))
  {
    var ns := Sorted(names);
    assert (set n | n in ns) == names;
    if ns != [] {
      StepDescendants(s, ns);
      FoldOne(StepEdgeState, NamesElement(EDGE_STATE_DESCENDANTS, ns)[0], s);
    }
  }

  /** Every well-formed edge state is read back as it was written. */
  lemma EdgeStateRoundTrip(s: WireState)
    requires WellFormedWire(s)
    ensures EdgeStateOf(Close(EDGE_STATE_TYPE, EdgeElements(s))) == Some(s)
  {
    EdgeKinds(s);
    OpenClose(EDGE_STATE_TYPE, EdgeElements(s));
    EdgeElementsDecode(s);
  }

  lemma EdgeKinds(s: WireState)
    ensures forall e :: e in EdgeElements(s) ==> 1 <= e.kind < TWO_32
  {
  }

  predicate UnknownToEdgeState(kind: nat) {
    kind !in {NAME_TYPE, EDGE_STATE_STATUS, CONTENT_TYPE, EDGE_STATE_DESCENDANTS, EDGE_STATE_CREATED, EDGE_STATE_INTERLOCKED}
  }

  /** An unknown element changes nothing when it is non-critical and refuses the block when
      it is critical. */
  lemma EdgeStateEvolves(es: seq<Element>, k: nat, e: Element)
    requires k <= |es| && UnknownToEdgeState(e.kind) && 1 <= e.kind < TWO_32
    requires forall x :: x in es ==> 1 <= x.kind < TWO_32
    requires |EncodeElements(es[..k] + [e] + es[k..])| < TWO_64
    requires |EncodeElements(es)| < TWO_64
    ensures EdgeStateOf(Close(EDGE_STATE_TYPE, es[..k] + [e] + es[k..])) ==
            if IsCritical(e.kind) then None else EdgeStateOf(Close(EDGE_STATE_TYPE, es))
  {
    OpenCloseTwo(EDGE_STATE_TYPE, es, k, e);
    if IsCritical(e.kind) {
      FoldRefuses(StepEdgeState, es, k, e, BLANK);
    } else {
      FoldIgnores(StepEdgeState, es, k, e, BLANK);
    }
  }

  // ----- Repeated, truncated and foreign elements -----

  /** Pointer elements accumulate in order; of types and payloads the last counts; a type
      number is cut to 32 bits. */
  lemma RecordElementsAdd(r: Record, ns: seq<Name>, rtype: nat, payload: Bytes)
    requires rtype < TWO_64 && forall n :: n in ns ==> WellFormedName(n)
    ensures StepRecord(r, Element(RECORD_POINTER, EncodeElements(NameElements(ns)))) == Some(r.(pointers := r.pointers + ns))
    ensures StepRecord(r, Element(RECORD_TYPE, EncodeNni(rtype))) == Some(r.(rtype := rtype % 0x1_0000_0000))
    ensures StepRecord(r, Element(RECORD_PAYLOAD, payload)) == Some(r.(payload := payload))
  {
    NamesInRoundTrip(ns);
    NniRoundTrip(rtype);
  }

  /** Descendant elements accumulate. */
  lemma DescendantsAdd(s: WireState, ns: seq<Name>)
    requires forall n :: n in ns ==> WellFormedName(n)
    ensures StepEdgeState(s, Element(EDGE_STATE_DESCENDANTS, EncodeElements(NameElements(ns)))) ==
            Some(s.(descendants := s.descendants + set n | n in ns))
  {
    NamesInRoundTrip(ns);
  }

  /** A later content replaces the record. */
  lemma ContentReplaces(s: WireState, r: Record)
    requires WellFormedRecord(r) && r.name == FromStateName(s.stateName) && |EncodeElements(ContentElements(r))| < TWO_64
    ensures StepEdgeState(s, Element(CONTENT_TYPE, EncodeElements(ContentElements(r)))) == Some(s.(record := r))
  {
    RecordRoundTrip(r);
  }

  /** A block of any other type is refused, whatever it holds. */
  lemma ForeignBlockRefused(kind: nat, es: seq<Element>)
    requires 1 <= kind < TWO_32 && kind != 311 && |EncodeElements(es)| < TWO_64
    ensures EdgeStateOf(Close(kind, es)) == None
  {
    var e := Element(kind, EncodeElements(es));
    assert EncodeElement(e) + [] == EncodeElement(e);
    ReadElementEncoded(e, []);
  }

  // ----- The typed store over stored octets -----

  function StatusCode(status: Status): nat {
    match status
    case INITIALIZED => 0
    case LOADED => 2
    case INTERLOCKED => 3
  }

  function StatusOf(code: nat): Option<Status> {
    if code == 0 then Some(INITIALIZED)
    else if code == 2 then Some(LOADED)
    else if code == 3 then Some(INTERLOCKED)
    else None
  }

  function ToWire(s: EdgeState, created: Bytes, interlocked: Bytes): WireState {
    WireState(s.stateName, StatusCode(s.status), s.record, s.descendants, created, interlocked)
  }

  function FromWire(w: WireState): Option<EdgeState> {
    match StatusOf(w.status)
    case None => None
    case Some(status) => Some(EdgeState(w.stateName, status, w.record, w.descendants))
  }

  lemma FromToWire(s: EdgeState, created: Bytes, interlocked: Bytes)
    ensures FromWire(ToWire(s, created, interlocked)) == Some(s)
  {
  }

  ghost predicate HoldsState(block: Bytes, s: EdgeState, created: Bytes, interlocked: Bytes) {
    var w := ToWire(s, created, interlocked);
    WellFormedWire(w) && block == Close(EDGE_STATE_TYPE, EdgeElements(w))
  }

  /** The block encodes the state, at whatever times. */
  ghost predicate Encodes(block: Bytes, s: EdgeState) {
    exists created, interlocked :: HoldsState(block, s, created, interlocked)
  }

  /** Storage holds the encoding of every state of `s`. */
  ghost predicate Holds(blocks: map<Name, Bytes>, s: Store) {
    blocks.Keys == s.Keys && forall n :: n in s ==> Encodes(blocks[n], s[n])
  }

  lemma HeldStateIsRead(block: Bytes, s: EdgeState, created: Bytes, interlocked: Bytes)
    requires HoldsState(block, s, created, interlocked)
    ensures EdgeStateOf(block).Some? && FromWire(EdgeStateOf(block).value) == Some(s)
  {
    var w := ToWire(s, created, interlocked);
    EdgeStateRoundTrip(w);
    assert EdgeStateOf(block) == Some(w);
    FromToWire(s, created, interlocked);
  }
}
