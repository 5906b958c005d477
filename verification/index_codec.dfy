/** The other blocks the ledger keeps beside edge states: the tracker list of state names
    and the map from a payload's digest to a state name. */
module IndexCodec {
  import opened Names
  import opened Tlv
  import opened Policies
  import opened Codec

  // ----- Names of lists -----

  // The octets of "EdgeStateList", "null" and "PayloadMap".
  const LIST_KEYWORD: seq<Byte> := [69, 100, 103, 101, 83, 116, 97, 116, 101, 76, 105, 115, 116]
  const NULL_TEXT: seq<Byte> := [110, 117, 108, 108]
  const MAP_KEYWORD: seq<Byte> := [80, 97, 121, 108, 111, 97, 100, 77, 97, 112]

  const GENERIC_COMPONENT := 8
  const PARAMETERS_DIGEST_COMPONENT := 2

  const LIST_HEADER := Component(KEYWORD_COMPONENT, LIST_KEYWORD)
  const MAP_HEADER := Component(KEYWORD_COMPONENT, MAP_KEYWORD)

  function ToStateListName(key: nat): Name {
    [LIST_HEADER, Component(GENERIC_COMPONENT, EncodeNni(key))]
  }

  /** The number in the last component; None when it is not one. */
  function FromStateListName(n: Name): Option<nat> {
    if n == [] then None
    else match ReadNni(n[|n| - 1].value) case None => None case Some(k) => Some(k % TWO_32)
  }

  function StateListNull(): Name {
    [LIST_HEADER, Component(GENERIC_COMPONENT, NULL_TEXT)]
  }

  lemma ListNameRoundTrip(key: nat)
    requires key < TWO_32
    ensures FromStateListName(ToStateListName(key)) == Some(key)
  {
    var n := ToStateListName(key);
    assert n[|n| - 1].value == EncodeNni(key);
    NniRoundTrip(key);
  }

  lemma FourOctets(a: Byte, b: Byte, c: Byte, d: Byte)
    ensures FromBigEndian([a, b, c, d]) == ((a * 256 + b) * 256 + c) * 256 + d
  {
    assert [a, b, c, d][..3] == [a, b, c];
    assert [a, b, c][..2] == [a, b];
    assert [a, b][..1] == [a];
    assert [a][..0] == [];
    assert FromBigEndian([a]) == a;
    assert FromBigEndian([a, b]) == a * 256 + b;
    assert FromBigEndian([a, b, c]) == (a * 256 + b) * 256 + c;
  }

  /** The name that ends the chain of lists is also the name of one list: its text is read
      as a number by the list-name mapping. */
  lemma NullNamesOneList(key: nat)
    requires key < TWO_32
    ensures ToStateListName(key) == StateListNull() <==> key == 0x6E75_6C6C
  {
    FourOctets(110, 117, 108, 108);
    NniRoundTrip(key);
    NniRoundTrip(0x6E75_6C6C);
    FromBigEndianRoundTrip(NULL_TEXT);
    if ToStateListName(key) == StateListNull() {
      assert ToStateListName(key)[1].value == EncodeNni(key) == NULL_TEXT;
    }
  }

  /** The name under which a payload's state name is kept. */
  function ToMapName(digest: Bytes -> Bytes, payload: Bytes): Name {
    [MAP_HEADER, Component(PARAMETERS_DIGEST_COMPONENT, digest(payload))]
  }

  /** Map names collide exactly where digests do. */
  lemma MapNameCollides(digest: Bytes -> Bytes, a: Bytes, b: Bytes)
    ensures ToMapName(digest, a) == ToMapName(digest, b) <==> digest(a) == digest(b)
  {
    assert ToMapName(digest, a)[1].value == digest(a);
    assert ToMapName(digest, b)[1].value == digest(b);
  }

  // ----- State lists -----

  const LIST_TYPE := 351
  const LIST_NAME := 352
  const LIST_KEY := 353
  const LIST_VALUE := 354
  const LIST_NEXT := 355

  datatype EdgeStateList = EdgeStateList(listName: Name, key: nat, value: set<Name>, nextList: Name)

  const EMPTY_LIST := EdgeStateList([], 0, {}, [])

  ghost function ListElements(l: EdgeStateList): seq<Element> {
    [Element(LIST_NAME, Nested(l.listName)), Element(LIST_KEY, EncodeNni(l.key))]
    + NamesElement(LIST_VALUE, Sorted(l.value))
    + [Element(LIST_NEXT, Nested(l.nextList))]
  }

  method EncodeEdgeStateList(l: EdgeStateList) returns (b: Bytes)
    ensures b == Close(LIST_TYPE, ListElements(l))
  {
    var block := [Element(LIST_NAME, Nested(l.listName)), Element(LIST_KEY, EncodeNni(l.key))];
    var nameBuffer := EncodeNameSet(l.value);
    SortedEmpty(l.value);
    if |l.value| > 0 {
      block := block + [Element(LIST_VALUE, nameBuffer)];
    }
    block := block + [Element(LIST_NEXT, Nested(l.nextList))];
    assert block == ListElements(l);
    b := Close(LIST_TYPE, block);
  }

  function StepList(l: EdgeStateList, e: Element): Option<EdgeStateList> {
    if e.kind == LIST_NAME then
      match DecodeNested(e.value) case None => None case Some(n) => Some(l.(listName := n))
    else if e.kind == LIST_KEY then
      match ReadNni(e.value) case None => None case Some(k) => Some(l.(key := k % TWO_32))
    else if e.kind == LIST_VALUE then
      match DecodeNamesIn(e.value) case None => None case Some(ns) => Some(l.(value := l.value + set n | n in ns))
    else if e.kind == LIST_NEXT then
      match DecodeNested(e.value) case None => None case Some(n) => Some(l.(nextList := n))
    else if IsCritical(e.kind) then None
    else Some(l)
  }

  function EdgeStateListOf(b: Bytes): Option<EdgeStateList> {
    match Open(LIST_TYPE, b)
    case None => None
    case Some(es) => Fold(StepList, es, EMPTY_LIST)
  }

  method DecodeEdgeStateList(b: Bytes) returns (list: Option<EdgeStateList>)
    ensures list == EdgeStateListOf(b)
  {
    var parsed := Open(LIST_TYPE, b);
    if parsed == None {
      return None;
    }
    var es := parsed.value;
    var l := EMPTY_LIST;
    for i := 0 to |es|
      invariant Fold(StepList, es[..i], EMPTY_LIST) == Some(l)
    {
      FoldLast(StepList, es, i, EMPTY_LIST);
      var next := StepList(l, es[i]);
      if next == None {
        FoldFails(StepList, es, i + 1, EMPTY_LIST);
        return None;
      }
      l := next.value;
    }
    assert es[..|es|] == es;
    list := Some(l);
  }

  ghost predicate WellFormedList(l: EdgeStateList) {
    && WellFormedName(l.listName) && WellFormedName(l.nextList) && l.key < TWO_32
    && (forall n :: n in l.value ==> WellFormedName(n))
    && |EncodeElements(ListElements(l))| < TWO_64
  }

  lemma ValueDecodes(l: EdgeStateList, names: set<Name>)
    requires l.value == {} && forall n :: n in names ==> WellFormedName(n)
    ensures Fold(StepList, NamesElement(LIST_VALUE, Sorted(names)), l) == Some(l.(value := names))
  {
    var ns := Sorted(names);
    assert {} + (set n | n in ns) == names;
    if ns != [] {
      NamesInRoundTrip(ns);
      FoldOne(StepList, NamesElement(LIST_VALUE, ns)[0], l);
    }
  }

  lemma StepListName(l: EdgeStateList, listName: Name)
    requires WellFormedName(listName)
    ensures StepList(l, Element(LIST_NAME, Nested(listName))) == Some(l.(listName := listName))
  {
    NestedRoundTrip(listName);
  }

  lemma StepListKey(l: EdgeStateList, key: nat)
    requires key < TWO_32
    ensures StepList(l, Element(LIST_KEY, EncodeNni(key))) == Some(l.(key := key))
  {
    NniRoundTrip(key);
  }

  lemma ListHeadDecodes(listName: Name, key: nat)
    requires WellFormedName(listName) && key < TWO_32
    ensures Fold(StepList, [Element(LIST_NAME, Nested(listName)), Element(LIST_KEY, EncodeNni(key))], EMPTY_LIST) ==
            Some(EMPTY_LIST.(listName := listName, key := key))
  {
    var l1 := EMPTY_LIST.(listName := listName);
    var e0, e1 := Element(LIST_NAME, Nested(listName)), Element(LIST_KEY, EncodeNni(key));
    StepListName(EMPTY_LIST, listName);
    StepListKey(l1, key);
    FoldTwo(StepList, [e0, e1], EMPTY_LIST, l1, l1.(key := key));
  }

  lemma ListTailDecodes(l: EdgeStateList, nextList: Name)
    requires WellFormedName(nextList)
    ensures Fold(StepList, [Element(LIST_NEXT, Nested(nextList))], l) == Some(l.(nextList := nextList))
  {
    NestedRoundTrip(nextList);
    FoldOne(StepList, Element(LIST_NEXT, Nested(nextList)), l);
  }

  lemma ListElementsDecode(l: EdgeStateList)
    requires WellFormedList(l)
    ensures Fold(StepList, ListElements(l), EMPTY_LIST) == Some(l)
  {
    var head := [Element(LIST_NAME, Nested(l.listName)), Element(LIST_KEY, EncodeNni(l.key))];
    var mid, tail := NamesElement(LIST_VALUE, Sorted(l.value)), [Element(LIST_NEXT, Nested(l.nextList))];
    var l2 := EMPTY_LIST.(listName := l.listName, key := l.key);
    ListHeadDecodes(l.listName, l.key);
    ValueDecodes(l2, l.value);
    ListTailDecodes(l2.(value := l.value), l.nextList);
    FoldAppend(StepList, head + mid, tail, EMPTY_LIST);
    FoldAppend(StepList, head, mid, EMPTY_LIST);
  }

  lemma EdgeStateListRoundTrip(l: EdgeStateList)
    requires WellFormedList(l)
    ensures EdgeStateListOf(Close(LIST_TYPE, ListElements(l))) == Some(l)
  {
    OpenClose(LIST_TYPE, ListElements(l));
    ListElementsDecode(l);
  }

  // ----- Payload maps -----

  const MAP_TYPE := 381
  const MAP_TO := 382

  datatype PayloadMap = PayloadMap(mapName: Name, mapTo: Name)

  const EMPTY_MAP := PayloadMap([], [])

  function MapElements(m: PayloadMap): seq<Element> {
    [NameElement(m.mapName), Element(MAP_TO, Nested(m.mapTo))]
  }

  function EncodePayloadMap(m: PayloadMap): Bytes {
    Close(MAP_TYPE, MapElements(m))
  }

  function StepMap(m: PayloadMap, e: Element): Option<PayloadMap> {
    if e.kind == NAME_TYPE then
      match DecodeName(e) case None => None case Some(n) => Some(m.(mapName := n))
    else if e.kind == MAP_TO then
      match DecodeNested(e.value) case None => None case Some(n) => Some(m.(mapTo := n))
    else if IsCritical(e.kind) then None
    else Some(m)
  }

  function PayloadMapOf(b: Bytes): Option<PayloadMap> {
    match Open(MAP_TYPE, b)
    case None => None
    case Some(es) => Fold(StepMap, es, EMPTY_MAP)
  }

  method DecodePayloadMap(b: Bytes) returns (payloadMap: Option<PayloadMap>)
    ensures payloadMap == PayloadMapOf(b)
  {
    var parsed := Open(MAP_TYPE, b);
    if parsed == None {
      return None;
    }
    var es := parsed.value;
    var m := EMPTY_MAP;
    for i := 0 to |es|
      invariant Fold(StepMap, es[..i], EMPTY_MAP) == Some(m)
    {
      FoldLast(StepMap, es, i, EMPTY_MAP);
      var next := StepMap(m, es[i]);
      if next == None {
        FoldFails(StepMap, es, i + 1, EMPTY_MAP);
        return None;
      }
      m := next.value;
    }
    assert es[..|es|] == es;
    payloadMap := Some(m);
  }

  lemma PayloadMapRoundTrip(m: PayloadMap)
    requires WellFormedName(m.mapName) && WellFormedName(m.mapTo)
    requires |EncodeElements(MapElements(m))| < TWO_64
    ensures PayloadMapOf(EncodePayloadMap(m)) == Some(m)
  {
    NameRoundTrip(m.mapName);
    NestedRoundTrip(m.mapTo);
    OpenClose(MAP_TYPE, MapElements(m));
    FoldTwo(StepMap, MapElements(m), EMPTY_MAP, EMPTY_MAP.(mapName := m.mapName), m);
  }

  // ----- Repeated and foreign elements -----

  /** State names accumulate; a later key, cut to 32 bits, replaces the earlier. */
  lemma ListElementsAdd(l: EdgeStateList, ns: seq<Name>, key: nat)
    requires key < TWO_64 && forall n :: n in ns ==> WellFormedName(n)
    ensures StepList(l, Element(LIST_VALUE, EncodeElements(NameElements(ns)))) ==
            Some(l.(value := l.value + set n | n in ns))
    ensures StepList(l, Element(LIST_KEY, EncodeNni(key))) == Some(l.(key := key % 0x1_0000_0000))
  {
    NamesInRoundTrip(ns);
    NniRoundTrip(key);
  }

  /** A block of any other type is neither a list nor a map, whatever it holds. */
  lemma ForeignIndexBlockRefused(kind: nat, es: seq<Element>)
    requires 1 <= kind < TWO_32 && |EncodeElements(es)| < TWO_64
    ensures kind != 351 ==> EdgeStateListOf(Close(kind, es)) == None
    ensures kind != 381 ==> PayloadMapOf(Close(kind, es)) == None
  {
    var e := Element(kind, EncodeElements(es));
    assert EncodeElement(e) + [] == EncodeElement(e);
    ReadElementEncoded(e, []);
  }

  // ----- Unknown elements in either block -----

  lemma EdgeStateListEvolves(es: seq<Element>, k: nat, e: Element)
    requires k <= |es| && e.kind !in {LIST_NAME, LIST_KEY, LIST_VALUE, LIST_NEXT} && 1 <= e.kind < TWO_32
    requires forall x :: x in es ==> 1 <= x.kind < TWO_32
    requires |EncodeElements(es[..k] + [e] + es[k..])| < TWO_64
    requires |EncodeElements(es)| < TWO_64
    ensures EdgeStateListOf(Close(LIST_TYPE, es[..k] + [e] + es[k..])) ==
            if IsCritical(e.kind) then None else EdgeStateListOf(Close(LIST_TYPE, es))
  {
    OpenCloseTwo(LIST_TYPE, es, k, e);
    if IsCritical(e.kind) {
      FoldRefuses(StepList, es, k, e, EMPTY_LIST);
    } else {
      FoldIgnores(StepList, es, k, e, EMPTY_LIST);
    }
  }

  lemma PayloadMapEvolves(es: seq<Element>, k: nat, e: Element)
    requires k <= |es| && e.kind !in {NAME_TYPE, MAP_TO} && 1 <= e.kind < TWO_32
    requires forall x :: x in es ==> 1 <= x.kind < TWO_32
    requires |EncodeElements(es[..k] + [e] + es[k..])| < TWO_64
    requires |EncodeElements(es)| < TWO_64
    ensures PayloadMapOf(Close(MAP_TYPE, es[..k] + [e] + es[k..])) ==
            if IsCritical(e.kind) then None else PayloadMapOf(Close(MAP_TYPE, es))
  {
    OpenCloseTwo(MAP_TYPE, es, k, e);
    if IsCritical(e.kind) {
      FoldRefuses(StepMap, es, k, e, EMPTY_MAP);
    } else {
      FoldIgnores(StepMap, es, k, e, EMPTY_MAP);
    }
  }
}
