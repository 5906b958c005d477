/** Whole blocks octet by octet, as the format and the type numbers of the ledger fix them. */
module WireVectors {
  import opened Names
  import opened Tlv
  import opened Policies
  import opened DagSpec
  import opened Codec
  import opened IndexCodec

  lemma OneElement(e: Element)
    ensures EncodeElements([e]) == EncodeElement(e)
  {
    assert [e][1..] == [];
  }

  lemma TwoElements(e: Element, f: Element)
    ensures EncodeElements([e, f]) == EncodeElement(e) + EncodeElement(f)
  {
    assert [e, f] == [e] + [f];
    EncodeElementsAppend([e], [f]);
    OneElement(e);
    OneElement(f);
  }

  lemma ThreeElements(es: seq<Element>, a: Bytes, b: Bytes, c: Bytes)
    requires |es| == 3
    requires EncodeElement(es[0]) == a && EncodeElement(es[1]) == b && EncodeElement(es[2]) == c
    ensures EncodeElements(es) == a + b + c
  {
    assert es == [es[0], es[1]] + [es[2]];
    EncodeElementsAppend([es[0], es[1]], [es[2]]);
    TwoElements(es[0], es[1]);
    OneElement(es[2]);
  }

  /** An element of a type below 253, or of one written with a marker and two octets. */
  lemma Short(kind: nat, value: Bytes, octets: Bytes)
    requires kind < TWO_16 && |value| < 253
    requires octets == (if kind < 253 then [kind] else [253, kind / 256, kind % 256]) + [|value|] + value
    ensures EncodeElement(Element(kind, value)) == octets
  {
    ElementOctets(Element(kind, value));
  }

  /** The record name /letter. */
  lemma PlainOctets(letter: Byte)
    ensures EncodeElement(NameElement(Plain(letter))) == [7, 3, 8, 1, letter]
    ensures NameElements([Plain(letter)]) == [NameElement(Plain(letter))]
  {
    var e := Element(8, [letter]);
    assert ComponentElements(Plain(letter)) == [e];
    OneElement(e);
    ElementOctets(e);
    ElementOctets(NameElement(Plain(letter)));
  }

  /** The state name of the record /letter. */
  lemma StateNameOctets(letter: Byte)
    ensures EncodeElement(NameElement(ToStateName(Plain(letter)))) ==
            [7, 14, 32, 9, 69, 100, 103, 101, 83, 116, 97, 116, 101, 8, 1, letter]
  {
    var n := ToStateName(Plain(letter));
    var head, e := Element(32, EDGE_STATE_KEYWORD), Element(8, [letter]);
    assert ComponentElements(n) == [head, e];
    TwoElements(head, e);
    ElementOctets(head);
    ElementOctets(e);
    ElementOctets(NameElement(n));
  }

  lemma PointerOctets()
    ensures EncodeElements(NameElements([Plain(2)])) == [7, 3, 8, 1, 2]
  {
    PlainOctets(2);
    OneElement(NameElement(Plain(2)));
  }

  lemma NniOfOne(n: Byte)
    ensures EncodeNni(n) == [n]
  {
    NniOctets(n);
  }

  lemma ContentParts(r: Record)
    requires r.rtype == 1 && r.pointers == [Plain(2)] && r.payload == [7]
    ensures ContentElements(r) == [Element(211, [1]), Element(212, [7, 3, 8, 1, 2]), Element(213, [7])]
  {
    NniOfOne(1);
    PointerOctets();
  }

  /** The content of a generic record that points at /2 and carries one octet. */
  lemma ContentOctets(r: Record)
    requires r.rtype == 1 && r.pointers == [Plain(2)] && r.payload == [7]
    ensures EncodeElements(ContentElements(r)) == [211, 1, 1] + [212, 5, 7, 3, 8, 1, 2] + [213, 1, 7]
  {
    ContentParts(r);
    Short(211, [1], [211, 1, 1]);
    Short(212, [7, 3, 8, 1, 2], [212, 5, 7, 3, 8, 1, 2]);
    Short(213, [7], [213, 1, 7]);
    ThreeElements(ContentElements(r), [211, 1, 1], [212, 5, 7, 3, 8, 1, 2], [213, 1, 7]);
  }

  const STATE_NAME_1: Bytes := [7, 14, 32, 9, 69, 100, 103, 101, 83, 116, 97, 116, 101, 8, 1, 1]
  const STATE_NAME_3: Bytes := [7, 14, 32, 9, 69, 100, 103, 101, 83, 116, 97, 116, 101, 8, 1, 3]
  const CONTENT_1: Bytes := [211, 1, 1] + [212, 5, 7, 3, 8, 1, 2] + [213, 1, 7]

  lemma HeadParts(w: WireState)
    requires w.stateName == ToStateName(Plain(1)) && w.status == 2
    requires w.record.rtype == 1 && w.record.pointers == [Plain(2)] && w.record.payload == [7]
    ensures EdgeHead(w) == [NameElement(ToStateName(Plain(1))), Element(312, [2]), Element(21, CONTENT_1)]
  {
    ContentOctets(w.record);
    NniOfOne(2);
  }

  /** The elements an edge state begins with. */
  lemma HeadOctets(w: WireState)
    requires w.stateName == ToStateName(Plain(1)) && w.status == 2
    requires w.record.rtype == 1 && w.record.pointers == [Plain(2)] && w.record.payload == [7]
    ensures EncodeElements(EdgeHead(w)) == STATE_NAME_1 + [253, 1, 56, 1, 2] + ([21, 13] + CONTENT_1)
  {
    HeadParts(w);
    StateNameOctets(1);
    Short(312, [2], [253, 1, 56, 1, 2]);
    Short(21, CONTENT_1, [21, 13] + CONTENT_1);
    ThreeElements(EdgeHead(w), STATE_NAME_1, [253, 1, 56, 1, 2], [21, 13] + CONTENT_1);
  }

  lemma TailOctets(w: WireState)
    requires w.created == [1] && w.interlocked == [2]
    ensures EncodeElements(EdgeTail(w)) == [253, 1, 58, 1, 1] + [253, 1, 59, 1, 2]
  {
    var es := EdgeTail(w);
    Short(314, [1], [253, 1, 58, 1, 1]);
    Short(315, [2], [253, 1, 59, 1, 2]);
    TwoElements(es[0], es[1]);
  }

  lemma DescendantsOctets()
    ensures EncodeElements(NamesElement(EDGE_STATE_DESCENDANTS, [ToStateName(Plain(3))])) == [253, 1, 57, 16] + STATE_NAME_3
  {
    var n := ToStateName(Plain(3));
    assert NameElements([n]) == [NameElement(n)];
    OneElement(NameElement(n));
    StateNameOctets(3);
    Short(313, STATE_NAME_3, [253, 1, 57, 16] + STATE_NAME_3);
    OneElement(Element(313, STATE_NAME_3));
  }

  lemma SortedOne(n: Name)
    ensures Sorted({n}) == [n]
  {
    SortedSize({n});
    assert Sorted({n})[0] in Sorted({n});
  }

  lemma ThreeParts(a: seq<Element>, b: seq<Element>, c: seq<Element>, x: Bytes, y: Bytes, z: Bytes)
    requires EncodeElements(a) == x && EncodeElements(b) == y && EncodeElements(c) == z
    ensures EncodeElements(a + b + c) == x + y + z
  {
    EncodeElementsAppend(a + b, c);
    EncodeElementsAppend(a, b);
  }

  const HEAD_1: Bytes := STATE_NAME_1 + [253, 1, 56, 1, 2] + ([21, 13] + CONTENT_1)
  const DESCENDANTS_1: Bytes := [253, 1, 57, 16] + STATE_NAME_3
  const TIMES_1: Bytes := [253, 1, 58, 1, 1] + [253, 1, 59, 1, 2]

  /** A loaded state with one descendant, written whole: type 311, then name, status 312,
      content 21 of elements 211 to 213, descendants 313 and the two times 314 and 315. */
  lemma EdgeStateOctets(w: WireState)
    requires w.stateName == ToStateName(Plain(1)) && w.status == StatusCode(LOADED)
    requires w.record.rtype == GENERIC_RECORD && w.record.pointers == [Plain(2)] && w.record.payload == [7]
    requires w.descendants == {ToStateName(Plain(3))} && w.created == [1] && w.interlocked == [2]
    ensures Close(EDGE_STATE_TYPE, EdgeElements(w)) == [253, 1, 55, 66] + (HEAD_1 + DESCENDANTS_1 + TIMES_1)
  {
    var d := ToStateName(Plain(3));
    SortedOne(d);
    HeadOctets(w);
    DescendantsOctets();
    TailOctets(w);
    ThreeParts(EdgeHead(w), NamesElement(EDGE_STATE_DESCENDANTS, [d]), EdgeTail(w), HEAD_1, DESCENDANTS_1, TIMES_1);
    WholeOctets();
    assert EncodeElements(EdgeElements(w)) == HEAD_1 + DESCENDANTS_1 + TIMES_1;
  }

  lemma WholeOctets()
    ensures |HEAD_1 + DESCENDANTS_1 + TIMES_1| == 66
    ensures EncodeElement(Element(311, HEAD_1 + DESCENDANTS_1 + TIMES_1)) ==
            [253, 1, 55, 66] + (HEAD_1 + DESCENDANTS_1 + TIMES_1)
  {
    Short(311, HEAD_1 + DESCENDANTS_1 + TIMES_1, [253, 1, 55, 66] + (HEAD_1 + DESCENDANTS_1 + TIMES_1));
  }

  /** The three states a state can be in are written 0, 2 and 3. */
  lemma StatusNumbers(s: EdgeState, created: Bytes, interlocked: Bytes)
    ensures ToWire(s, created, interlocked).status ==
            match s.status case INITIALIZED => 0 case LOADED => 2 case INTERLOCKED => 3
  {
  }

  lemma NestedOctets(letter: Byte)
    ensures Nested(Plain(letter)) == [7, 3, 8, 1, letter]
    ensures EncodeElements(NameElements([Plain(letter)])) == [7, 3, 8, 1, letter]
  {
    PlainOctets(letter);
    OneElement(NameElement(Plain(letter)));
  }

  lemma ListHeadParts()
    ensures [Element(352, Nested(Plain(1))), Element(353, EncodeNni(5))] == [Element(352, [7, 3, 8, 1, 1]), Element(353, [5])]
  {
    NestedOctets(1);
    NniOfOne(5);
  }

  lemma ListHeadOctets()
    ensures EncodeElements([Element(352, Nested(Plain(1))), Element(353, EncodeNni(5))]) ==
            [253, 1, 96, 5, 7, 3, 8, 1, 1] + [253, 1, 97, 1, 5]
  {
    ListHeadParts();
    Short(352, [7, 3, 8, 1, 1], [253, 1, 96, 5, 7, 3, 8, 1, 1]);
    Short(353, [5], [253, 1, 97, 1, 5]);
    TwoElements(Element(352, [7, 3, 8, 1, 1]), Element(353, [5]));
  }

  lemma ListValueOctets()
    ensures EncodeElements(NamesElement(LIST_VALUE, [Plain(2)])) == [253, 1, 98, 5, 7, 3, 8, 1, 2]
    ensures EncodeElements([Element(LIST_NEXT, Nested(Plain(3)))]) == [253, 1, 99, 5, 7, 3, 8, 1, 3]
  {
    NestedOctets(2);
    NestedOctets(3);
    Short(354, [7, 3, 8, 1, 2], [253, 1, 98, 5, 7, 3, 8, 1, 2]);
    Short(355, [7, 3, 8, 1, 3], [253, 1, 99, 5, 7, 3, 8, 1, 3]);
    OneElement(Element(354, [7, 3, 8, 1, 2]));
    OneElement(Element(355, [7, 3, 8, 1, 3]));
  }

  const LIST_1: Bytes :=
    ([253, 1, 96, 5, 7, 3, 8, 1, 1] + [253, 1, 97, 1, 5]) + [253, 1, 98, 5, 7, 3, 8, 1, 2] + [253, 1, 99, 5, 7, 3, 8, 1, 3]

  /** A list of one state name, written whole: type 351, then 352 to 355. */
  lemma StateListOctets(l: EdgeStateList)
    requires l.listName == Plain(1) && l.key == 5 && l.value == {Plain(2)} && l.nextList == Plain(3)
    ensures Close(LIST_TYPE, ListElements(l)) == [253, 1, 95, 32] + LIST_1
  {
    SortedOne(Plain(2));
    ListHeadOctets();
    ListValueOctets();
    ThreeParts([Element(LIST_NAME, Nested(Plain(1))), Element(LIST_KEY, EncodeNni(5))],
               NamesElement(LIST_VALUE, [Plain(2)]), [Element(LIST_NEXT, Nested(Plain(3)))],
               [253, 1, 96, 5, 7, 3, 8, 1, 1] + [253, 1, 97, 1, 5],
               [253, 1, 98, 5, 7, 3, 8, 1, 2], [253, 1, 99, 5, 7, 3, 8, 1, 3]);
    Short(351, LIST_1, [253, 1, 95, 32] + LIST_1);
    assert EncodeElements(ListElements(l)) == LIST_1;
  }

  /** A payload map, written whole: type 381, the map name, then 382. */
  lemma PayloadMapOctets(m: PayloadMap)
    requires m.mapName == Plain(1) && m.mapTo == Plain(2)
    ensures EncodePayloadMap(m) == [253, 1, 125, 14] + ([7, 3, 8, 1, 1] + [253, 1, 126, 5, 7, 3, 8, 1, 2])
  {
    NestedOctets(1);
    NestedOctets(2);
    Short(382, [7, 3, 8, 1, 2], [253, 1, 126, 5, 7, 3, 8, 1, 2]);
    TwoElements(NameElement(Plain(1)), Element(382, [7, 3, 8, 1, 2]));
    var value := [7, 3, 8, 1, 1] + [253, 1, 126, 5, 7, 3, 8, 1, 2];
    Short(381, value, [253, 1, 125, 14] + value);
    assert EncodeElements(MapElements(m)) == value;
  }

  /** The names of lists and maps: a keyword component, then the key or the digest. */
  lemma IndexNameText(key: nat, digest: Bytes -> Bytes, payload: Bytes)
    requires key < 256
    ensures ToStateListName(key) == [Component(32, Octets("EdgeStateList")), Component(8, [key])]
    ensures StateListNull() == [Component(32, Octets("EdgeStateList")), Component(8, Octets("null"))]
    ensures ToMapName(digest, payload) == [Component(32, Octets("PayloadMap")), Component(2, digest(payload))]
  {
    NniOctets(key);
    assert Octets("EdgeStateList") == LIST_KEYWORD && Octets("null") == NULL_TEXT && Octets("PayloadMap") == MAP_KEYWORD;
  }
}
