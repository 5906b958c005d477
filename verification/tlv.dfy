/** Type-Length-Value blocks of the NDN Packet Format Specification v0.3, section
    "Type-Length-Value (TLV) Encoding": variable-size type and length numbers, non-negative
    integers, nested blocks and names. */
module Tlv {
  import opened Names

  type Bytes = seq<Byte>

  datatype Option<+T> = None | Some(value: T)

  const TWO_8 := 0x100
  const TWO_16 := 0x1_0000
  const TWO_32 := 0x1_0000_0000
  const TWO_64 := 0x1_0000_0000_0000_0000

  // ----- Big-endian numbers -----

  function BigEndian(n: nat, size: nat): (b: Bytes)
    ensures |b| == size
  {
    if size == 0 then [] else BigEndian(n / 256, size - 1) + [n % 256]
  }

  function FromBigEndian(b: Bytes): nat {
    if b == [] then 0 else FromBigEndian(b[..|b| - 1]) * 256 + b[|b| - 1]
  }

  function Power256(k: nat): nat {
    if k == 0 then 1 else 256 * Power256(k - 1)
  }

  lemma {:induction false} BigEndianRoundTrip(n: nat, size: nat)
    requires n < Power256(size)
    ensures FromBigEndian(BigEndian(n, size)) == n
  {
    if size > 0 {
      BigEndianRoundTrip(n / 256, size - 1);
      assert BigEndian(n, size)[..size - 1] == BigEndian(n / 256, size - 1);
    }
  }

  lemma {:induction false} FromBigEndianRoundTrip(b: Bytes)
    ensures FromBigEndian(b) < Power256(|b|)
    ensures BigEndian(FromBigEndian(b), |b|) == b
  {
    if b != [] {
      FromBigEndianRoundTrip(b[..|b| - 1]);
      assert b == b[..|b| - 1] + [b[|b| - 1]];
    }
  }

  lemma Powers()
    ensures Power256(1) == TWO_8 && Power256(2) == TWO_16 && Power256(4) == TWO_32 && Power256(8) == TWO_64
  {
    assert Power256(3) == 256 * Power256(2);
    assert Power256(4) == 256 * Power256(3);
    assert Power256(5) == 256 * Power256(4);
    assert Power256(6) == 256 * Power256(5);
    assert Power256(7) == 256 * Power256(6);
  }

  // ----- Variable-size numbers -----

  /** Octets that follow the first one of a variable-size number. */
  function VarWidth(first: Byte): nat {
    if first < 253 then 0 else if first == 253 then 2 else if first == 254 then 4 else 8
  }

  function EncodeVar(n: nat): (b: Bytes)
    ensures b != [] && |b| == 1 + VarWidth(b[0])
  {
    if n < 253 then [n]
    else if n < TWO_16 then [253] + BigEndian(n, 2)
    else if n < TWO_32 then [254] + BigEndian(n, 4)
    else [255] + BigEndian(n, 8)
  }

  /** Reads a variable-size number: its value and the octets it took. Only the shortest
      form of a number is accepted. */
  function ReadVar(b: Bytes): (r: Option<(nat, nat)>)
    ensures r.Some? ==> 1 <= r.value.1 <= |b|
  {
    if b == [] || |b| < 1 + VarWidth(b[0]) then None
    else
      var width := VarWidth(b[0]);
      var n := if width == 0 then b[0] else FromBigEndian(b[1..1 + width]);
      if |EncodeVar(n)| == 1 + width then Some((n, 1 + width)) else None
  }

  lemma ReadVarEncoded(n: nat, rest: Bytes)
    requires n < TWO_64
    ensures ReadVar(EncodeVar(n) + rest) == Some((n, |EncodeVar(n)|))
  {
    var b := EncodeVar(n);
    var width := VarWidth(b[0]);
    assert (b + rest)[0] == b[0];
    if width > 0 {
      Powers();
      assert b[1..] == BigEndian(n, width);
      BigEndianRoundTrip(n, width);
      assert (b + rest)[1..1 + width] == b[1..];
    }
  }

  lemma ReadVarCanonical(b: Bytes)
    requires ReadVar(b).Some?
    ensures ReadVar(b).value.0 < TWO_64
    ensures b[..ReadVar(b).value.1] == EncodeVar(ReadVar(b).value.0)
  {
    var (n, k) := ReadVar(b).value;
    var width := VarWidth(b[0]);
    if width > 0 {
      Powers();
      FromBigEndianRoundTrip(b[1..1 + width]);
      assert b[..k] == [b[0]] + b[1..1 + width];
    }
  }

  lemma TwoOctets(n: nat)
    requires n < TWO_16
    ensures BigEndian(n, 2) == [n / 256, n % 256]
  {
    assert BigEndian(n / 256, 1) == BigEndian(n / 256 / 256, 0) + [n / 256 % 256];
    assert n / 256 < 256;
  }

  lemma FromTwoOctets(a: Byte, b: Byte)
    ensures FromBigEndian([a, b]) == a * 256 + b
  {
    assert [a, b][..1] == [a] && [a][..0] == [];
    assert FromBigEndian([a]) == a;
  }

  /** Each octet counts 256 times the next. */
  lemma {:induction false} FromBigEndianHead(a: Byte, rest: Bytes)
    ensures FromBigEndian([a] + rest) == a * Power256(|rest|) + FromBigEndian(rest)
    decreases |rest|
  {
    if rest == [] {
      assert [a] + rest == [a] && [a][..0] == [];
    } else {
      var front := rest[..|rest| - 1];
      assert ([a] + rest)[..|rest|] == [a] + front;
      FromBigEndianHead(a, front);
      ShiftOctets(a, Power256(|front|), FromBigEndian(front));
    }
  }

  lemma ShiftOctets(a: nat, power: nat, n: nat)
    ensures (a * power + n) * 256 == a * (256 * power) + n * 256
  {
  }

  /** The octets of a variable-size number: the shortest of one octet, or a marker and two,
      four or eight octets, the most significant first. */
  lemma EncodeVarOctets(n: nat)
    requires n < TWO_64
    ensures n < 253 ==> EncodeVar(n) == [n]
    ensures 253 <= n < TWO_16 ==> EncodeVar(n) == [253, n / 256, n % 256]
    ensures TWO_16 <= n < TWO_32 ==>
      |EncodeVar(n)| == 5 && EncodeVar(n)[0] == 254 && FromBigEndian(EncodeVar(n)[1..]) == n
    ensures TWO_32 <= n ==>
      |EncodeVar(n)| == 9 && EncodeVar(n)[0] == 255 && FromBigEndian(EncodeVar(n)[1..]) == n
  {
    Powers();
    if 253 <= n < TWO_16 {
      TwoOctets(n);
    } else if TWO_16 <= n < TWO_32 {
      BigEndianRoundTrip(n, 4);
      assert EncodeVar(n)[1..] == BigEndian(n, 4);
    } else if TWO_32 <= n {
      BigEndianRoundTrip(n, 8);
      assert EncodeVar(n)[1..] == BigEndian(n, 8);
    }
  }

  function TwoOctetNumber(a: nat, b: nat): nat {
    a * 256 + b
  }

  /** The number at the front of some octets, if any: the form must be complete, and the
      number too large for the next shorter form. */
  function VarAt(b: Bytes): Option<(nat, nat)> {
    if b == [] then None
    else if b[0] < 253 then Some((b[0], 1))
    else if b[0] == 253 then
      if |b| < 3 || TwoOctetNumber(b[1], b[2]) < 253 then None else Some((TwoOctetNumber(b[1], b[2]), 3))
    else if b[0] == 254 then
      if |b| < 5 || FromBigEndian(b[1..5]) < TWO_16 then None else Some((FromBigEndian(b[1..5]), 5))
    else
      if |b| < 9 || FromBigEndian(b[1..9]) < TWO_32 then None else Some((FromBigEndian(b[1..9]), 9))
  }

  /** Reading accepts exactly the shortest forms. */
  lemma ReadVarOctets(b: Bytes)
    ensures ReadVar(b) == VarAt(b)
  {
    Powers();
    if b != [] && |b| >= 1 + VarWidth(b[0]) {
      var width := VarWidth(b[0]);
      FromBigEndianRoundTrip(b[1..1 + width]);
      if width == 2 {
        assert b[1..3] == [b[1], b[2]];
        FromTwoOctets(b[1], b[2]);
      }
      var n := if width == 0 then b[0] else FromBigEndian(b[1..1 + width]);
      EncodeVarOctets(n);
    }
  }

  // ----- Non-negative integers: 1, 2, 4 or 8 octets -----

  function EncodeNni(n: nat): Bytes {
    if n < TWO_8 then BigEndian(n, 1)
    else if n < TWO_16 then BigEndian(n, 2)
    else if n < TWO_32 then BigEndian(n, 4)
    else BigEndian(n, 8)
  }

  function ReadNni(b: Bytes): Option<nat> {
    if |b| in {1, 2, 4, 8} then Some(FromBigEndian(b)) else None
  }

  lemma NniRoundTrip(n: nat)
    requires n < TWO_64
    ensures ReadNni(EncodeNni(n)) == Some(n)
  {
    Powers();
    BigEndianRoundTrip(n, |EncodeNni(n)|);
  }

  /** The octets of a non-negative integer: the fewest of one, two, four or eight that hold it. */
  lemma NniOctets(n: nat)
    requires n < TWO_64
    ensures n < TWO_8 ==> EncodeNni(n) == [n]
    ensures TWO_8 <= n < TWO_16 ==> EncodeNni(n) == [n / 256, n % 256]
    ensures TWO_16 <= n < TWO_32 ==> |EncodeNni(n)| == 4 && FromBigEndian(EncodeNni(n)) == n
    ensures TWO_32 <= n ==> |EncodeNni(n)| == 8 && FromBigEndian(EncodeNni(n)) == n
  {
    Powers();
    if n < TWO_8 {
      assert BigEndian(n, 1) == BigEndian(n / 256, 0) + [n % 256];
    } else if n < TWO_16 {
      TwoOctets(n);
    } else {
      BigEndianRoundTrip(n, |EncodeNni(n)|);
    }
  }

  // ----- Elements -----

  datatype Element = Element(kind: nat, value: Bytes)

  predicate WellFormedElement(e: Element) {
    1 <= e.kind < TWO_32 && |e.value| < TWO_64
  }

  function EncodeElement(e: Element): (b: Bytes)
    ensures |b| >= 2 && |b| > |e.value|
  {
    EncodeVar(e.kind) + EncodeVar(|e.value|) + e.value
  }

  function EncodeElements(es: seq<Element>): Bytes {
    if es == [] then [] else EncodeElement(es[0]) + EncodeElements(es[1..])
  }

  /** Reads the element at the front: the element and the octets after it. */
  function ReadElement(b: Bytes): (r: Option<(Element, Bytes)>)
    ensures r.Some? ==> |r.value.1| < |b|
  {
    match ReadVar(b)
    case None => None
    case Some((kind, k)) =>
      if !(1 <= kind < TWO_32) then None
      else
        match ReadVar(b[k..])
        case None => None
        case Some((size, l)) =>
          if |b| < k + l + size then None
          else Some((Element(kind, b[k + l..k + l + size]), b[k + l + size..]))
  }

  function ParseElements(b: Bytes): Option<seq<Element>>
    decreases |b|
  {
    if b == [] then Some([])
    else
      match ReadElement(b)
      case None => None
      case Some((e, rest)) =>
        match ParseElements(rest)
        case None => None
        case Some(es) => Some([e] + es)
  }

  /** The octets of a short element: type, length, value. */
  lemma ElementOctets(e: Element)
    requires e.kind < TWO_16 && |e.value| < 253
    ensures EncodeElement(e) ==
            (if e.kind < 253 then [e.kind] else [253, e.kind / 256, e.kind % 256]) + [|e.value|] + e.value
  {
    EncodeVarOctets(e.kind);
    EncodeVarOctets(|e.value|);
  }

  lemma ReadElementEncoded(e: Element, rest: Bytes)
    requires WellFormedElement(e)
    ensures ReadElement(EncodeElement(e) + rest) == Some((e, rest))
  {
    var t, l := EncodeVar(e.kind), EncodeVar(|e.value|);
    var b := EncodeElement(e) + rest;
    assert b == t + (l + (e.value + rest));
    ReadVarEncoded(e.kind, l + (e.value + rest));
    assert b[|t|..] == l + (e.value + rest);
    ReadVarEncoded(|e.value|, e.value + rest);
    assert b[|t| + |l|..|t| + |l| + |e.value|] == e.value;
    assert b[|t| + |l| + |e.value|..] == rest;
  }

  lemma ParseOneMore(e: Element, rest: Bytes)
    requires WellFormedElement(e)
    ensures ParseElements(EncodeElement(e) + rest) ==
            match ParseElements(rest) case None => None case Some(es) => Some([e] + es)
  {
    ReadElementEncoded(e, rest);
  }

  lemma {:induction false} ParseEncoded(es: seq<Element>)
    requires forall e :: e in es ==> WellFormedElement(e)
    ensures ParseElements(EncodeElements(es)) == Some(es)
  {
    if es != [] {
      ParseOneMore(es[0], EncodeElements(es[1..]));
      ParseEncoded(es[1..]);
      assert es == [es[0]] + es[1..];
    }
  }

  lemma CutInFour(b: Bytes, i: nat, j: nat, k: nat)
    requires i <= j <= k <= |b|
    ensures b == b[..i] + b[i..j] + b[j..k] + b[k..]
  {
  }

  lemma ReadElementCanonical(b: Bytes)
    requires ReadElement(b).Some?
    ensures WellFormedElement(ReadElement(b).value.0)
    ensures b == EncodeElement(ReadElement(b).value.0) + ReadElement(b).value.1
  {
    var (kind, k) := ReadVar(b).value;
    var (size, l) := ReadVar(b[k..]).value;
    ReadVarCanonical(b);
    ReadVarCanonical(b[k..]);
    assert b[k..][..l] == b[k..k + l];
    CutInFour(b, k, k + l, k + l + size);
  }

  /** There is one encoding only: whatever parses is what its elements encode to. */
  lemma {:induction false} ParseCanonical(b: Bytes)
    requires ParseElements(b).Some?
    ensures EncodeElements(ParseElements(b).value) == b
    ensures forall e :: e in ParseElements(b).value ==> WellFormedElement(e)
    decreases |b|
  {
    if b != [] {
      ReadElementCanonical(b);
      ParseCanonical(ReadElement(b).value.1);
    }
  }

  lemma {:induction false} EncodeElementsAppend(a: seq<Element>, b: seq<Element>)
    ensures EncodeElements(a + b) == EncodeElements(a) + EncodeElements(b)
  {
    if a == [] {
      assert a + b == b;
    } else {
      assert (a + b)[1..] == a[1..] + b;
      EncodeElementsAppend(a[1..], b);
    }
  }

  /** The evolvability rule: numbers below 32 and odd numbers must be understood. */
  predicate IsCritical(kind: nat) {
    kind <= 31 || kind % 2 == 1
  }

  /** An even number is critical only below 32. */
  lemma CriticalTypes(k: nat)
    ensures IsCritical(2 * k + 1)
    ensures IsCritical(2 * k) <==> k < 16
  {
  }

  // ----- Names -----

  const NAME_TYPE := 7

  predicate WellFormedComponent(c: Component) {
    && 1 <= c.kind < TWO_16
    && (c.kind in {1, 2} ==> |c.value| == 32)  // digests are 32 octets
    && |c.value| < TWO_64
  }

  predicate WellFormedName(n: Name) {
    && (forall c :: c in n ==> WellFormedComponent(c))
    && |NameElement(n).value| < TWO_64
  }

  function ComponentElements(n: Name): (es: seq<Element>)
    ensures |es| == |n|
  {
    seq(|n|, i requires 0 <= i < |n| => Element(n[i].kind, n[i].value))
  }

  function NameElement(n: Name): Element {
    Element(NAME_TYPE, EncodeElements(ComponentElements(n)))
  }

  function DecodeName(e: Element): Option<Name> {
    if e.kind != NAME_TYPE then None
    else
      match ParseElements(e.value)
      case None => None
      case Some(es) =>
        if forall c :: c in es ==> WellFormedComponent(Component(c.kind, c.value))
        then Some(seq(|es|, i requires 0 <= i < |es| => Component(es[i].kind, es[i].value)))
        else None
  }

  lemma NameRoundTrip(n: Name)
    requires WellFormedName(n)
    ensures DecodeName(NameElement(n)) == Some(n)
    ensures WellFormedElement(NameElement(n))
  {
    var es := ComponentElements(n);
    forall e | e in es ensures WellFormedComponent(Component(e.kind, e.value)) && WellFormedElement(e) {
      var i :| 0 <= i < |es| && es[i] == e;
      assert n[i] in n;
    }
    ParseEncoded(es);
    var back := seq(|es|, i requires 0 <= i < |es| => Component(es[i].kind, es[i].value));
    forall i | 0 <= i < |n| ensures back[i] == n[i] {
    }
    assert back == n;
  }

  /** A block is a name exactly when it has type 7 and its components have types up to 65535,
      those of type 1 and 2 being digests of 32 octets. */
  lemma DecodeNameIff(kind: nat, es: seq<Element>)
    requires forall e :: e in es ==> WellFormedElement(e)
    ensures DecodeName(Element(kind, EncodeElements(es))).Some? <==>
            kind == 7 && forall e :: e in es ==> e.kind <= 65535 && ((e.kind == 1 || e.kind == 2) ==> |e.value| == 32)
  {
    ParseEncoded(es);
    forall e | e in es
      ensures WellFormedComponent(Component(e.kind, e.value)) <==>
              e.kind <= 65535 && ((e.kind == 1 || e.kind == 2) ==> |e.value| == 32)
    {
      assert WellFormedElement(e);
    }
  }

  /** The names in a block that holds names one after the other. */
  function DecodeNames(es: seq<Element>): Option<seq<Name>> {
    if es == [] then Some([])
    else
      match DecodeName(es[0])
      case None => None
      case Some(n) =>
        match DecodeNames(es[1..])
        case None => None
        case Some(ns) => Some([n] + ns)
  }

  function NameElements(ns: seq<Name>): (es: seq<Element>)
    ensures |es| == |ns|
  {
    seq(|ns|, i requires 0 <= i < |ns| => NameElement(ns[i]))
  }

  lemma NamesParse(ns: seq<Name>)
    requires forall n :: n in ns ==> WellFormedName(n)
    ensures ParseElements(EncodeElements(NameElements(ns))) == Some(NameElements(ns))
  {
    forall e | e in NameElements(ns) ensures WellFormedElement(e) {
      var i :| 0 <= i < |ns| && NameElements(ns)[i] == e;
      NameRoundTrip(ns[i]);
    }
    ParseEncoded(NameElements(ns));
  }

  lemma NamesOneMore(n: Name, ns: seq<Name>)
    requires WellFormedName(n)
    ensures NameElements([n] + ns) == [NameElement(n)] + NameElements(ns)
    ensures DecodeNames([NameElement(n)] + NameElements(ns)) ==
            match DecodeNames(NameElements(ns)) case None => None case Some(back) => Some([n] + back)
  {
    var es := [NameElement(n)] + NameElements(ns);
    NameRoundTrip(n);
    assert es[0] == NameElement(n) && es[1..] == NameElements(ns);
  }

  lemma {:induction false} NamesRoundTrip(ns: seq<Name>)
    requires forall n :: n in ns ==> WellFormedName(n)
    ensures DecodeNames(NameElements(ns)) == Some(ns)
  {
    if ns != [] {
      NamesOneMore(ns[0], ns[1..]);
      NamesRoundTrip(ns[1..]);
      assert ns == [ns[0]] + ns[1..];
    }
  }
}
