/** Names and records as the ledger sees them: hierarchical names made of typed
    components, and the record a ledger instance publishes under such a name. */
module Names {

  type Byte = n: int | 0 <= n < 256

  /** A name component: its TLV type number and its octets. */
  datatype Component = Component(kind: nat, value: seq<Byte>)

  type Name = seq<Component>

  // Component type of a keyword component in the NDN naming convention.
  const KEYWORD_COMPONENT := 32

  // The octets of "EdgeState".
  const EDGE_STATE_KEYWORD: seq<Byte> := [69, 100, 103, 101, 83, 116, 97, 116, 101]

  const STATE_HEADER := Component(KEYWORD_COMPONENT, EDGE_STATE_KEYWORD)

  // Record types.
  const GENERIC_RECORD := 1
  const GENESIS_RECORD := 4
  const REPLY_RECORD := 5

  datatype Record = Record(name: Name, rtype: nat, pointers: seq<Name>, payload: seq<Byte>) {
    predicate IsGenesis() {
      rtype == GENESIS_RECORD
    }

    predicate IsReply() {
      rtype == REPLY_RECORD
    }
  }

  /** The numbers of the record types. */
  lemma RecordTypeNumbers(r: Record)
    ensures r.IsGenesis() <==> r.rtype == 4
    ensures r.IsReply() <==> r.rtype == 5
    ensures r.rtype == GENERIC_RECORD <==> r.rtype == 1
  {
  }

  /** The name under which the edge state of a record is stored. */
  function ToStateName(recordName: Name): (stateName: Name)
    ensures FromStateName(stateName) == recordName
  {
    [STATE_HEADER] + recordName
  }

  /** Drops the first component; the empty name stays empty. */
  function FromStateName(stateName: Name): Name {
    if stateName == [] then [] else stateName[1..]
  }

  lemma ToStateNameInjective(a: Name, b: Name)
    requires ToStateName(a) == ToStateName(b)
    ensures a == b
  {
    assert a == FromStateName(ToStateName(a)) == FromStateName(ToStateName(b)) == b;
  }

  function Octets(text: string): (octets: seq<Byte>)
    requires forall i :: 0 <= i < |text| ==> text[i] as int < 256
    ensures |octets| == |text|
  {
    seq(|text|, i requires 0 <= i < |text| => var octet: Byte := text[i] as int; octet)
  }

  /** A state name is the keyword component that reads "EdgeState", then the record name. */
  lemma StateNameText(n: Name)
    ensures ToStateName(n) == [Component(32, Octets("EdgeState"))] + n
  {
    assert Octets("EdgeState") == EDGE_STATE_KEYWORD;
  }

  /** Any first component is dropped, whatever it is. */
  lemma FromStateNameDrops(c: Component, n: Name)
    ensures FromStateName([c] + n) == n && FromStateName([]) == []
  {
    assert ([c] + n)[1..] == n;
  }

  /** The state names a record points at. */
  function Parents(r: Record): set<Name> {
    set p | p in r.pointers :: ToStateName(p)
  }

  /** A name of one generic component that is one letter. */
  function Plain(letter: Byte): Name {
    [Component(8, [letter])]
  }

  /** Some name lies outside any finite set of names. */
  lemma FreshName(used: set<Name>) returns (n: Name)
    ensures ToStateName(n) !in used
  {
    var bound := LengthBound(used);
    n := seq(bound, _ => STATE_HEADER);
    assert |ToStateName(n)| == bound + 1;
  }

  lemma LengthBound(used: set<Name>) returns (bound: nat)
    ensures forall n :: n in used ==> |n| <= bound
  {
    bound := 0;
    var todo := used;
    while todo != {}
      invariant todo <= used
      invariant forall n :: n in used - todo ==> |n| <= bound
    {
      var n :| n in todo;
      todo := todo - {n};
      if |n| > bound {
        bound := |n|;
      }
    }
  }
}
