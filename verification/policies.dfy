/** The two interlock policies: count every descendant, or one per producer. */
module Policies {
  import opened Names
  import opened DagSpec
  import opened Sets

  // ----- Canonical order of names -----

  /** Lexicographic order on numbers, a proper prefix being smaller. */
  predicate Lex(a: seq<nat>, b: seq<nat>) {
    if b == [] then false
    else if a == [] then true
    else a[0] < b[0] || (a[0] == b[0] && Lex(a[1..], b[1..]))
  }

  lemma {:induction false} LexTransitive(a: seq<nat>, b: seq<nat>, c: seq<nat>)
    requires Lex(a, b) && Lex(b, c)
    ensures Lex(a, c)
    decreases |a|
  {
    if a != [] && a[0] == b[0] && b[0] == c[0] {
      LexTransitive(a[1..], b[1..], c[1..]);
    }
  }

  lemma {:induction false} LexIrreflexive(a: seq<nat>)
    ensures !Lex(a, a)
  {
    if a != [] {
      LexIrreflexive(a[1..]);
    }
  }

  lemma {:induction false} LexTotal(a: seq<nat>, b: seq<nat>)
    ensures a == b || Lex(a, b) || Lex(b, a)
    ensures !(Lex(a, b) && Lex(b, a))
    decreases |a|
  {
    LexIrreflexive(a);
    if a != [] && b != [] && a[0] == b[0] {
      LexTotal(a[1..], b[1..]);
      if a[1..] == b[1..] {
        assert a == [a[0]] + a[1..] == b;
      }
    }
  }

  /** Components compare by type, then length, then octets. */
  function ComponentKey(c: Component): seq<nat> {
    [c.kind, |c.value|] + c.value
  }

  /** Names compare component by component; a proper prefix is smaller. */
  function Key(n: Name): seq<nat> {
    if n == [] then [] else ComponentKey(n[0]) + Key(n[1..])
  }

  predicate Less(a: Name, b: Name) {
    Lex(Key(a), Key(b))
  }

  lemma {:induction false} KeyInjective(a: Name, b: Name)
    requires Key(a) == Key(b)
    ensures a == b
    decreases |a|
  {
    if a == [] || b == [] {
      assert a == [] <==> Key(a) == [];
      assert b == [] <==> Key(b) == [];
    } else {
      var ka, kb := ComponentKey(a[0]), ComponentKey(b[0]);
      assert Key(a)[0] == ka[0] == a[0].kind && Key(b)[0] == kb[0] == b[0].kind;
      assert Key(a)[1] == ka[1] == |a[0].value| && Key(b)[1] == kb[1] == |b[0].value|;
      assert Key(a)[..|ka|] == ka && Key(b)[..|kb|] == kb;
      assert a[0].value == ka[2..] && b[0].value == kb[2..];
      assert a[0] == b[0];
      assert Key(a)[|ka|..] == Key(a[1..]) && Key(b)[|kb|..] == Key(b[1..]);
      KeyInjective(a[1..], b[1..]);
      assert a == [a[0]] + a[1..] == b;
    }
  }

  /** A finite non-empty set of names has a first one. */
  lemma {:induction false} First(names: set<Name>) returns (first: Name)
    requires names != {}
    ensures first in names && forall n :: n in names && n != first ==> Less(first, n)
    decreases |names|
  {
    var some :| some in names;
    first := some;
    var rest := names - {some};
    if rest != {} {
      var next := First(rest);
      LexTotal(Key(some), Key(next));
      if Key(some) == Key(next) {
        KeyInjective(some, next);
      }
      if Less(next, some) {
        first := next;
      } else {
        forall n | n in rest ensures Less(some, n) {
          if n != next {
            LexTransitive(Key(some), Key(next), Key(n));
          }
        }
      }
    }
    forall n | n in names && n != first ensures Less(first, n) {
      assert n == some || n in rest;
    }
  }

  lemma FirstExists(names: set<Name>)
    requires names != {}
    ensures exists first :: first in names && forall n :: n in names && n != first ==> Less(first, n)
  {
    var first := First(names);
  }

  lemma {:induction false} LexCommon(p: seq<nat>, a: seq<nat>, b: seq<nat>)
    ensures Lex(p + a, p + b) <==> Lex(a, b)
  {
    if p == [] {
      assert p + a == a && p + b == b;
    } else {
      assert (p + a)[1..] == p[1..] + a && (p + b)[1..] == p[1..] + b;
      LexCommon(p[1..], a, b);
    }
  }

  lemma {:induction false} KeyAppend(p: Name, q: Name)
    ensures Key(p + q) == Key(p) + Key(q)
  {
    if p == [] {
      assert p + q == q;
    } else {
      assert (p + q)[1..] == p[1..] + q;
      KeyAppend(p[1..], q);
    }
  }

  /** A proper prefix comes first. */
  lemma PrefixIsLess(p: Name, q: Name)
    requires q != []
    ensures Less(p, p + q)
  {
    KeyAppend(p, q);
    LexCommon(Key(p), [], Key(q));
    assert Key(p) + [] == Key(p);
  }

  /** Smaller type first, then shorter value, then the first octet that differs decides. */
  predicate ComponentLess(c: Component, d: Component) {
    || c.kind < d.kind
    || (c.kind == d.kind && |c.value| < |d.value|)
    || (c.kind == d.kind && |c.value| == |d.value| &&
        exists i :: 0 <= i < |c.value| && c.value[i] < d.value[i] && c.value[..i] == d.value[..i])
  }

  lemma LexAt(a: seq<nat>, b: seq<nat>, i: nat)
    requires i < |a| && i < |b| && a[..i] == b[..i] && a[i] < b[i]
    ensures Lex(a, b)
  {
    assert a == a[..i] + a[i..] && b == a[..i] + b[i..];
    LexCommon(a[..i], a[i..], b[i..]);
  }

  lemma ComponentKeysDecide(c: Component, d: Component, x: seq<nat>, y: seq<nat>)
    requires ComponentLess(c, d)
    ensures Lex(ComponentKey(c) + x, ComponentKey(d) + y)
  {
    var a, b := ComponentKey(c) + x, ComponentKey(d) + y;
    if c.kind < d.kind {
      LexAt(a, b, 0);
    } else if |c.value| < |d.value| {
      LexAt(a, b, 1);
    } else {
      var i :| 0 <= i < |c.value| && c.value[i] < d.value[i] && c.value[..i] == d.value[..i];
      assert a[..i + 2] == [c.kind, |c.value|] + c.value[..i];
      assert b[..i + 2] == [d.kind, |d.value|] + d.value[..i];
      LexAt(a, b, i + 2);
    }
  }

  /** The first components that differ decide, whatever follows them. */
  lemma ComponentsDecide(p: Name, c: Component, d: Component, x: Name, y: Name)
    requires ComponentLess(c, d)
    ensures Less(p + [c] + x, p + [d] + y)
  {
    var cx, dy := [c] + x, [d] + y;
    assert p + [c] + x == p + cx && p + [d] + y == p + dy;
    KeyAppend(p, cx);
    KeyAppend(p, dy);
    assert cx[1..] == x && dy[1..] == y;
    ComponentKeysDecide(c, d, Key(x), Key(y));
    LexCommon(Key(p), Key(cx), Key(dy));
  }

  /** Names in the canonical order of an ordered set. */
  ghost function Sorted(names: set<Name>): (ns: seq<Name>)
    ensures forall n :: n in ns <==> n in names
    decreases |names|
  {
    if names == {} then []
    else
      FirstExists(names);
      var first :| first in names && forall n :: n in names && n != first ==> Less(first, n);
      [first] + Sorted(names - {first})
  }

  lemma SortedFirst(names: set<Name>, first: Name)
    requires first in names && forall n :: n in names && n != first ==> Less(first, n)
    ensures Sorted(names) == [first] + Sorted(names - {first})
  {
    var other := Sorted(names)[0];
    LexTotal(Key(first), Key(other));
  }

  lemma SortedOneMore(done: seq<Name>, todo: set<Name>, names: set<Name>, n: Name)
    requires done + Sorted(todo) == Sorted(names)
    requires n in todo && forall m :: m in todo && m != n ==> Less(n, m)
    ensures (done + [n]) + Sorted(todo - {n}) == Sorted(names)
  {
    SortedFirst(todo, n);
    assert (done + [n]) + Sorted(todo - {n}) == done + ([n] + Sorted(todo - {n}));
  }

  lemma {:induction false} SortedAscends(names: set<Name>, i: nat, j: nat)
    requires i < j < |Sorted(names)|
    ensures Less(Sorted(names)[i], Sorted(names)[j])
    decreases |names|
  {
    var first := First(names);
    SortedFirst(names, first);
    var rest := Sorted(names - {first});
    if i > 0 {
      SortedAscends(names - {first}, i - 1, j - 1);
    } else {
      assert Sorted(names)[j] == rest[j - 1];
      assert rest[j - 1] in names - {first};
    }
  }

  lemma {:induction false} SortedSize(names: set<Name>)
    ensures |Sorted(names)| == |names|
    decreases |names|
  {
    if names != {} {
      var first := First(names);
      SortedFirst(names, first);
      SortedSize(names - {first});
    }
  }

  // ----- Policies -----

  /** A policy selects some of a state's descendants and scores how many it selected. */
  type Selector = set<Name> -> set<Name>

  function ScoreOf(select: Selector): Score {
    (d: set<Name>) => |select(d)|
  }

  /** What the rest of the ledger asks of a policy. */
  ghost predicate WellBehaved(select: Selector) {
    && (forall d :: select(d) <= d)
    && (forall d :: select(d) == {} ==> d == {})
    && Monotone(ScoreOf(select))
  }

  // The descendants policy.

  function AllDescendants(d: set<Name>): set<Name> {
    d
  }

  lemma DescendantsWellBehaved()
    ensures WellBehaved(AllDescendants)
  {
    forall d: set<Name>, e: set<Name> ensures InOrder(ScoreOf(AllDescendants), d, e) {
      if d <= e {
        SubsetSize(d, e);
      }
      assert ScoreOf(AllDescendants)(d) == |AllDescendants(d)| == |d|;
      assert ScoreOf(AllDescendants)(e) == |AllDescendants(e)| == |e|;
    }
  }

  /** It counts every descendant. */
  lemma DescendantsScore(d: set<Name>)
    ensures ScoreOf(AllDescendants)(d) == |d| && AllDescendants(d) == d
  {
    assert ScoreOf(AllDescendants)(d) == |AllDescendants(d)|;
  }

  // The witness policy.

  /** The producer of a record: its state name without header and last component. */
  function Producer(stateName: Name): Name {
    var n := FromStateName(stateName);
    if n == [] then [] else n[..|n| - 1]
  }

  /** The last component numbers a publication, what is before it names the producer. */
  lemma ProducerOf(p: Name, c: Component)
    ensures Producer(ToStateName(p + [c])) == p
  {
    assert (p + [c])[..|p|] == p;
  }

  function Producers(d: set<Name>): set<Name> {
    set n | n in d :: Producer(n)
  }

  /** The first descendant of each producer, in canonical order. */
  function Witnesses(d: set<Name>): set<Name> {
    set n | n in d && forall m :: m in d && Producer(m) == Producer(n) && m != n ==> Less(n, m)
  }

  method PickFirst(names: set<Name>) returns (first: Name)
    requires names != {}
    ensures first in names && forall n :: n in names && n != first ==> Less(first, n)
  {
    FirstExists(names);
    first :| first in names && forall n :: n in names && n != first ==> Less(first, n);
  }

  /** Walks the descendants in canonical order, keeping the first of each producer. */
  method Select(d: set<Name>) returns (ret: set<Name>)
    ensures ret == Witnesses(d)
  {
    var seen: set<Name>;
    seen, ret := {}, {};
    var todo := d;
    assert d - todo == {} && Producers({}) == {};
    while todo != {}
      invariant todo <= d
      invariant forall n, m :: n in d - todo && m in todo ==> Less(n, m)
      invariant seen == Producers(d - todo)
      invariant forall n :: n in ret <==> n in Witnesses(d) && n !in todo
    {
      var item := PickFirst(todo);
      var dataPrefix := Producer(item);
      WitnessStep(d, todo, item);
      if dataPrefix !in seen {
        seen := seen + {dataPrefix};
        ret := ret + {item};
      }
      todo := todo - {item};
    }
    assert d - todo == d;
  }

  lemma WitnessStep(d: set<Name>, todo: set<Name>, item: Name)
    requires item in todo && todo <= d
    requires forall n, m :: n in d - todo && m in todo ==> Less(n, m)
    requires forall n :: n in todo && n != item ==> Less(item, n)
    ensures item in Witnesses(d) <==> Producer(item) !in Producers(d - todo)
    ensures Producers(d - (todo - {item})) == Producers(d - todo) + {Producer(item)}
  {
    assert d - (todo - {item}) == (d - todo) + {item};
    if Producer(item) in Producers(d - todo) {
      var n :| n in d - todo && Producer(n) == Producer(item);
      assert Less(n, item);
      LexTotal(Key(n), Key(item));
    } else {
      forall m | m in d && Producer(m) == Producer(item) && m != item ensures Less(item, m) {
        assert m in todo;
      }
    }
  }

  /** Exactly one witness per producer. */
  lemma OneWitnessPerProducer(d: set<Name>)
    ensures Witnesses(d) <= d
    ensures forall n, m :: n in Witnesses(d) && m in d && Producer(m) == Producer(n) && m != n ==> Less(n, m)
    ensures forall n, m :: n in Witnesses(d) && m in Witnesses(d) && Producer(n) == Producer(m) ==> n == m
    ensures forall p :: p in Producers(d) ==> exists n :: n in Witnesses(d) && Producer(n) == p
  {
    forall n, m | n in Witnesses(d) && m in Witnesses(d) && Producer(n) == Producer(m) && n != m
      ensures false
    {
      LexTotal(Key(n), Key(m));
    }
    forall p | p in Producers(d) ensures exists n :: n in Witnesses(d) && Producer(n) == p {
      var same := set n | n in d && Producer(n) == p;
      var some :| some in d && Producer(some) == p;
      assert some in same;
      var first := First(same);
      assert first in Witnesses(d);
    }
  }

  lemma {:induction false} InjectiveImageSize(a: set<Name>)
    requires forall n, m :: n in a && m in a && Producer(n) == Producer(m) ==> n == m
    ensures |Producers(a)| == |a|
    decreases |a|
  {
    if a != {} {
      var n :| n in a;
      InjectiveImageSize(a - {n});
      assert Producers(a) == Producers(a - {n}) + {Producer(n)};
    } else {
      assert Producers(a) == {};
    }
  }

  /** The witness score counts distinct producers. */
  lemma WitnessScore(d: set<Name>)
    ensures |Witnesses(d)| == |Producers(d)| && ScoreOf(Witnesses)(d) == |Producers(d)|
  {
    OneWitnessPerProducer(d);
    InjectiveImageSize(Witnesses(d));
    assert Producers(Witnesses(d)) == Producers(d);
  }

  /** The witness policy never scores above the descendants policy. */
  lemma WitnessAtMostDescendants(d: set<Name>)
    ensures |Witnesses(d)| <= |AllDescendants(d)|
  {
    SubsetSize(Witnesses(d), d);
  }

  lemma WitnessWellBehaved()
    ensures WellBehaved(Witnesses)
  {
    forall d: set<Name> | d != {} ensures Witnesses(d) != {} {
      ghost var first := First(d);
      assert first in Witnesses(d);
    }
    forall d: set<Name>, e: set<Name> ensures InOrder(ScoreOf(Witnesses), d, e) {
      WitnessScore(d);
      WitnessScore(e);
      if d <= e {
        SubsetSize(Producers(d), Producers(e));
      }
    }
  }
}
