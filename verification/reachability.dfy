/** Paths in a finite pointer graph. A graph maps each node that may be expanded to
    the nodes it points at; a path may end in a node the graph does not expand. */
module Reachability {

  ghost predicate IsPath<N(!new)>(g: map<N, set<N>>, p: seq<N>) {
    && |p| > 0
    && forall i :: 0 <= i < |p| - 1 ==> p[i] in g && p[i + 1] in g[p[i]]
  }

  /** A path that starts in `from` ends in `a`. */
  ghost predicate Reaches<N(!new)>(g: map<N, set<N>>, from: set<N>, a: N) {
    exists p :: IsPath(g, p) && p[0] in from && p[|p| - 1] == a
  }

  lemma ReachesStart<N(!new)>(g: map<N, set<N>>, from: set<N>, a: N)
    requires a in from
    ensures Reaches(g, from, a)
  {
    assert IsPath(g, [a]);
  }

  lemma ReachesStep<N(!new)>(g: map<N, set<N>>, from: set<N>, a: N, b: N)
    requires Reaches(g, from, a) && a in g && b in g[a]
    ensures Reaches(g, from, b)
  {
    var p :| IsPath(g, p) && p[0] in from && p[|p| - 1] == a;
    var q := p + [b];
    assert IsPath(g, q) && q[0] in from && q[|q| - 1] == b;
  }

  /** A set that holds the start and is closed under the graph holds everything reached. */
  lemma {:induction false} PathStaysInside<N(!new)>(g: map<N, set<N>>, inside: set<N>, p: seq<N>)
    requires IsPath(g, p) && p[0] in inside
    requires forall n :: n in inside && n in g ==> g[n] <= inside
    ensures p[|p| - 1] in inside
    decreases |p|
  {
    if |p| > 1 {
      assert p[1] in g[p[0]];
      assert IsPath(g, p[1..]);
      PathStaysInside(g, inside, p[1..]);
    }
  }

  lemma ReachesStaysInside<N(!new)>(g: map<N, set<N>>, from: set<N>, inside: set<N>, a: N)
    requires from <= inside
    requires forall n :: n in inside && n in g ==> g[n] <= inside
    requires Reaches(g, from, a)
    ensures a in inside
  {
    var p :| IsPath(g, p) && p[0] in from && p[|p| - 1] == a;
    PathStaysInside(g, inside, p);
  }

  lemma ReachesMonotone<N(!new)>(g: map<N, set<N>>, h: map<N, set<N>>, from: set<N>, more: set<N>, a: N)
    requires forall n :: n in g ==> n in h && g[n] <= h[n]
    requires from <= more
    requires Reaches(g, from, a)
    ensures Reaches(h, more, a)
  {
    var p :| IsPath(g, p) && p[0] in from && p[|p| - 1] == a;
    assert IsPath(h, p);
  }

  /** A path of `h` either stays within the subgraph `g`, or from some node that only
      `h` expands it runs on to `a`; in that case `g` alone already reaches such a node. */
  lemma {:induction false} PathLeaves<N(!new)>(g: map<N, set<N>>, h: map<N, set<N>>, from: set<N>, p: seq<N>)
    requires forall n :: n in g ==> n in h && h[n] == g[n]
    requires IsPath(h, p) && p[0] in from
    ensures
      || Reaches(g, from, p[|p| - 1])
      || (exists x :: x in h && x !in g && Reaches(g, from, x)
                      && Reaches(h, h[x], p[|p| - 1]))
    decreases |p|
  {
    var a := p[|p| - 1];
    if |p| == 1 {
      ReachesStart(g, from, a);
    } else {
      var q := p[..|p| - 1];
      var c := q[|q| - 1];
      assert IsPath(h, q);
      assert p[|p| - 2] == c && c in h && a in h[c];
      PathLeaves(g, h, from, q);
      if Reaches(g, from, c) {
        if c in g {
          ReachesStep(g, from, c, a);
        } else {
          ReachesStart(h, h[c], a);
        }
      } else {
        var x :| x in h && x !in g && Reaches(g, from, x) && Reaches(h, h[x], c);
        ReachesStep(h, h[x], c, a);
      }
    }
  }

  lemma ReachesLeaves<N(!new)>(g: map<N, set<N>>, h: map<N, set<N>>, from: set<N>, a: N)
    requires forall n :: n in g ==> n in h && h[n] == g[n]
    requires Reaches(h, from, a)
    ensures
      || Reaches(g, from, a)
      || (exists x :: x in h && x !in g && Reaches(g, from, x) && Reaches(h, h[x], a))
  {
    var p :| IsPath(h, p) && p[0] in from && p[|p| - 1] == a;
    PathLeaves(g, h, from, p);
  }

  /** Everything reached is a start node or the target of an expanded node. */
  lemma ReachesTarget<N(!new)>(g: map<N, set<N>>, from: set<N>, a: N)
    requires Reaches(g, from, a)
    ensures a in from || exists n :: n in g && a in g[n]
  {
    var p :| IsPath(g, p) && p[0] in from && p[|p| - 1] == a;
    if |p| > 1 {
      assert p[|p| - 2] in g && p[|p| - 1] in g[p[|p| - 2]];
    }
  }
}
