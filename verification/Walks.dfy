/** Walks along the links of a directed graph whose vertices are identifiers. */
module Walks {
  type Link = (string, string)

  ghost predicate IsWalk(links: set<Link>, walk: seq<string>) {
    forall i | 0 <= i < |walk| - 1 :: (walk[i], walk[i + 1]) in links
  }

  ghost predicate Leads(links: set<Link>, walk: seq<string>, a: string, b: string) {
    |walk| >= 1 && walk[0] == a && walk[|walk| - 1] == b && IsWalk(links, walk)
  }

  ghost predicate Reaches(links: set<Link>, a: string, b: string) {
    exists walk :: Leads(links, walk, a, b)
  }

  lemma WalkTail(links: set<Link>, walk: seq<string>)
    requires |walk| >= 2 && IsWalk(links, walk)
    ensures (walk[0], walk[1]) in links && IsWalk(links, walk[1..])
  {
    forall i | 0 <= i < |walk[1..]| - 1 ensures (walk[1..][i], walk[1..][i + 1]) in links {
      assert (walk[i + 1], walk[i + 2]) in links;
    }
  }

  lemma WalkConcat(links: set<Link>, p: seq<string>, q: seq<string>, a: string, b: string, c: string)
    requires Leads(links, p, a, b) && Leads(links, q, b, c)
    ensures Leads(links, p + q[1..], a, c)
    ensures |p + q[1..]| == |p| + |q| - 1
  {
    var w := p + q[1..];
    forall i | 0 <= i < |w| - 1 ensures (w[i], w[i + 1]) in links {
      if i < |p| - 1 {
        assert w[i] == p[i] && w[i + 1] == p[i + 1];
      } else {
        assert w[i] == q[i - |p| + 1] && w[i + 1] == q[i - |p| + 2];
      }
    }
  }

  lemma ReachesSelf(links: set<Link>, a: string)
    ensures Reaches(links, a, a)
  {
    assert Leads(links, [a], a, a);
  }

  lemma LinkReaches(links: set<Link>, a: string, b: string)
    requires (a, b) in links
    ensures Reaches(links, a, b)
  {
    assert Leads(links, [a, b], a, b);
  }

  lemma ReachesTransitive(links: set<Link>, a: string, b: string, c: string)
    requires Reaches(links, a, b) && Reaches(links, b, c)
    ensures Reaches(links, a, c)
  {
    var p :| Leads(links, p, a, b);
    var q :| Leads(links, q, b, c);
    WalkConcat(links, p, q, a, b, c);
  }

  lemma ReachesMonotone(links: set<Link>, more: set<Link>, a: string, b: string)
    requires links <= more && Reaches(links, a, b)
    ensures Reaches(more, a, b)
  {
    var p :| Leads(links, p, a, b);
    assert Leads(more, p, a, b);
  }

  /** A set closed under the links holds everything that its members reach. */
  lemma {:induction false} ClosedHoldsWalk(links: set<Link>, closed: set<string>, walk: seq<string>)
    requires forall l | l in links && l.0 in closed :: l.1 in closed
    requires |walk| >= 1 && walk[0] in closed && IsWalk(links, walk)
    ensures walk[|walk| - 1] in closed
    decreases |walk|
  {
    if |walk| >= 2 {
      WalkTail(links, walk);
      ClosedHoldsWalk(links, closed, walk[1..]);
    }
  }

  lemma ClosedHoldsReachable(links: set<Link>, closed: set<string>, a: string, b: string)
    requires forall l | l in links && l.0 in closed :: l.1 in closed
    requires a in closed && Reaches(links, a, b)
    ensures b in closed
  {
    var walk :| Leads(links, walk, a, b);
    ClosedHoldsWalk(links, closed, walk);
  }

  /** What a new link adds: everything that reaches its start now reaches whatever its end
      reached, and nothing else changes. */
  lemma NewLink(links: set<Link>, from: string, to: string, a: string, b: string)
    ensures Reaches(links + {(from, to)}, a, b) <==>
              Reaches(links, a, b) || (Reaches(links, a, from) && Reaches(links, to, b))
  {
    var more := links + {(from, to)};
    if Reaches(links, a, b) { ReachesMonotone(links, more, a, b); }
    if Reaches(links, a, from) && Reaches(links, to, b) {
      ReachesMonotone(links, more, a, from);
      ReachesMonotone(links, more, to, b);
      LinkReaches(more, from, to);
      ReachesTransitive(more, a, from, to);
      ReachesTransitive(more, a, to, b);
    }
    if Reaches(more, a, b) {
      var walk :| Leads(more, walk, a, b);
      WalkOverNewLink(links, from, to, walk);
    }
  }

  lemma {:induction false} WalkOverNewLink(links: set<Link>, from: string, to: string, walk: seq<string>)
    requires |walk| >= 1 && IsWalk(links + {(from, to)}, walk)
    ensures || Reaches(links, walk[0], walk[|walk| - 1])
            || (Reaches(links, walk[0], from) && Reaches(links, to, walk[|walk| - 1]))
    decreases |walk|
  {
    var x, z := walk[0], walk[|walk| - 1];
    ReachesSelf(links, x);
    if |walk| >= 2 {
      WalkTail(links + {(from, to)}, walk);
      WalkOverNewLink(links, from, to, walk[1..]);
      var y := walk[1];
      if (x, y) in links {
        LinkReaches(links, x, y);
        if Reaches(links, y, z) { ReachesTransitive(links, x, y, z); } else { ReachesTransitive(links, x, y, from); }
      }
    }
  }

  /** New links into one vertex: everything that reaches the start of one of them now reaches
      whatever that vertex reached, and nothing else changes. */
  lemma {:induction false} NewLinksInto(links: set<Link>, starts: seq<string>, to: string, a: string, b: string)
    ensures Reaches(links + LinksInto(starts, to), a, b) <==>
              Reaches(links, a, b) || (ReachesAny(links, a, starts) && Reaches(links, to, b))
  {
    if starts == [] {
      assert links + LinksInto(starts, to) == links;
    } else {
      var front, last := starts[..|starts| - 1], starts[|starts| - 1];
      var fewer := links + LinksInto(front, to);
      assert starts == front + [last];
      assert links + LinksInto(starts, to) == fewer + {(last, to)};
      assert ReachesAny(links, a, starts) <==> ReachesAny(links, a, front) || Reaches(links, a, last);
      NewLinksInto(links, front, to, a, b);
      NewLinksInto(links, front, to, a, last);
      NewLinksInto(links, front, to, to, b);
      NewLink(fewer, last, to, a, b);
    }
  }

  ghost predicate ReachesAny(links: set<Link>, a: string, ends: seq<string>) {
    exists d :: d in ends && Reaches(links, a, d)
  }

  ghost function LinksInto(starts: seq<string>, to: string): set<Link> {
    set d | d in starts :: (d, to)
  }
}
