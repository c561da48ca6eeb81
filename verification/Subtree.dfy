/** Which users lose a file when one of its grantees is revoked (admin-core/src/subtree.rs). */
module Subtree {
  import opened Records

  datatype GrantEdge = GrantEdge(fileId: Id, grantedBy: Id, recipient: Id)

  /** One grant of the file under consideration. */
  datatype Arc = Arc(from: Id, to: Id)

  type Graph = set<Arc>

  /** The grants of one file: order, repetition and other files do not matter. */
  ghost function Arcs(edges: seq<GrantEdge>, file: Id): Graph {
    set e | e in edges && e.fileId == file :: Arc(e.grantedBy, e.recipient)
  }

  /** An arc is a recorded grant of this very file. */
  lemma ArcIsGrant(edges: seq<GrantEdge>, file: Id, a: Id, b: Id)
    ensures Arc(a, b) in Arcs(edges, file) <==> exists i :: 0 <= i < |edges| && edges[i] == GrantEdge(file, a, b)
  {
    if Arc(a, b) in Arcs(edges, file) { assert GrantEdge(file, a, b) in edges; }
  }

  // ---- walks ----

  /** A walk follows at least one grant. */
  ghost predicate Walk(g: Graph, p: seq<Id>) {
    |p| >= 2 && forall i :: 0 <= i < |p| - 1 ==> Hop(g, p, i)
  }

  ghost predicate Hop(g: Graph, p: seq<Id>, i: nat)
    requires i < |p| - 1
  {
    Arc(p[i], p[i + 1]) in g
  }

  ghost predicate Leads(g: Graph, a: Id, b: Id, p: seq<Id>) {
    Walk(g, p) && p[0] == a && p[|p| - 1] == b
  }

  ghost predicate Avoids(p: seq<Id>, avoid: set<Id>) { forall i :: 0 <= i < |p| ==> p[i] !in avoid }

  /** Some walk from `a` to `b` touches no node of `avoid`, ends included. */
  ghost predicate Reaches(g: Graph, a: Id, b: Id, avoid: set<Id>) {
    exists p :: Leads(g, a, b, p) && Avoids(p, avoid)
  }

  lemma OneHop(g: Graph, a: Id, b: Id, avoid: set<Id>)
    requires Arc(a, b) in g && a !in avoid && b !in avoid
    ensures Reaches(g, a, b, avoid)
  {
    assert Hop(g, [a, b], 0);
    assert Leads(g, a, b, [a, b]) && Avoids([a, b], avoid);
  }

  lemma ExtendReach(g: Graph, a: Id, b: Id, c: Id, avoid: set<Id>)
    requires Reaches(g, a, b, avoid) && Arc(b, c) in g && c !in avoid
    ensures Reaches(g, a, c, avoid)
  {
    var p :| Leads(g, a, b, p) && Avoids(p, avoid);
    var q := p + [c];
    forall i | 0 <= i < |q| - 1 ensures Hop(g, q, i) {
      if i < |p| - 1 { assert Hop(g, p, i); }
    }
    assert Leads(g, a, c, q) && Avoids(q, avoid);
  }

  /** Every node of a walk but the first is reached by a part of it. */
  lemma PrefixReaches(g: Graph, p: seq<Id>, i: nat, avoid: set<Id>)
    requires Walk(g, p) && Avoids(p, avoid) && 1 <= i < |p|
    ensures Reaches(g, p[0], p[i], avoid)
  {
    var q := p[..i + 1];
    forall j | 0 <= j < |q| - 1 ensures Hop(g, q, j) { assert Hop(g, p, j); }
    assert Leads(g, p[0], p[i], q) && Avoids(q, avoid);
  }

  lemma SuffixReaches(g: Graph, p: seq<Id>, i: nat)
    requires Walk(g, p) && i < |p| - 1
    ensures Reaches(g, p[i], p[|p| - 1], {})
  {
    var q := p[i..];
    forall j | 0 <= j < |q| - 1 ensures Hop(g, q, j) { assert Hop(g, p, i + j); }
    assert Leads(g, p[i], p[|p| - 1], q) && Avoids(q, {});
  }

  // ---- the worklist search ----

  /** `s` misses nothing that one allowed grant reaches from `start` or from `s`. */
  ghost predicate Closed(g: Graph, start: Id, avoid: set<Id>, s: set<Id>) {
    forall a :: a in g && Open(a, avoid) && (a.from == start || a.from in s) ==> a.to in s
  }

  predicate Open(a: Arc, avoid: set<Id>) { a.from !in avoid && a.to !in avoid }

  /** The reached nodes are the least closed set. */
  lemma {:induction false} LeastClosed(g: Graph, start: Id, avoid: set<Id>, s: set<Id>, n: Id)
    requires Closed(g, start, avoid, s) && Reaches(g, start, n, avoid)
    ensures n in s
  {
    var p :| Leads(g, start, n, p) && Avoids(p, avoid);
    for i := 1 to |p|
      invariant i > 1 ==> p[i - 1] in s
    {
      assert Hop(g, p, i - 1);
    }
  }

  lemma ReachedIsClosed(g: Graph, start: Id, avoid: set<Id>, s: set<Id>)
    requires forall n :: n in s <==> Reaches(g, start, n, avoid)
    ensures Closed(g, start, avoid, s)
  {
    forall a | a in g && Open(a, avoid) && (a.from == start || a.from in s) ensures a.to in s {
      if a.from == start { OneHop(g, start, a.to, avoid); } else { ExtendReach(g, start, a.from, a.to, avoid); }
    }
  }

  /** Nodes the search still owes: already seen (or the start), not yet expanded. */
  ghost predicate Owed(g: Graph, start: Id, avoid: set<Id>, seen: set<Id>, stack: seq<Id>) {
    && (forall x :: x in stack ==> x == start || x in seen)
    && forall a :: a in g && Open(a, avoid) && (a.from == start || a.from in seen) ==> a.from in stack || a.to in seen
  }

  ghost predicate AllReached(g: Graph, start: Id, avoid: set<Id>, seen: set<Id>) {
    forall n :: n in seen ==> Reaches(g, start, n, avoid)
  }

  ghost function Recipients(edges: seq<GrantEdge>): set<Id> { set e | e in edges :: e.recipient }

  /** While `node` is expanded, after the first `j` edges: only its later grants are still owed. */
  ghost predicate Expanding(edges: seq<GrantEdge>, file: Id, start: Id, avoid: set<Id>, seen: set<Id>, stack: seq<Id>,
                            node: Id, j: nat)
    requires j <= |edges|
  {
    && (forall x :: x in stack ==> x == start || x in seen)
    && (forall a :: a in Arcs(edges, file) && Open(a, avoid) && (a.from == start || a.from in seen) ==>
          a.from in stack || a.from == node || a.to in seen)
    && (forall i :: 0 <= i < j && edges[i].fileId == file && edges[i].grantedBy == node ==>
          edges[i].recipient in avoid || edges[i].recipient in seen)
  }

  lemma Expanded(edges: seq<GrantEdge>, file: Id, start: Id, avoid: set<Id>, seen: set<Id>, stack: seq<Id>, node: Id)
    requires Expanding(edges, file, start, avoid, seen, stack, node, |edges|)
    ensures Owed(Arcs(edges, file), start, avoid, seen, stack)
  {
    forall a | a in Arcs(edges, file) && Open(a, avoid) && (a.from == start || a.from in seen)
      ensures a.from in stack || a.to in seen
    {
      var e :| e in edges && e.fileId == file && a == Arc(e.grantedBy, e.recipient);
      var i :| 0 <= i < |edges| && edges[i] == e;
    }
  }

  /** `reachable_from` */
  method ReachableFrom(start: Id, edges: seq<GrantEdge>, file: Id, avoid: set<Id>) returns (seen: set<Id>)
    ensures forall n :: n in seen <==> Reaches(Arcs(edges, file), start, n, avoid)
  {
    hide Reaches, Arcs, Recipients;
    ghost var g := Arcs(edges, file);
    seen := {};
    var stack := [start];
    while stack != []
      invariant Owed(g, start, avoid, seen, stack) && AllReached(g, start, avoid, seen)
      invariant seen <= Recipients(edges)
      decreases Recipients(edges) - seen, |stack|
    {
      var node := stack[|stack| - 1];
      ghost var whole := stack;
      stack := stack[..|stack| - 1];
      assert whole == stack + [node];
      if node in avoid { continue; }
      ghost var seen0, stack0 := seen, stack;
      for j := 0 to |edges|
        invariant Expanding(edges, file, start, avoid, seen, stack, node, j) && AllReached(g, start, avoid, seen)
        invariant node == start || node in seen
        invariant seen0 <= seen <= Recipients(edges) && (seen == seen0 ==> stack == stack0)
      {
        var e := edges[j];
        if e.fileId == file && e.grantedBy == node && e.recipient !in avoid && e.recipient !in seen {
          NewlyReached(edges, file, start, avoid, seen, node, j);
          seen, stack := seen + {e.recipient}, stack + [e.recipient];
        }
      }
      Expanded(edges, file, start, avoid, seen, stack, node);
    }
    assert Closed(g, start, avoid, seen);
    forall n | Reaches(g, start, n, avoid) ensures n in seen { LeastClosed(g, start, avoid, seen, n); }
  }

  lemma NewlyReached(edges: seq<GrantEdge>, file: Id, start: Id, avoid: set<Id>, seen: set<Id>, node: Id, j: nat)
    requires j < |edges| && edges[j].fileId == file && edges[j].grantedBy == node && edges[j].recipient !in avoid
    requires node !in avoid && (node == start || node in seen) && AllReached(Arcs(edges, file), start, avoid, seen)
    ensures Reaches(Arcs(edges, file), start, edges[j].recipient, avoid) && edges[j].recipient in Recipients(edges)
  {
    var g := Arcs(edges, file);
    assert edges[j] in edges && Arc(node, edges[j].recipient) in g;
    if node == start {
      OneHop(g, start, edges[j].recipient, avoid);
    } else {
      ExtendReach(g, start, node, edges[j].recipient, avoid);
    }
  }

  // ---- revocation ----

  /** `r` itself, and whoever depends on `r`: reached from it, and not from the owner without it. */
  ghost predicate Revoked(g: Graph, r: Id, owner: Id, n: Id) {
    n == r || (Reaches(g, r, n, {}) && !Reaches(g, owner, n, {r}))
  }

  /** `revocation_subtree` */
  method RevocationSubtree(edges: seq<GrantEdge>, file: Id, r: Id, owner: Id) returns (out: set<Id>)
    ensures forall n :: n in out <==> Revoked(Arcs(edges, file), r, owner, n)
  {
    var authorized := ReachableFrom(owner, edges, file, {r});
    var fromR := ReachableFrom(r, edges, file, {});
    out := {r};
    var left := fromR;
    while left != {}
      invariant left <= fromR
      invariant forall n :: n in out <==> n == r || (n in fromR - left && n !in authorized)
      decreases |left|
    {
      var node :| node in left;
      left := left - {node};
      if node !in authorized { out := out + {node}; }
    }
  }

  /** For whoever the owner can reach at all, being revoked means that every walk passes through `r`. */
  lemma RevokedIsDominated(g: Graph, r: Id, owner: Id, n: Id)
    requires owner != r && n != r && Reaches(g, owner, n, {})
    ensures Revoked(g, r, owner, n) <==> forall p :: Leads(g, owner, n, p) ==> r in p
  {
    if forall p :: Leads(g, owner, n, p) ==> r in p {
      var p :| Leads(g, owner, n, p) && Avoids(p, {});
      var i :| 0 <= i < |p| && p[i] == r;
      SuffixReaches(g, p, i);
      assert forall q :: Leads(g, owner, n, q) ==> !Avoids(q, {r});
    } else {
      var p :| Leads(g, owner, n, p) && r !in p;
      assert Avoids(p, {r});
    }
  }

  /** The owner is never protected from a grant back to it: it may end up in the set to revoke. */
  lemma OwnerMayBeRevoked(owner: Id, r: Id)
    requires owner != r
    ensures Revoked({Arc(owner, r), Arc(r, owner)}, r, owner, owner)
  {
    var g := {Arc(owner, r), Arc(r, owner)};
    OneHop(g, r, owner, {});
    forall p | Leads(g, owner, owner, p) ensures !Avoids(p, {r}) { assert Hop(g, p, 0); }
  }

  // ---- cutting the revoked set ----

  /** The grants left once every grant from or to a revoked user is gone. */
  ghost function Cut(g: Graph, r: Id, owner: Id): Graph {
    set a | a in g && !Revoked(g, r, owner, a.from) && !Revoked(g, r, owner, a.to)
  }

  /** A walk of the owner that avoids `r` touches nobody revoked. */
  lemma AuthorizedSurvive(g: Graph, r: Id, owner: Id, p: seq<Id>, i: nat)
    requires Walk(g, p) && p[0] == owner && Avoids(p, {r}) && !Revoked(g, r, owner, owner) && i < |p|
    ensures !Revoked(g, r, owner, p[i])
  {
    if i > 0 { PrefixReaches(g, p, i, {r}); }
  }

  lemma CutKeepsAuthorized(g: Graph, r: Id, owner: Id, n: Id)
    requires !Revoked(g, r, owner, owner)
    ensures Reaches(Cut(g, r, owner), owner, n, {}) <==> Reaches(g, owner, n, {r})
  {
    var h := Cut(g, r, owner);
    hide Revoked;
    if Reaches(h, owner, n, {}) {
      var p :| Leads(h, owner, n, p) && Avoids(p, {});
      RootRevoked(g, r, owner);
      forall i | 0 <= i < |p| - 1 ensures Hop(g, p, i) { assert Hop(h, p, i); }
      forall i | 0 <= i < |p| ensures p[i] !in {r} { if i > 0 { assert Hop(h, p, i - 1); } }
      assert Leads(g, owner, n, p);
    }
    if Reaches(g, owner, n, {r}) {
      var p :| Leads(g, owner, n, p) && Avoids(p, {r});
      forall i | 0 <= i < |p| - 1 ensures Hop(h, p, i) {
        assert Hop(g, p, i);
        AuthorizedSurvive(g, r, owner, p, i);
        AuthorizedSurvive(g, r, owner, p, i + 1);
      }
      assert Leads(h, owner, n, p) && Avoids(p, {});
    }
  }

  lemma RootRevoked(g: Graph, r: Id, owner: Id)
    ensures Revoked(g, r, owner, r)
  {
  }

  /**
   Unless the owner is revoked itself, cutting the revoked set leaves the owner exactly the users it
   reached without `r`, and there is nothing left to revoke but `r`.
   */
  lemma CutIsFinal(g: Graph, r: Id, owner: Id)
    requires !Revoked(g, r, owner, owner)
    ensures forall n :: Reaches(Cut(g, r, owner), owner, n, {}) <==> Reaches(g, owner, n, {r})
    ensures forall n :: Revoked(Cut(g, r, owner), r, owner, n) <==> n == r
  {
    var h := Cut(g, r, owner);
    forall n ensures Reaches(h, owner, n, {}) <==> Reaches(g, owner, n, {r}) { CutKeepsAuthorized(g, r, owner, n); }
    forall n ensures !Reaches(h, r, n, {}) {
      forall p | Leads(h, r, n, p) ensures false {
        assert Hop(h, p, 0);
        RootRevoked(g, r, owner);
      }
    }
  }

  // ---- withheld grants ----

  /** `h` adds grants to `g`, none of them by the owner or by anyone it reaches without `r`. */
  ghost predicate AddsBelow(g: Graph, h: Graph, r: Id, owner: Id) {
    g <= h && forall a :: a in h && a !in g ==> a.from != owner && !Reaches(g, owner, a.from, {r})
  }

  lemma {:induction false} SameAuthorized(g: Graph, h: Graph, r: Id, owner: Id, p: seq<Id>)
    requires AddsBelow(g, h, r, owner) && Walk(h, p) && p[0] == owner && Avoids(p, {r})
    ensures Reaches(g, owner, p[|p| - 1], {r})
  {
    for i := 1 to |p|
      invariant i > 1 ==> Reaches(g, owner, p[i - 1], {r})
    {
      assert Hop(h, p, i - 1);
      if i == 1 { OneHop(g, owner, p[1], {r}); } else { ExtendReach(g, owner, p[i - 1], p[i], {r}); }
    }
  }

  /** Learning of further grants below `r` never takes anyone out of the revoked set. */
  lemma WithheldGrantsOnlyAdd(g: Graph, h: Graph, r: Id, owner: Id, n: Id)
    requires AddsBelow(g, h, r, owner) && Revoked(g, r, owner, n)
    ensures Revoked(h, r, owner, n)
  {
    if n != r {
      var p :| Leads(g, r, n, p) && Avoids(p, {});
      forall i | 0 <= i < |p| - 1 ensures Hop(h, p, i) { assert Hop(g, p, i); }
      assert Leads(h, r, n, p);
      forall q | Leads(h, owner, n, q) && Avoids(q, {r}) ensures false { SameAuthorized(g, h, r, owner, q); }
    }
  }

  /** A further grant by the owner does: it may give an independent path. */
  lemma OwnerGrantMayRescue(owner: Id, r: Id, n: Id)
    requires owner != r && n != r && n != owner
    ensures var g := {Arc(owner, r), Arc(r, n)};
            Revoked(g, r, owner, n) && !Revoked(g + {Arc(owner, n)}, r, owner, n)
  {
    var g := {Arc(owner, r), Arc(r, n)};
    OneHop(g, r, n, {});
    forall p | Leads(g, owner, n, p) ensures !Avoids(p, {r}) { assert Hop(g, p, 0); }
    OneHop(g + {Arc(owner, n)}, owner, n, {r});
  }
}
