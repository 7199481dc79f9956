/** The union-find the clustering runs on: an array of parents, halved along the way. */
module UnionFind {

  class Forest {
    const n: nat
    const p: array<nat>
    /** The root of each element's tree. */
    ghost var root: seq<nat>
    /** A measure that drops along every parent link. */
    ghost var height: seq<nat>

    ghost predicate Valid()
      reads this, p
    {
      p.Length == n && Rooted(p[..], root, height, n)
    }

    constructor (n: nat)
      ensures Valid() && fresh(p) && this.n == n && root == seq(n, i => i)
    {
      this.n := n;
      p := new nat[n](i => i);
      root, height := seq(n, i => i), seq(n, i => 0);
    }

    /** Follows parents to the root, halving the path on the way: trees keep their roots. */
    method Find(x: nat) returns (r: nat)
      requires Valid() && x < n
      modifies p
      ensures Valid() && root == old(root) && height == old(height) && r == root[x] && r < n && root[r] == r
    {
      r := x;
      while p[r] != r
        invariant Valid() && r < n && root[r] == root[x]
        decreases height[r]
      {
        HalveKeepsRooted(p[..], root, height, n, r);
        assert p[..][r := p[p[r]]] == p[..r] + [p[p[r]]] + p[r + 1..];
        p[r] := p[p[r]];
        r := p[r];
      }
      assert RootedAt(p[..], root, height, r);
    }

    /** Joins the two trees under the first one's root. */
    method Union(a: nat, b: nat)
      requires Valid() && a < n && b < n
      modifies this, p
      ensures Valid() && root == Joined(old(root), old(root[a]), old(root[b]))
    {
      var ra := Find(a);
      var rb := Find(b);
      if ra != rb {
        JoinKeepsRooted(p[..], root, height, n, ra, rb);
        assert p[..][rb := ra] == p[..rb] + [ra] + p[rb + 1..];
        p[rb] := ra;
        height := Lifted(root, height, ra, rb);
        root := Joined(root, ra, rb);
      }
    }
  }

  ghost predicate Rooted(p: seq<nat>, root: seq<nat>, height: seq<nat>, n: nat) {
    && |p| == |root| == |height| == n
    && forall x :: 0 <= x < n ==> RootedAt(p, root, height, x)
  }

  ghost predicate RootedAt(p: seq<nat>, root: seq<nat>, height: seq<nat>, x: nat)
    requires x < |p| == |root| == |height|
  {
    && p[x] < |p| && root[x] < |p|
    && root[root[x]] == root[x] && root[p[x]] == root[x]
    && (p[x] == x <==> root[x] == x)
    && (p[x] != x ==> height[p[x]] < height[x])
  }

  ghost function Joined(root: seq<nat>, ra: nat, rb: nat): (r: seq<nat>)
    ensures |r| == |root| && forall x :: 0 <= x < |root| ==> r[x] == if root[x] == rb then ra else root[x]
  {
    seq(|root|, x requires 0 <= x < |root| => if root[x] == rb then ra else root[x])
  }

  ghost function Lifted(root: seq<nat>, height: seq<nat>, ra: nat, rb: nat): (h: seq<nat>)
    requires |root| == |height| && ra < |height|
    ensures |h| == |root| && forall x :: 0 <= x < |root| ==>
        h[x] == height[x] + if root[x] == rb then height[ra] + 1 else 0
  {
    seq(|root|, x requires 0 <= x < |root| => height[x] + if root[x] == rb then height[ra] + 1 else 0)
  }

  lemma HalveKeepsRooted(p: seq<nat>, root: seq<nat>, height: seq<nat>, n: nat, x: nat)
    requires Rooted(p, root, height, n) && x < n && p[x] != x
    ensures p[x] < n && p[p[x]] < n && Rooted(p[x := p[p[x]]], root, height, n)
    ensures root[p[p[x]]] == root[x] && height[p[p[x]]] < height[x]
  {
    assert RootedAt(p, root, height, x) && RootedAt(p, root, height, p[x]);
    var q := p[x := p[p[x]]];
    forall y | 0 <= y < n
      ensures RootedAt(q, root, height, y)
    {
      assert RootedAt(p, root, height, y);
    }
  }

  lemma JoinKeepsRooted(p: seq<nat>, root: seq<nat>, height: seq<nat>, n: nat, ra: nat, rb: nat)
    requires Rooted(p, root, height, n) && ra < n && rb < n && ra != rb && root[ra] == ra && root[rb] == rb
    ensures Rooted(p[rb := ra], Joined(root, ra, rb), Lifted(root, height, ra, rb), n)
  {
    var q, r, h := p[rb := ra], Joined(root, ra, rb), Lifted(root, height, ra, rb);
    assert RootedAt(p, root, height, ra) && RootedAt(p, root, height, rb);
    forall y | 0 <= y < n
      ensures RootedAt(q, r, h, y)
    {
      assert RootedAt(p, root, height, y);
      if y != rb { assert RootedAt(p, root, height, p[y]); }
    }
  }
}
