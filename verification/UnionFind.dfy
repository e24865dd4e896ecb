/** Disjoint sets with path compression and no ranking, keyed by file name. */
module UnionFinds {

  type Links = map<string, string>

  /** What a union of the classes of x and y must do to the representatives. */
  ghost function Joined(rep: Links, x: string, y: string): Links
    requires x in rep && y in rep
  {
    map e | e in rep :: if rep[e] == rep[x] then rep[y] else rep[e]
  }

  /** Follows n parent links from x. */
  ghost function Climb(parent: Links, x: string, n: nat): string
    decreases n
  {
    if n == 0 || x !in parent then x else Climb(parent, parent[x], n - 1)
  }

  /** Element e has a parent and a representative, agrees with its parent on the representative,
      and is further from it than its parent is. */
  ghost predicate Placed(parent: Links, rep: Links, depth: map<string, nat>, e: string) {
    && e in parent && e in rep && e in depth
    && parent[e] in parent && parent[e] in rep && parent[e] in depth
    && rep[e] in parent && rep[e] in rep && rep[e] in depth
    && rep[parent[e]] == rep[e] && parent[rep[e]] == rep[e] && rep[rep[e]] == rep[e]
    && (parent[e] == e ==> rep[e] == e)
    && (parent[e] != e ==> depth[parent[e]] < depth[e])
    && depth[rep[e]] <= depth[parent[e]]
  }

  ghost predicate Forest(parent: Links, rep: Links, depth: map<string, nat>) {
    && parent.Keys == rep.Keys == depth.Keys
    && forall e {:trigger Placed(parent, rep, depth, e)} :: e in parent ==> Placed(parent, rep, depth, e)
  }

  lemma CompressionKeepsForest(parent: Links, rep: Links, depth: map<string, nat>, x: string)
    requires Forest(parent, rep, depth) && x in parent && parent[x] != x
    ensures Forest(parent[x := rep[x]], rep, depth)
  {
    var parent' := parent[x := rep[x]];
    assert Placed(parent, rep, depth, x);
    assert parent'.Keys == parent.Keys;
    forall e | e in parent' ensures Placed(parent', rep, depth, e) {
      assert Placed(parent, rep, depth, e);
      assert Placed(parent, rep, depth, rep[e]);
    }
  }

  /** The measure after the root rx is hung below the root ry: everything under rx moves down. */
  ghost function Deepened(rep: Links, depth: map<string, nat>, rx: string, ry: string): map<string, nat>
    requires rep.Keys == depth.Keys && ry in depth
  {
    map e | e in depth :: if rep[e] == rx then depth[e] + depth[ry] + 1 else depth[e]
  }

  lemma LinkingKeepsForest(parent: Links, rep: Links, depth: map<string, nat>, x: string, y: string)
    requires Forest(parent, rep, depth) && x in parent && y in parent && rep[x] != rep[y]
    ensures rep[y] in depth
    ensures Forest(parent[rep[x] := rep[y]], Joined(rep, x, y), Deepened(rep, depth, rep[x], rep[y]))
  {
    var rx, ry := rep[x], rep[y];
    assert Placed(parent, rep, depth, x) && Placed(parent, rep, depth, y);
    var parent', rep', depth' := parent[rx := ry], Joined(rep, x, y), Deepened(rep, depth, rx, ry);
    assert parent'.Keys == parent.Keys && rep'.Keys == rep.Keys && depth'.Keys == depth.Keys;
    forall e | e in parent' ensures Placed(parent', rep', depth', e) {
      assert Placed(parent, rep, depth, e);
      assert Placed(parent, rep, depth, parent[e]);
      assert Placed(parent, rep, depth, rep[e]);
    }
  }

  class UnionFind {
    var parent: Links
    // The representative of each element, and a measure that shrinks along parent links.
    ghost var rep: Links
    ghost var depth: map<string, nat>

    ghost predicate Valid()
      reads this
    {
      Forest(parent, rep, depth)
    }

    constructor (elements: seq<string>)
      ensures Valid()
      ensures rep == map e | e in elements :: e
    {
      parent := map e | e in elements :: e;
      rep := map e | e in elements :: e;
      depth := map e | e in elements :: 0;
    }

    /** Returns the representative; compression redirects elements only to their own representative. */
    method Find(x: string) returns (r: string)
      requires Valid() && x in parent
      modifies this`parent
      ensures Valid() && r == rep[x] && parent[x] == r
      ensures parent.Keys == old(parent.Keys)
      ensures forall e :: e in parent ==> parent[e] == old(parent)[e] || parent[e] == rep[e]
      decreases if x in depth then depth[x] else 0
    {
      assert Placed(parent, rep, depth, x);
      if parent[x] != x {
        var p := Find(parent[x]);
        CompressionKeepsForest(parent, rep, depth, x);
        parent := parent[x := p];
      }
      r := parent[x];
    }

    /** Merges exactly the two classes named. */
    method Union(x: string, y: string)
      requires Valid() && x in parent && y in parent
      modifies this
      ensures Valid() && rep == Joined(old(rep), x, y)
    {
      var rx := Find(x);
      var ry := Find(y);
      if rx != ry {
        LinkingKeepsForest(parent, rep, depth, x, y);
        parent := parent[rx := ry];
        depth := Deepened(rep, depth, rx, ry);
        rep := Joined(rep, x, y);
      } else {
        assert rep == Joined(rep, x, y);
      }
    }
  }

  lemma {:induction false} RootStays(parent: Links, r: string, m: nat)
    requires r in parent && parent[r] == r
    ensures Climb(parent, r, m) == r
  {
    if m > 0 {
      RootStays(parent, r, m - 1);
    }
  }

  /** The representative is no more than what the parent map says: climbing from x ends there and stays. */
  lemma {:induction false} RepresentativeIsWhereClimbingStops(parent: Links, rep: Links, depth: map<string, nat>, x: string)
    requires Forest(parent, rep, depth) && x in parent
    ensures forall m: nat :: depth[x] <= m ==> Climb(parent, x, m) == rep[x]
    decreases depth[x]
  {
    assert Placed(parent, rep, depth, x);
    if parent[x] == x {
      forall m: nat ensures Climb(parent, x, m) == rep[x] {
        RootStays(parent, x, m);
      }
    } else {
      RepresentativeIsWhereClimbingStops(parent, rep, depth, parent[x]);
    }
  }
}
