/** The mirror as a forest of entries linked by parent ids, and snapshots of queries on it. */
module Forest {

  import opened Wrappers

  type Id = seq<byte>

  datatype Entry = Entry(parent: Id, name: string, dir: bool)

  type Entries = map<Id, Entry>

  // ------------------------------------------------------------------ shape

  predicate HasParent(es: Entries, x: Id) {
    x in es && es[x].parent in es
  }

  /** Parent links do not cycle (`depth` grows along them) and only directories have children. */
  ghost predicate TreeShaped(es: Entries, depth: map<Id, nat>) {
    && (forall x :: x in es ==> x in depth)
    && (forall x :: HasParent(es, x) ==> depth[es[x].parent] < depth[x] && es[es[x].parent].dir)
  }

  function Children(es: Entries, x: Id): set<Id> {
    set c | c in es && es[c].parent == x
  }

  /** `a` is `x` or one of its ancestors. */
  ghost predicate Above(es: Entries, depth: map<Id, nat>, a: Id, x: Id)
    requires TreeShaped(es, depth) && x in es
    decreases depth[x]
  {
    a == x || (HasParent(es, x) && Above(es, depth, a, es[x].parent))
  }

  // ------------------------------------------------------------------ ancestors

  lemma {:induction false} AboveIsEntry(es: Entries, depth: map<Id, nat>, a: Id, x: Id)
    requires TreeShaped(es, depth) && x in es && Above(es, depth, a, x)
    ensures a in es && depth[a] <= depth[x]
    ensures depth[a] == depth[x] ==> a == x
    decreases depth[x]
  {
    if a != x {
      AboveIsEntry(es, depth, a, es[x].parent);
    }
  }

  lemma {:induction false} AboveTransitive(es: Entries, depth: map<Id, nat>, a: Id, b: Id, x: Id)
    requires TreeShaped(es, depth) && x in es && b in es && Above(es, depth, a, b) && Above(es, depth, b, x)
    ensures Above(es, depth, a, x)
    decreases depth[x]
  {
    if b != x {
      AboveTransitive(es, depth, a, b, es[x].parent);
    }
  }

  /** The child of `a` on the way down to `x`. */
  lemma {:induction false} ChildTowards(es: Entries, depth: map<Id, nat>, a: Id, x: Id) returns (c: Id)
    requires TreeShaped(es, depth) && x in es && Above(es, depth, a, x) && a != x
    ensures c in Children(es, a) && Above(es, depth, c, x) && HasParent(es, c)
    decreases depth[x]
  {
    if es[x].parent == a {
      c := x;
    } else {
      c := ChildTowards(es, depth, a, es[x].parent);
    }
  }

  /** Two entries above a third that share their parent are the same. */
  lemma {:induction false} SiblingsDisjoint(es: Entries, depth: map<Id, nat>, c: Id, d: Id, x: Id)
    requires TreeShaped(es, depth) && HasParent(es, c) && HasParent(es, d) && x in es
    requires es[c].parent == es[d].parent
    requires Above(es, depth, c, x) && Above(es, depth, d, x)
    ensures c == d
    decreases depth[x]
  {
    if c == x && d != x {
      AboveIsEntry(es, depth, d, es[x].parent);
    } else if d == x && c != x {
      AboveIsEntry(es, depth, c, es[x].parent);
    } else if c != x {
      SiblingsDisjoint(es, depth, c, d, es[x].parent);
    }
  }

  ghost function Subtree(es: Entries, depth: map<Id, nat>, x: Id): set<Id>
    requires TreeShaped(es, depth)
  {
    set y | y in es && Above(es, depth, x, y)
  }

  // ------------------------------------------------------------------ queries

  ghost predicate Distinct(s: seq<Id>) {
    forall i, j :: 0 <= i < j < |s| ==> s[i] != s[j]
  }

  ghost predicate Enumerates(s: seq<Id>, ids: set<Id>) {
    Distinct(s) && forall x :: x in s <==> x in ids
  }

  /** A query returns a snapshot of the matching entries, in no particular order. */
  method Snapshot(ids: set<Id>) returns (s: seq<Id>)
    ensures Enumerates(s, ids)
  {
    s := [];
    var left := ids;
    while left != {}
      invariant left <= ids && Enumerates(s, ids - left)
    {
      var x :| x in left;
      s := s + [x];
      left := left - {x};
    }
  }
}
