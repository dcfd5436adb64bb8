/** The traversal of a branch, as a search: which directories are known, recorded and read, and
    which entries were returned.
 */
module BranchSearch {
  import opened Forest

  /** Where a directory may come from: it is the root, or a child directory of one already read. */
  ghost predicate Reached(es: Entries, root: Id, read: seq<Id>, x: Id) {
    x == root || (HasParent(es, x) && es[x].dir && es[x].parent in read)
  }

  /** After the first `read` of the recorded directories were searched for subdirectories,
      exactly the root and these subdirectories are known, each once. */
  ghost predicate Explored(es: Entries, root: Id, recorded: seq<Id>, read: nat, known: seq<Id>) {
    && root in es && read <= |recorded| && recorded <= known && Distinct(known)
    && forall x :: x in known <==> Reached(es, root, recorded[..read], x)
  }

  /** The entries returned once the first `read` of the recorded directories were searched for
      entries, each once. */
  ghost predicate Emitted(es: Entries, root: Id, matches: set<Id>, read: seq<Id>, out: seq<Id>) {
    && Distinct(out)
    && forall x :: x in out <==> x in matches && (x == root || (HasParent(es, x) && es[x].parent in read))
  }

  /** Everything known lies in the branch. */
  lemma {:induction false} ReachedBelow(es: Entries, depth: map<Id, nat>, root: Id, recorded: seq<Id>, read: nat, known: seq<Id>, k: nat)
    requires TreeShaped(es, depth) && Explored(es, root, recorded, read, known) && k < |known|
    ensures known[k] in es && Above(es, depth, root, known[k])
    decreases depth[if known[k] in depth then known[k] else root], known[k] != root
  {
    assert known[k] in known;
    var x := known[k];
    if x != root {
      var p := es[x].parent;
      assert p in recorded[..read];
      var j :| 0 <= j < read && recorded[j] == p;
      assert known[j] == p;
      ReachedBelow(es, depth, root, recorded, read, known, j);
    }
  }

  lemma DistinctAppend(a: seq<Id>, b: seq<Id>)
    requires Distinct(a) && Distinct(b) && forall x :: x in b ==> x !in a
    ensures Distinct(a + b)
  {
    forall i, j | 0 <= i < j < |a + b| ensures (a + b)[i] != (a + b)[j] {
      if i < |a| <= j {
        assert a[i] in a && b[j - |a|] in b;
      }
    }
  }

  lemma {:induction false} DistinctBound(s: seq<Id>, all: set<Id>)
    requires Distinct(s) && forall x :: x in s ==> x in all
    ensures |s| <= |all|
  {
    if s != [] {
      var n := |s| - 1;
      assert s[n] in s;
      forall x | x in s[..n] ensures x in all - {s[n]} {
        assert x in s;
      }
      DistinctBound(s[..n], all - {s[n]});
    }
  }

  /** Searching more of the recorded directories: what is found was not known. */
  lemma RecurseKeepsExplored(es: Entries, depth: map<Id, nat>, root: Id, recorded: seq<Id>, read: nat, known: seq<Id>, more: seq<Id>)
    requires TreeShaped(es, depth) && Explored(es, root, recorded, read, known)
    requires Enumerates(more, set x | x in es && es[x].dir && es[x].parent in recorded[read..])
    ensures Explored(es, root, recorded, |recorded|, known + more)
  {
    forall x | x in more ensures x !in known {
      var j :| read <= j < |recorded| && recorded[j] == es[x].parent;
      assert known[j] == es[x].parent;
      ReachedBelow(es, depth, root, recorded, read, known, j);
      assert es[x].parent !in recorded[..read];
      if x == root {
        AboveIsEntry(es, depth, root, es[x].parent);
      }
    }
    DistinctAppend(known, more);
    forall x ensures x in known + more <==> Reached(es, root, recorded[..|recorded|], x) {
      assert recorded == recorded[..read] + recorded[read..];
      if x in more {
        var j :| read <= j < |recorded| && recorded[j] == es[x].parent;
        assert known[j] == es[x].parent;
        ReachedBelow(es, depth, root, recorded, read, known, j);
      }
    }
  }

  /** Returning the matching children of more of the recorded directories. */
  lemma EmitKeepsEmitted(es: Entries, depth: map<Id, nat>, root: Id, matches: set<Id>, recorded: seq<Id>, searched: nat,
                         known: seq<Id>, read: nat, out: seq<Id>, more: seq<Id>)
    requires TreeShaped(es, depth) && Explored(es, root, recorded, searched, known) && read <= |recorded|
    requires Emitted(es, root, matches, recorded[..read], out)
    requires Enumerates(more, set x | x in es && x in matches && es[x].parent in recorded[read..])
    ensures Emitted(es, root, matches, recorded, out + more)
  {
    assert recorded == recorded[..read] + recorded[read..];
    forall x | x in more ensures HasParent(es, x) && x !in out {
      var j :| read <= j < |recorded| && recorded[j] == es[x].parent;
      assert known[j] == es[x].parent;
      ReachedBelow(es, depth, root, recorded, searched, known, j);
      assert es[x].parent !in recorded[..read];
      if x == root {
        AboveIsEntry(es, depth, root, es[x].parent);
      }
    }
    DistinctAppend(out, more);
  }

  /** When every known directory was recorded and searched, they are all the branch has. */
  lemma {:induction false} ExploredAll(es: Entries, depth: map<Id, nat>, root: Id, recorded: seq<Id>, x: Id)
    requires TreeShaped(es, depth) && Explored(es, root, recorded, |recorded|, recorded)
    requires x in es && Above(es, depth, root, x)
    ensures x != root ==> HasParent(es, x) && es[x].parent in recorded
    ensures x == root || es[x].dir ==> x in recorded
    decreases depth[x]
  {
    assert recorded[..|recorded|] == recorded;
    if x != root {
      ExploredAll(es, depth, root, recorded, es[x].parent);
    }
  }

  /** The traversal is exact: the matching entries of the branch, each once. */
  lemma TraversalExact(es: Entries, depth: map<Id, nat>, root: Id, matches: set<Id>, recorded: seq<Id>, out: seq<Id>)
    requires TreeShaped(es, depth) && matches <= es.Keys
    requires Explored(es, root, recorded, |recorded|, recorded) && Emitted(es, root, matches, recorded, out)
    ensures Enumerates(out, matches * Subtree(es, depth, root))
  {
    forall x ensures x in out <==> x in matches * Subtree(es, depth, root) {
      if x in matches && x in Subtree(es, depth, root) {
        ExploredAll(es, depth, root, recorded, x);
      }
      if x in out && x != root {
        var j :| 0 <= j < |recorded| && recorded[j] == es[x].parent;
        ReachedBelow(es, depth, root, recorded, |recorded|, recorded, j);
      }
    }
  }
}
