/** rbh-update-path: rebuilding the `path` attribute of whole subtrees of a mirror after
    directories were renamed.

    The mirror is a forest of entries. Only the paths change during a repair; ids, parents,
    names and types do not.
 */
module PathRepair {
  import opened Wrappers
  import opened Forest
  import Tokens

  /** The recorded paths; an id that is not a key has no path. */
  type Paths = map<Id, string>

  // ------------------------------------------------------------------ paths

  /** The path of an entry called `name` in the directory at `parent`. */
  function Join(parent: string, name: string): string {
    if parent == "/" then parent + name else parent + "/" + name
  }

  /** `x` and all its ancestors have a path. */
  ghost predicate Clear(es: Entries, depth: map<Id, nat>, p: Paths, x: Id)
    requires TreeShaped(es, depth) && x in es
    decreases depth[x]
  {
    x in p && (HasParent(es, x) ==> Clear(es, depth, p, es[x].parent))
  }

  /** The path of `x` is its parent's path and its own name. */
  predicate Extends(es: Entries, p: Paths, x: Id)
    requires HasParent(es, x)
  {
    x in p && es[x].parent in p && p[x] == Join(p[es[x].parent], es[x].name)
  }

  /** What every step of a repair keeps: where nothing above an entry is missing, its path
      extends its parent's. */
  ghost predicate Sound(es: Entries, depth: map<Id, nat>, p: Paths)
    requires TreeShaped(es, depth)
  {
    forall x :: HasParent(es, x) && Clear(es, depth, p, x) ==> Extends(es, p, x)
  }

  /** What a repair is for. */
  ghost predicate Repaired(es: Entries, p: Paths) {
    forall x :: x in es ==> x in p && (HasParent(es, x) ==> Extends(es, p, x))
  }

  /** The path an entry should have: the recorded path of the entry its branch hangs from,
      extended by the names down to it. */
  ghost function TruePath(es: Entries, depth: map<Id, nat>, p: Paths, x: Id): Option<string>
    requires TreeShaped(es, depth) && x in es
    decreases depth[x]
  {
    if HasParent(es, x) then
      match TruePath(es, depth, p, es[x].parent)
      case None => None
      case Some(t) => Some(Join(t, es[x].name))
    else if x in p then Some(p[x]) else None
  }

  // ------------------------------------------------------------------ what a path looks like

  /** Going down from `a` through the entries called `names` leads to `x`. */
  predicate Leads(es: Entries, a: Id, names: seq<string>, x: Id)
    decreases |names|
  {
    if names == [] then a == x && x in es
    else HasParent(es, x) && es[x].name == names[|names| - 1] && Leads(es, a, names[..|names| - 1], es[x].parent)
  }

  /** Names between slashes, below a directory with this path. */
  function Spelled(above: string, names: seq<string>): string {
    (if above == "/" then "/" else above + "/") + Tokens.Join(names, '/')
  }

  /** The first name adds nothing to the path, so that no slash comes after it. */
  predicate Swallowed(above: string, names: seq<string>) {
    |names| > 1 && names[0] == "" && (above == "" || above == "/")
  }

  /** Every path is spelled by the names on the way down to its entry, unless a slash is swallowed. */
  ghost predicate AllSpelled(es: Entries, p: Paths) {
    forall a, names, x | Leads(es, a, names, x) && names != [] ::
      a in p && x in p && (p[x] == Spelled(p[a], names) <==> !Swallowed(p[a], names))
  }

  /** Every entry is below one that hangs from nothing, or is one itself. */
  lemma {:induction false} HangsFromTop(es: Entries, depth: map<Id, nat>, x: Id) returns (top: Id, names: seq<string>)
    requires TreeShaped(es, depth) && x in es
    ensures Leads(es, top, names, x) && !HasParent(es, top) && (names == [] <==> !HasParent(es, x))
    decreases depth[x]
  {
    if HasParent(es, x) {
      top, names := HangsFromTop(es, depth, es[x].parent);
      assert (names + [es[x].name])[..|names|] == names;
      names := names + [es[x].name];
    } else {
      top, names := x, [];
    }
  }

  lemma SpelledLast(above: string, names: seq<string>, name: string)
    requires names != []
    ensures Spelled(above, names + [name]) == Spelled(above, names) + "/" + name
  {
    Tokens.JoinOfConcat(names, [name], '/');
    var start, rest := if above == "/" then "/" else above + "/", Tokens.Join(names, '/');
    assert start + (rest + "/" + name) == start + rest + "/" + name;
  }

  lemma SpelledOne(above: string, name: string)
    ensures Spelled(above, [name]) == Join(above, name)
  {
  }

  lemma SpelledLength(above: string, names: seq<string>)
    requires names != [] && !Swallowed(above, names) && Spelled(above, names) == "/"
    ensures |names| == 1 && names[0] == "" && (above == "" || above == "/")
  {
  }

  /** In a repaired mirror, a path is what the names on the way down spell, exactly unless a slash
      is swallowed; then it is shorter. */
  lemma {:induction false} RepairedIsSpelled(es: Entries, p: Paths, a: Id, names: seq<string>, x: Id)
    requires Repaired(es, p) && Leads(es, a, names, x) && names != []
    ensures a in p && x in p
    ensures !Swallowed(p[a], names) ==> p[x] == Spelled(p[a], names)
    ensures Swallowed(p[a], names) ==> |p[x]| < |Spelled(p[a], names)|
    decreases |names|
  {
    hide Spelled;
    var n := |names| - 1;
    var init, q := names[..n], es[x].parent;
    assert names == init + [names[n]] && Extends(es, p, x);
    if n == 0 {
      assert names == [names[0]];
      SpelledOne(p[a], names[0]);
    } else {
      RepairedIsSpelled(es, p, a, init, q);
      SpelledLast(p[a], init, names[n]);
      if !Swallowed(p[a], init) && p[q] == "/" {
        SpelledLength(p[a], init);
      }
    }
  }

  lemma RepairedSpells(es: Entries, p: Paths)
    requires Repaired(es, p)
    ensures AllSpelled(es, p)
  {
    forall a, names, x | Leads(es, a, names, x) && names != []
      ensures a in p && x in p && (p[x] == Spelled(p[a], names) <==> !Swallowed(p[a], names))
    {
      RepairedIsSpelled(es, p, a, names, x);
    }
  }

  // ------------------------------------------------------------------ the invariant and the true paths

  lemma {:induction false} ClearIsAllAbove(es: Entries, depth: map<Id, nat>, p: Paths, x: Id)
    requires TreeShaped(es, depth) && x in es
    ensures Clear(es, depth, p, x) <==> forall a :: Above(es, depth, a, x) ==> a in p
    decreases depth[x]
  {
    if HasParent(es, x) {
      ClearIsAllAbove(es, depth, p, es[x].parent);
    }
    assert Above(es, depth, x, x);
  }

  lemma {:induction false} SoundGivesTruePath(es: Entries, depth: map<Id, nat>, p: Paths, x: Id)
    requires TreeShaped(es, depth) && Sound(es, depth, p) && x in es && Clear(es, depth, p, x)
    ensures TruePath(es, depth, p, x) == Some(p[x])
    decreases depth[x]
  {
    if HasParent(es, x) {
      SoundGivesTruePath(es, depth, p, es[x].parent);
    }
  }

  /** The invariant in the words of the tool's users: an entry whose path is not its true path
      has an ancestor without a path. */
  lemma SoundMeansStaleBelowUnset(es: Entries, depth: map<Id, nat>, p: Paths)
    requires TreeShaped(es, depth)
    ensures Sound(es, depth, p) <==>
            forall x :: x in es && x in p && TruePath(es, depth, p, x) != Some(p[x]) ==>
                          exists a :: Above(es, depth, a, x) && a != x && a !in p
  {
    if Sound(es, depth, p) {
      forall x | x in es && x in p && TruePath(es, depth, p, x) != Some(p[x])
        ensures exists a :: Above(es, depth, a, x) && a != x && a !in p
      {
        if Clear(es, depth, p, x) {
          SoundGivesTruePath(es, depth, p, x);
        } else {
          ClearIsAllAbove(es, depth, p, x);
        }
      }
    } else {
      var x :| HasParent(es, x) && Clear(es, depth, p, x) && !Extends(es, p, x);
      ClearIsAllAbove(es, depth, p, x);
      var q := es[x].parent;
      ClearIsAllAbove(es, depth, p, q);
      if TruePath(es, depth, p, x) == Some(p[x]) {
        assert TruePath(es, depth, p, q) != Some(p[q]);
        assert forall a :: Above(es, depth, a, q) ==> a in p;
      }
    }
  }

  /** With no path missing, soundness is repair. */
  lemma CompleteIsRepaired(es: Entries, depth: map<Id, nat>, p: Paths)
    requires TreeShaped(es, depth) && Sound(es, depth, p) && es.Keys <= p.Keys
    ensures Repaired(es, p)
  {
    forall x | x in es ensures Clear(es, depth, p, x) {
      ClearIsAllAbove(es, depth, p, x);
      forall a | Above(es, depth, a, x) ensures a in es {
        AboveIsEntry(es, depth, a, x);
      }
    }
  }

  /** The entries that hang from nothing in the mirror fix every other path. */
  lemma {:induction false} RepairIsUnique(es: Entries, depth: map<Id, nat>, p: Paths, q: Paths, x: Id)
    requires TreeShaped(es, depth) && Repaired(es, p) && Repaired(es, q) && x in es
    requires forall t :: t in es && !HasParent(es, t) ==> p[t] == q[t]
    ensures p[x] == q[x]
    decreases depth[x]
  {
    if HasParent(es, x) {
      RepairIsUnique(es, depth, p, q, es[x].parent);
    }
  }

  // ------------------------------------------------------------------ events

  datatype Event = SetPath(id: Id, path: string) | UnsetPath(id: Id)

  function Apply(p: Paths, ev: Event): Paths {
    match ev
    case SetPath(x, v) => p[x := v]
    case UnsetPath(x) => p - {x}
  }

  function ApplyAll(p: Paths, evs: seq<Event>): Paths
    decreases |evs|
  {
    if evs == [] then p else Apply(ApplyAll(p, evs[..|evs| - 1]), evs[|evs| - 1])
  }

  lemma {:induction false} ApplyAppend(p: Paths, a: seq<Event>, b: seq<Event>)
    ensures ApplyAll(p, a + b) == ApplyAll(ApplyAll(p, a), b)
  {
    if b == [] {
      assert a + b == a;
    } else {
      assert (a + b)[..|a + b| - 1] == a + b[..|b| - 1];
      ApplyAppend(p, a, b[..|b| - 1]);
    }
  }

  lemma {:induction false} ClearMonotone(es: Entries, depth: map<Id, nat>, p: Paths, q: Paths, x: Id)
    requires TreeShaped(es, depth) && x in es && q.Keys <= p.Keys && Clear(es, depth, q, x)
    ensures Clear(es, depth, p, x)
    decreases depth[x]
  {
    if HasParent(es, x) {
      ClearMonotone(es, depth, p, q, es[x].parent);
    }
  }

  /** Removing paths never breaks soundness. */
  lemma UnsetKeepsSound(es: Entries, depth: map<Id, nat>, p: Paths, gone: set<Id>)
    requires TreeShaped(es, depth) && Sound(es, depth, p)
    ensures Sound(es, depth, p - gone)
  {
    forall x | HasParent(es, x) && Clear(es, depth, p - gone, x)
      ensures Extends(es, p - gone, x)
    {
      assert Clear(es, depth, p - gone, es[x].parent);
      ClearMonotone(es, depth, p, p - gone, x);
    }
  }

  /** Giving a path to `e`, none of whose children has one, clears nothing below `e` and
      changes nothing elsewhere. */
  lemma {:induction false} SetAffectsOnlySelf(es: Entries, depth: map<Id, nat>, p: Paths, e: Id, v: string, x: Id)
    requires TreeShaped(es, depth) && x in es && x != e
    requires forall c :: c in Children(es, e) ==> c !in p
    ensures Clear(es, depth, p[e := v], x) ==> Clear(es, depth, p, x) && !Above(es, depth, e, x)
    decreases depth[x]
  {
    if HasParent(es, x) {
      if es[x].parent == e {
        assert x in Children(es, e);
      } else {
        SetAffectsOnlySelf(es, depth, p, e, v, es[x].parent);
      }
    }
  }

  /** A path computed from the parent's and not yet written: right unless something above is missing. */
  ghost predicate Due(es: Entries, depth: map<Id, nat>, p: Paths, ev: Event)
    requires TreeShaped(es, depth)
  {
    && ev.SetPath? && HasParent(es, ev.id)
    && (forall c :: c in Children(es, ev.id) ==> c !in p)
    && (Clear(es, depth, p, es[ev.id].parent) ==> ev.path == Join(p[es[ev.id].parent], es[ev.id].name))
  }

  /** The writes deferred to the end of a batch. No one of them is for the parent of another. */
  ghost predicate Deferred(es: Entries, depth: map<Id, nat>, p: Paths, evs: seq<Event>)
    requires TreeShaped(es, depth)
  {
    && (forall i :: 0 <= i < |evs| ==> Due(es, depth, p, evs[i]))
    && (forall i, j :: 0 <= i < |evs| && 0 <= j < |evs| ==> es[evs[i].id].parent != evs[j].id)
  }

  lemma UnsetKeepsDue(es: Entries, depth: map<Id, nat>, p: Paths, gone: set<Id>, ev: Event)
    requires TreeShaped(es, depth) && Due(es, depth, p, ev)
    ensures Due(es, depth, p - gone, ev)
  {
    if Clear(es, depth, p - gone, es[ev.id].parent) {
      ClearMonotone(es, depth, p, p - gone, es[ev.id].parent);
    }
  }

  /** Writing one deferred path keeps soundness ... */
  lemma SetKeepsSound(es: Entries, depth: map<Id, nat>, p: Paths, ev: Event)
    requires TreeShaped(es, depth) && Sound(es, depth, p) && Due(es, depth, p, ev)
    ensures Sound(es, depth, Apply(p, ev))
  {
    var q := Apply(p, ev);
    forall x | HasParent(es, x) && Clear(es, depth, q, x) ensures Extends(es, q, x) {
      SetAffectsOnlySelf(es, depth, p, ev.id, ev.path, if x == ev.id then es[x].parent else x);
    }
  }

  /** ... and keeps the other deferred writes due. */
  lemma SetKeepsDue(es: Entries, depth: map<Id, nat>, p: Paths, ev: Event, other: Event)
    requires TreeShaped(es, depth) && Due(es, depth, p, ev) && Due(es, depth, p, other)
    requires es[other.id].parent != ev.id && es[ev.id].parent != other.id
    ensures Due(es, depth, Apply(p, ev), other)
  {
    SetAffectsOnlySelf(es, depth, p, ev.id, ev.path, es[other.id].parent);
  }

  /** Every prefix of the deferred writes of a batch leaves the mirror sound. */
  lemma {:induction false} DeferredKeepsSound(es: Entries, depth: map<Id, nat>, p: Paths, evs: seq<Event>, k: nat)
    requires TreeShaped(es, depth) && Sound(es, depth, p) && Deferred(es, depth, p, evs) && k <= |evs|
    ensures Sound(es, depth, ApplyAll(p, evs[..k]))
    ensures forall i :: k <= i < |evs| ==> Due(es, depth, ApplyAll(p, evs[..k]), evs[i])
  {
    if k > 0 {
      DeferredKeepsSound(es, depth, p, evs, k - 1);
      assert evs[..k][..k - 1] == evs[..k - 1];
      var q := ApplyAll(p, evs[..k - 1]);
      SetKeepsSound(es, depth, q, evs[k - 1]);
      forall i | k <= i < |evs| ensures Due(es, depth, Apply(q, evs[k - 1]), evs[i]) {
        SetKeepsDue(es, depth, q, evs[k - 1], evs[i]);
      }
    }
  }

  predicate AllSets(evs: seq<Event>) {
    forall i :: 0 <= i < |evs| ==> evs[i].SetPath?
  }

  predicate Mentions(evs: seq<Event>, x: Id) {
    exists i :: 0 <= i < |evs| && evs[i].id == x
  }

  /** Exactly the entries written gain a path; the others keep theirs. */
  lemma {:induction false} SetsGivePaths(p: Paths, evs: seq<Event>, x: Id)
    requires AllSets(evs)
    ensures x in ApplyAll(p, evs) <==> x in p || Mentions(evs, x)
    ensures x in p && !Mentions(evs, x) ==> ApplyAll(p, evs)[x] == p[x]
  {
    if evs != [] {
      var n := |evs| - 1;
      SetsGivePaths(p, evs[..n], x);
      assert forall i :: 0 <= i < n ==> evs[..n][i] == evs[i];
      assert evs[n].id == x ==> Mentions(evs, x);
    }
  }

  // ------------------------------------------------------------------ progress

  predicate InQueue(queue: seq<seq<Id>>, x: Id) {
    exists i :: 0 <= i < |queue| && x in queue[i]
  }

  /** `x` will be visited: it or an ancestor waits in the current batch or in a later one. */
  ghost predicate Awaited(es: Entries, depth: map<Id, nat>, rest: seq<Id>, queue: seq<seq<Id>>, x: Id)
    requires TreeShaped(es, depth) && x in es
  {
    exists a :: Above(es, depth, a, x) && (a in rest || InQueue(queue, a))
  }

  /** No entry without a path is forgotten. */
  ghost predicate NoneForgotten(es: Entries, depth: map<Id, nat>, p: Paths, evs: seq<Event>, rest: seq<Id>, queue: seq<seq<Id>>)
    requires TreeShaped(es, depth)
  {
    && (forall x :: x in es && x !in p ==> Mentions(evs, x) || Awaited(es, depth, rest, queue, x))
    && (forall x, c :: Mentions(evs, x) && c in Children(es, x) ==> InQueue(queue, c))
  }

  /** What visiting `e` adds to the queue: the batch of its children, if it has any. */
  ghost predicate Enqueued(es: Entries, e: Id, queue: seq<seq<Id>>, queue': seq<seq<Id>>) {
    if Children(es, e) == {} then queue' == queue
    else |queue'| == |queue| + 1 && queue'[..|queue|] == queue && Enumerates(queue'[|queue|], Children(es, e))
  }

  lemma EnqueuedMembers(es: Entries, e: Id, queue: seq<seq<Id>>, queue': seq<seq<Id>>)
    requires Enqueued(es, e, queue, queue')
    ensures forall x :: InQueue(queue, x) || x in Children(es, e) ==> InQueue(queue', x)
  {
    forall x | InQueue(queue, x) ensures InQueue(queue', x) {
      var i :| 0 <= i < |queue| && x in queue[i];
      assert queue'[i] == queue'[..|queue|][i];
    }
    forall x | x in Children(es, e) ensures InQueue(queue', x) {
      assert x in queue'[|queue|];
    }
  }

  /** Visiting `e` (its children lose their path and are queued; it is written if its parent has
      a path) forgets nothing. */
  lemma VisitForgetsNone(es: Entries, depth: map<Id, nat>, p: Paths, evs: seq<Event>, e: Id, rest: seq<Id>,
                         queue: seq<seq<Id>>, queue': seq<seq<Id>>, evs': seq<Event>)
    requires TreeShaped(es, depth) && HasParent(es, e)
    requires NoneForgotten(es, depth, p, evs, [e] + rest, queue) && Enqueued(es, e, queue, queue')
    requires evs' == evs || (|evs'| == |evs| + 1 && evs'[..|evs|] == evs && evs'[|evs|].id == e)
    requires es[e].parent in p ==> evs' != evs
    ensures NoneForgotten(es, depth, p - Children(es, e), evs', rest, queue')
  {
    EnqueuedMembers(es, e, queue, queue');
    assert forall x :: Mentions(evs, x) ==> Mentions(evs', x) by {
      assert forall i :: 0 <= i < |evs| ==> evs'[i] == evs[i];
    }
    assert evs' != evs ==> Mentions(evs', e);
    forall x | x in es && x !in p - Children(es, e)
      ensures Mentions(evs', x) || Awaited(es, depth, rest, queue', x)
    {
      if x in Children(es, e) {
        assert Above(es, depth, x, x);
      } else if !Mentions(evs, x) {
        var a :| Above(es, depth, a, x) && (a in [e] + rest || InQueue(queue, a));
        if a == e && x != e {
          var c := ChildTowards(es, depth, e, x);
        } else if a == e && es[e].parent !in p {
          var q := es[e].parent;
          if Mentions(evs, q) {
            assert e in Children(es, q) && Above(es, depth, e, e);
          } else {
            var b :| Above(es, depth, b, q) && (b in [e] + rest || InQueue(queue, b));
            AboveIsEntry(es, depth, b, q);
            assert Above(es, depth, b, e);
          }
        }
      }
    }
    forall x, c | Mentions(evs', x) && c in Children(es, x) ensures InQueue(queue', c) {
      if x != e {
        var i :| 0 <= i < |evs'| && evs'[i].id == x;
        assert evs[i].id == x;
      }
    }
  }

  // ------------------------------------------------------------------ termination

  ghost function Subtrees(es: Entries, depth: map<Id, nat>, batch: seq<Id>): set<Id>
    requires TreeShaped(es, depth)
  {
    if batch == [] then {} else Subtree(es, depth, batch[0]) + Subtrees(es, depth, batch[1..])
  }

  lemma {:induction false} InSubtrees(es: Entries, depth: map<Id, nat>, batch: seq<Id>, y: Id)
    requires TreeShaped(es, depth)
    ensures y in Subtrees(es, depth, batch) <==> y in es && exists x :: x in batch && Above(es, depth, x, y)
  {
    if batch != [] {
      InSubtrees(es, depth, batch[1..], y);
      assert forall x :: x in batch <==> x == batch[0] || x in batch[1..];
      assert y in es && Above(es, depth, batch[0], y) ==> y in Subtree(es, depth, batch[0]);
      if y in es && exists x :: x in batch && Above(es, depth, x, y) {
        var x :| x in batch && Above(es, depth, x, y);
        assert x == batch[0] || x in batch[1..];
      }
    }
  }

  ghost function BatchWeight(es: Entries, depth: map<Id, nat>, batch: seq<Id>): nat
    requires TreeShaped(es, depth)
  {
    if batch == [] then 0 else |Subtree(es, depth, batch[0])| + BatchWeight(es, depth, batch[1..])
  }

  ghost function QueueWeight(es: Entries, depth: map<Id, nat>, queue: seq<seq<Id>>): nat
    requires TreeShaped(es, depth)
  {
    if queue == [] then 0
    else BatchWeight(es, depth, queue[0]) + QueueWeight(es, depth, queue[1..])
  }

  lemma {:induction false} QueueWeightAppend(es: Entries, depth: map<Id, nat>, queue: seq<seq<Id>>, batch: seq<Id>)
    requires TreeShaped(es, depth)
    ensures QueueWeight(es, depth, queue + [batch]) == QueueWeight(es, depth, queue) + BatchWeight(es, depth, batch)
  {
    if queue != [] {
      assert (queue + [batch])[1..] == queue[1..] + [batch];
      QueueWeightAppend(es, depth, queue[1..], batch);
    }
  }

  /** The subtrees of distinct siblings do not overlap. */
  lemma {:induction false} SiblingWeight(es: Entries, depth: map<Id, nat>, e: Id, kids: seq<Id>)
    requires TreeShaped(es, depth) && e in es && Distinct(kids)
    requires forall x :: x in kids ==> x in Children(es, e)
    ensures BatchWeight(es, depth, kids) == |Subtrees(es, depth, kids)|
  {
    if kids != [] {
      var first, tail := kids[0], kids[1..];
      SiblingWeight(es, depth, e, tail);
      forall y | y in Subtrees(es, depth, tail) ensures y !in Subtree(es, depth, first) {
        InSubtrees(es, depth, tail, y);
        var x :| x in tail && Above(es, depth, x, y);
        assert x in kids && first in kids && x != first;
        if Above(es, depth, first, y) {
          SiblingsDisjoint(es, depth, first, x, y);
        }
      }
      assert Subtrees(es, depth, tail) !! Subtree(es, depth, first);
    }
  }

  lemma BelowChildren(es: Entries, depth: map<Id, nat>, e: Id, kids: seq<Id>, y: Id)
    requires TreeShaped(es, depth) && e in es && Enumerates(kids, Children(es, e))
    ensures y in Subtrees(es, depth, kids) <==> y in Subtree(es, depth, e) && y != e
  {
    InSubtrees(es, depth, kids, y);
    if y in Subtrees(es, depth, kids) {
      var x :| x in kids && Above(es, depth, x, y);
      assert x in Children(es, e) && Above(es, depth, e, x);
      AboveTransitive(es, depth, e, x, y);
      AboveIsEntry(es, depth, x, y);
    } else if y in Subtree(es, depth, e) && y != e {
      var c := ChildTowards(es, depth, e, y);
    }
  }

  /** Replacing an entry by its children removes one from the pending weight. */
  lemma ChildrenWeight(es: Entries, depth: map<Id, nat>, e: Id, kids: seq<Id>)
    requires TreeShaped(es, depth) && e in es && Enumerates(kids, Children(es, e))
    ensures BatchWeight(es, depth, kids) + 1 == |Subtree(es, depth, e)|
  {
    SiblingWeight(es, depth, e, kids);
    var below := Subtrees(es, depth, kids);
    forall y ensures y in below <==> y in Subtree(es, depth, e) && y != e {
      BelowChildren(es, depth, e, kids, y);
    }
    assert Above(es, depth, e, e);
    assert Subtree(es, depth, e) == below + {e};
  }

  lemma EnqueuedWeight(es: Entries, depth: map<Id, nat>, e: Id, queue: seq<seq<Id>>, queue': seq<seq<Id>>)
    requires TreeShaped(es, depth) && e in es && Enqueued(es, e, queue, queue')
    ensures QueueWeight(es, depth, queue') + 1 == QueueWeight(es, depth, queue) + |Subtree(es, depth, e)|
  {
    if Children(es, e) == {} {
      ChildrenWeight(es, depth, e, []);
    } else {
      var kids := queue'[|queue|];
      assert queue' == queue + [kids];
      QueueWeightAppend(es, depth, queue, kids);
      ChildrenWeight(es, depth, e, kids);
    }
  }

  // ------------------------------------------------------------------ one batch

  predicate ChildrenOf(es: Entries, batch: seq<Id>, d: Id) {
    forall x :: x in batch ==> HasParent(es, x) && es[x].parent == d
  }

  /** The batches discovered while processing hold children of one directory each. */
  ghost predicate Siblings(es: Entries, batch: seq<Id>) {
    exists d :: ChildrenOf(es, batch, d)
  }

  ghost predicate SiblingQueue(es: Entries, queue: seq<seq<Id>>) {
    forall i :: 0 <= i < |queue| ==> Siblings(es, queue[i])
  }

  /** The paths and the deferred writes of a batch: no write is for the parent of an entry of
      the batch. */
  ghost predicate Writes(es: Entries, depth: map<Id, nat>, p: Paths, batch: seq<Id>, evs: seq<Event>)
    requires TreeShaped(es, depth)
  {
    && Sound(es, depth, p) && Deferred(es, depth, p, evs)
    && (forall k :: 0 <= k < |evs| ==> evs[k].id in batch && es[evs[k].id].parent !in batch)
  }

  /** The first batch comes from the mirror and holds entries without a path; the later ones
      hold siblings, for which the path of the parent may be cached. */
  ghost predicate Origin(es: Entries, p: Paths, fromMirror: bool, batch: seq<Id>, i: nat, cache: Option<string>) {
    && i <= |batch| && (forall x :: x in batch ==> x in es)
    && if fromMirror then
      (forall x :: x in batch ==> x !in p) && (forall k :: 0 <= k < i ==> HasParent(es, batch[k]))
    else
      exists d :: ChildrenOf(es, batch, d) && (cache.Some? ==> d in p && cache.value == p[d])
  }

  /** What holds after `i` entries of a batch. */
  ghost predicate InBatch(es: Entries, depth: map<Id, nat>, p: Paths, fromMirror: bool, batch: seq<Id>, i: nat,
                          cache: Option<string>, evs: seq<Event>, queue: seq<seq<Id>>)
    requires TreeShaped(es, depth)
  {
    && Origin(es, p, fromMirror, batch, i, cache)
    && Writes(es, depth, p, batch, evs)
    && NoneForgotten(es, depth, p, evs, batch[i..], queue)
    && SiblingQueue(es, queue)
  }

  lemma VisitKeepsWrites(es: Entries, depth: map<Id, nat>, p: Paths, batch: seq<Id>, evs: seq<Event>, e: Id)
    requires TreeShaped(es, depth) && Writes(es, depth, p, batch, evs) && e in batch && HasParent(es, e)
    requires es[e].parent in p ==> es[e].parent !in batch
    ensures var p' := p - Children(es, e);
            var d := es[e].parent;
            var evs' := if d in p' then evs + [SetPath(e, Join(p'[d], es[e].name))] else evs;
            Writes(es, depth, p', batch, evs')
  {
    var kids := Children(es, e);
    UnsetKeepsSound(es, depth, p, kids);
    forall k | 0 <= k < |evs| ensures Due(es, depth, p - kids, evs[k]) {
      UnsetKeepsDue(es, depth, p, kids, evs[k]);
    }
  }

  lemma VisitKeepsQueue(es: Entries, e: Id, queue: seq<seq<Id>>, queue': seq<seq<Id>>)
    requires e in es && SiblingQueue(es, queue) && Enqueued(es, e, queue, queue')
    ensures SiblingQueue(es, queue')
  {
    forall k | 0 <= k < |queue'| ensures Siblings(es, queue'[k]) {
      if k < |queue| {
        assert queue'[k] == queue'[..|queue|][k] == queue[k];
      } else {
        assert ChildrenOf(es, queue'[k], e);
      }
    }
  }

  lemma VisitKeepsOrigin(es: Entries, depth: map<Id, nat>, p: Paths, fromMirror: bool, batch: seq<Id>, i: nat, cache: Option<string>)
    requires TreeShaped(es, depth) && Origin(es, p, fromMirror, batch, i, cache) && i < |batch| && HasParent(es, batch[i])
    ensures es[batch[i]].parent in p ==> es[batch[i]].parent !in batch
    ensures var p' := p - Children(es, batch[i]);
            var d := es[batch[i]].parent;
            Origin(es, p', fromMirror, batch, i + 1, if d in p' then Some(p'[d]) else None)
  {
    var d := es[batch[i]].parent;
    assert d !in Children(es, batch[i]);
    if !fromMirror {
      assert batch[i] in batch && ChildrenOf(es, batch, d);
    }
  }

  /** Visiting the next entry of a batch keeps all of it. */
  lemma VisitKeepsBatch(es: Entries, depth: map<Id, nat>, p: Paths, fromMirror: bool, batch: seq<Id>, i: nat,
                        cache: Option<string>, evs: seq<Event>, queue: seq<seq<Id>>,
                        cache': Option<string>, evs': seq<Event>, queue': seq<seq<Id>>)
    requires TreeShaped(es, depth) && InBatch(es, depth, p, fromMirror, batch, i, cache, evs, queue) && i < |batch|
    requires HasParent(es, batch[i]) && Enqueued(es, batch[i], queue, queue')
    requires var p' := p - Children(es, batch[i]);
             var d := es[batch[i]].parent;
             && (evs' == if d in p' then evs + [SetPath(batch[i], Join(p'[d], es[batch[i]].name))] else evs)
             && (cache' == if d in p' then Some(p'[d]) else None)
    ensures InBatch(es, depth, p - Children(es, batch[i]), fromMirror, batch, i + 1, cache', evs', queue')
  {
    hide Sound, Writes, Origin, NoneForgotten, SiblingQueue, Enqueued, Above;
    var e := batch[i];
    assert e in batch && es[e].parent !in Children(es, e);
    assert batch[i..] == [e] + batch[i + 1..];
    VisitKeepsOrigin(es, depth, p, fromMirror, batch, i, cache);
    VisitKeepsWrites(es, depth, p, batch, evs, e);
    VisitForgetsNone(es, depth, p, evs, e, batch[i + 1..], queue, queue', evs');
    VisitKeepsQueue(es, e, queue, queue');
  }

  /** After the deferred writes of a batch, what has no path still waits in the queue. */
  lemma FlushForgetsNone(es: Entries, depth: map<Id, nat>, p: Paths, evs: seq<Event>, queue: seq<seq<Id>>)
    requires TreeShaped(es, depth) && NoneForgotten(es, depth, p, evs, [], queue) && AllSets(evs)
    ensures if queue == [] then es.Keys <= ApplyAll(p, evs).Keys
            else NoneForgotten(es, depth, ApplyAll(p, evs), [], queue[0], queue[1..])
  {
    forall x | x in es && x !in ApplyAll(p, evs)
      ensures queue != [] && Awaited(es, depth, queue[0], queue[1..], x)
    {
      SetsGivePaths(p, evs, x);
      var a :| Above(es, depth, a, x) && InQueue(queue, a);
      var k :| 0 <= k < |queue| && a in queue[k];
      assert k > 0 ==> queue[1..][k - 1] == queue[k];
    }
  }

  /** Between two batches: the next one can start, or nothing is left without a path. */
  ghost predicate Ready(es: Entries, depth: map<Id, nat>, p: Paths, fromMirror: bool, queue: seq<seq<Id>>)
    requires TreeShaped(es, depth)
  {
    if queue == [] then es.Keys <= p.Keys
    else InBatch(es, depth, p, fromMirror, queue[0], 0, None, [], queue[1..])
  }

  /** At the end of a batch the deferred writes are applied; the next batch starts. */
  lemma FlushStartsNextBatch(es: Entries, depth: map<Id, nat>, p: Paths, fromMirror: bool, batch: seq<Id>,
                             cache: Option<string>, evs: seq<Event>, queue: seq<seq<Id>>)
    requires TreeShaped(es, depth) && InBatch(es, depth, p, fromMirror, batch, |batch|, cache, evs, queue)
    ensures Sound(es, depth, ApplyAll(p, evs))
    ensures Ready(es, depth, ApplyAll(p, evs), false, queue)
  {
    assert evs[..|evs|] == evs && batch[|batch|..] == [];
    DeferredKeepsSound(es, depth, p, evs, |evs|);
    FlushForgetsNone(es, depth, p, evs, queue);
    if queue != [] {
      assert Siblings(es, queue[0]);
      assert queue[0][0..] == queue[0];
      assert Writes(es, depth, ApplyAll(p, evs), queue[0], []);
      assert Origin(es, ApplyAll(p, evs), false, queue[0], 0, None);
    }
  }

  // ------------------------------------------------------------------ the tool

  /** Some entry without a path hangs from nothing in the mirror. */
  ghost predicate Stranded(es: Entries, p: Paths) {
    exists x :: x in es && x !in p && !HasParent(es, x)
  }

  ghost predicate AllHaveParents(es: Entries, batch: seq<Id>) {
    forall x :: x in batch ==> HasParent(es, x)
  }

  /** The paths the repair starts from are untouched. */
  ghost predicate RootsKept(es: Entries, p: Paths, q: Paths) {
    forall x :: x in es && x in p && !HasParent(es, x) ==> x in q && q[x] == p[x]
  }

  lemma FlushKeepsRoots(es: Entries, depth: map<Id, nat>, start: Paths, p: Paths, batch: seq<Id>, evs: seq<Event>)
    requires TreeShaped(es, depth) && RootsKept(es, start, p) && Writes(es, depth, p, batch, evs)
    ensures RootsKept(es, start, ApplyAll(p, evs))
  {
    forall x | x in es && x in start && !HasParent(es, x) ensures x in ApplyAll(p, evs) && ApplyAll(p, evs)[x] == start[x] {
      SetsGivePaths(p, evs, x);
    }
  }

  lemma BatchKeepsRoots(es: Entries, depth: map<Id, nat>, start: Paths, p: Paths, fromMirror: bool, batch: seq<Id>,
                        cache: Option<string>, evs: seq<Event>, queue: seq<seq<Id>>)
    requires TreeShaped(es, depth) && InBatch(es, depth, p, fromMirror, batch, |batch|, cache, evs, queue)
    requires RootsKept(es, start, p)
    ensures RootsKept(es, start, ApplyAll(p, evs))
  {
    FlushKeepsRoots(es, depth, start, p, batch, evs);
  }

  lemma SiblingsHaveParents(es: Entries, depth: map<Id, nat>, p: Paths, queue: seq<seq<Id>>)
    requires TreeShaped(es, depth) && queue != [] && Ready(es, depth, p, false, queue)
    ensures AllHaveParents(es, queue[0])
  {
  }

  lemma RootsKeptBy(es: Entries, p: Paths)
    ensures RootsKept(es, p, p)
  {
  }

  lemma RootsKeptOn(es: Entries, p: Paths, q: Paths, r: Paths)
    requires RootsKept(es, p, q) && RootsKept(es, q, r)
    ensures RootsKept(es, p, r)
  {
  }

  /** The first batch: everything without a path. */
  lemma FirstBatch(es: Entries, depth: map<Id, nat>, p: Paths, first: seq<Id>)
    requires TreeShaped(es, depth) && Sound(es, depth, p)
    requires Enumerates(first, set x | x in es && x !in p)
    ensures Ready(es, depth, p, true, [first])
    ensures first == [] <==> es.Keys <= p.Keys
    ensures AllHaveParents(es, first) <==> !Stranded(es, p)
  {
    assert [first][1..] == [] && first[0..] == first;
    forall x | x in es && x !in p ensures Awaited(es, depth, first, [], x) {
      assert Above(es, depth, x, x) && x in first;
    }
    if first != [] {
      assert first[0] in first;
    }
  }

  datatype Outcome = Write(event: Event) | Skip | Fatal

  /** A backend holding the mirror. */
  class Mirror {
    const entries: Entries
    var path: Paths

    constructor (entries: Entries, path: Paths)
      ensures this.entries == entries && this.path == path
    {
      this.entries := entries;
      this.path := path;
    }

    /** Hands the events to the backend in chunks of fixed size. */
    method ChunkifyUpdate(events: seq<Event>)
      modifies this`path
      ensures path == ApplyAll(old(path), events)
    {
      var done := 0;
      while done < |events|
        invariant 0 <= done <= |events|
        invariant path == ApplyAll(old(path), events[..done])
      {
        var size := if |events| - done < ITER_CHUNK_SIZE then |events| - done else ITER_CHUNK_SIZE;
        for k := 0 to size
          invariant path == ApplyAll(old(path), events[..done + k])
        {
          assert events[..done + k + 1] == events[..done + k] + [events[done + k]];
          path := Apply(path, events[done + k]);
        }
        done := done + size;
      }
      assert events[..|events|] == events;
    }

    /** Unsets the path of every child of `entry` and queues the children as one batch. */
    method RemoveChildrenPath(entry: Id, queue: seq<seq<Id>>) returns (queue': seq<seq<Id>>)
      modifies this`path
      ensures Enqueued(entries, entry, queue, queue')
      ensures path == old(path) - Children(entries, entry)
    {
      var children := Snapshot(Children(entries, entry));
      var events: seq<Event>, kids: seq<Id> := [], [];
      for k := 0 to |children|
        invariant kids == children[..k] && |events| == k
        invariant ApplyAll(path, events) == path - set x | x in children[..k]
      {
        events := events + [UnsetPath(children[k])];
        kids := kids + [children[k]];
      }
      assert children[..|children|] == children;
      assert Children(entries, entry) == set x | x in children;
      if events == [] {
        return queue;
      }
      assert children[0] in Children(entries, entry);
      queue' := queue + [kids];
      ChunkifyUpdate(events);
    }

    /** The write for `entry`, from its parent's path. For the entries of the first batch the
        parent is looked up each time; for siblings its path is cached once it is known. */
    method GetEntryPath(entry: Id, cache: Option<string>, fromMirror: bool) returns (outcome: Outcome, cache': Option<string>)
      requires entry in entries
      requires !fromMirror && cache.Some? ==> entries[entry].parent in path && cache.value == path[entries[entry].parent]
      requires !fromMirror ==> HasParent(entries, entry)
      ensures var d := entries[entry].parent;
              outcome == if d !in entries then Fatal
                         else if d !in path then Skip
                         else Write(SetPath(entry, Spelled(path[d], [entries[entry].name])))
      ensures var d := entries[entry].parent;
              d in entries ==> cache' == if d in path then Some(path[d]) else None
    {
      var d := entries[entry].parent;
      cache' := cache;
      if cache.None? || fromMirror {
        if d !in entries {
          return Fatal, cache;
        }
        cache' := if d in path then Some(path[d]) else None;
        if cache'.None? {
          return Skip, cache';
        }
      }
      SpelledOne(cache'.value, entries[entry].name);
      outcome := Write(SetPath(entry, Join(cache'.value, entries[entry].name)));
    }

    /** One entry of a batch: its children lose their path and are queued, then its own write
        is added to the deferred ones unless its parent has no path. */
    method Visit(ghost depth: map<Id, nat>, fromMirror: bool, batch: seq<Id>, i: nat,
                 cache: Option<string>, events: seq<Event>, queue: seq<seq<Id>>)
      returns (failed: bool, cache': Option<string>, events': seq<Event>, queue': seq<seq<Id>>)
      requires TreeShaped(entries, depth) && i < |batch|
      requires InBatch(entries, depth, path, fromMirror, batch, i, cache, events, queue)
      modifies this`path
      ensures Sound(entries, depth, path) && RootsKept(entries, old(path), path)
      ensures failed <==> !HasParent(entries, batch[i])
      ensures !failed ==> InBatch(entries, depth, path, fromMirror, batch, i + 1, cache', events', queue')
      ensures QueueWeight(entries, depth, queue') + 1
              == QueueWeight(entries, depth, queue) + |Subtree(entries, depth, batch[i])|
    {
      assert batch[i] in batch;
      UnsetKeepsSound(entries, depth, path, Children(entries, batch[i]));
      queue', events' := queue, events;
      if entries[batch[i]].dir {
        queue' := RemoveChildrenPath(batch[i], queue);
      }
      assert Enqueued(entries, batch[i], queue, queue') && path == old(path) - Children(entries, batch[i]);
      EnqueuedWeight(entries, depth, batch[i], queue, queue');
      var outcome;
      outcome, cache' := GetEntryPath(batch[i], cache, fromMirror);
      if HasParent(entries, batch[i]) && entries[batch[i]].parent in path {
        SpelledOne(path[entries[batch[i]].parent], entries[batch[i]].name);
      }
      failed := outcome.Fatal?;
      if outcome.Write? {
        events' := events + [outcome.event];
      }
      if !failed {
        VisitKeepsBatch(entries, depth, old(path), fromMirror, batch, i, cache, events, queue, cache', events', queue');
      }
    }

    /** One batch: visit its entries, then write the deferred paths. */
    method ProcessBatch(ghost depth: map<Id, nat>, fromMirror: bool, batch: seq<Id>, queue: seq<seq<Id>>)
      returns (failed: bool, queue': seq<seq<Id>>)
      requires TreeShaped(entries, depth)
      requires InBatch(entries, depth, path, fromMirror, batch, 0, None, [], queue)
      modifies this`path
      ensures Sound(entries, depth, path) && RootsKept(entries, old(path), path)
      ensures failed <==> !AllHaveParents(entries, batch)
      ensures !failed ==> Ready(entries, depth, path, false, queue')
      ensures !failed ==> QueueWeight(entries, depth, queue') + |batch|
                          == QueueWeight(entries, depth, queue) + BatchWeight(entries, depth, batch)
      ensures batch == [] ==> queue' == queue && path == old(path)
    {
      hide InBatch, Sound, Ready, RootsKept, TreeShaped;
      queue' := queue;
      RootsKeptBy(entries, path);
      var cache: Option<string>, events: seq<Event> := None, [];
      ghost var weight := QueueWeight(entries, depth, queue) + BatchWeight(entries, depth, batch);
      assert batch[0..] == batch;
      for i := 0 to |batch|
        invariant InBatch(entries, depth, path, fromMirror, batch, i, cache, events, queue')
        invariant weight == i + QueueWeight(entries, depth, queue') + BatchWeight(entries, depth, batch[i..])
        invariant RootsKept(entries, old(path), path)
        invariant forall k :: 0 <= k < i ==> HasParent(entries, batch[k])
        invariant i == 0 ==> queue' == queue && path == old(path) && events == []
      {
        ghost var before := path;
        failed, cache, events, queue' := Visit(depth, fromMirror, batch, i, cache, events, queue');
        RootsKeptOn(entries, old(path), before, path);
        if failed {
          return;
        }
        assert batch[i..][1..] == batch[i + 1..];
      }
      failed := false;
      FlushStartsNextBatch(entries, depth, path, fromMirror, batch, cache, events, queue');
      BatchKeepsRoots(entries, depth, old(path), path, fromMirror, batch, cache, events, queue');
      ChunkifyUpdate(events);
    }

    /** One pass. It aborts (the parent lookup answers ENOENT) exactly when an entry without a
        path hangs from nothing in the mirror; otherwise it leaves no entry without a path. */
    method UpdatePath(ghost depth: map<Id, nat>) returns (empty: bool, failed: bool)
      requires TreeShaped(entries, depth) && Sound(entries, depth, path)
      modifies this`path
      ensures Sound(entries, depth, path) && RootsKept(entries, old(path), path)
      ensures failed <==> Stranded(entries, old(path))
      ensures !failed ==> entries.Keys <= path.Keys
      ensures empty <==> entries.Keys <= old(path).Keys
      ensures empty ==> path == old(path)
    {
      hide Sound, RootsKept, InBatch, TreeShaped;
      empty, failed := true, false;
      RootsKeptBy(entries, path);
      var first := Snapshot(set x | x in entries && x !in path);
      var queue: seq<seq<Id>> := [first];
      var fromMirror := true;
      FirstBatch(entries, depth, path, first);
      while queue != []
        invariant Sound(entries, depth, path) && Ready(entries, depth, path, fromMirror, queue)
        invariant fromMirror ==> queue == [first]
        invariant !fromMirror ==> AllHaveParents(entries, first)
        invariant empty <==> fromMirror || first == []
        invariant empty ==> path == old(path) && (fromMirror || queue == [])
        invariant RootsKept(entries, old(path), path)
        decreases QueueWeight(entries, depth, queue), |queue|
      {
        empty := empty && queue[0] == [];
        ghost var before := path;
        if !fromMirror {
          SiblingsHaveParents(entries, depth, path, queue);
        }
        failed, queue := ProcessBatch(depth, fromMirror, queue[0], queue[1..]);
        RootsKeptOn(entries, old(path), before, path);
        if failed {
          return;
        }
        fromMirror := false;
      }
    }

    /** The tool: passes until one finds nothing to do. On any mirror whose stale paths all lie
        below an entry without a path, it succeeds exactly when the entries that hang from
        nothing have a path. Then every path is its parent's path and its own name: below an entry
        with path `/` a slash and the names on the way down between slashes, and elsewhere that
        entry's path before them. The paths it starts from are untouched. */
    method RepairPaths() returns (failed: bool)
      requires exists depth :: TreeShaped(entries, depth) && Sound(entries, depth, path)
      modifies this`path
      ensures failed <==> Stranded(entries, old(path))
      ensures !failed ==> Repaired(entries, path) && AllSpelled(entries, path)
      ensures RootsKept(entries, old(path), path)
    {
      ghost var depth :| TreeShaped(entries, depth) && Sound(entries, depth, path);
      var empty;
      empty, failed := UpdatePath(depth);
      while !empty && !failed
        invariant Sound(entries, depth, path) && RootsKept(entries, old(path), path)
        invariant failed <==> Stranded(entries, old(path))
        invariant !failed ==> entries.Keys <= path.Keys
        decreases if empty || failed then 0 else 1
      {
        empty, failed := UpdatePath(depth);
      }
      if !failed {
        CompleteIsRepaired(entries, depth, path);
        RepairedSpells(entries, path);
      }
    }
  }
}
