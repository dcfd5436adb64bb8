/** Two iterators over one: what one side takes from the source it leaves in a queue for the
    other. A queue holds pointers; a ring takes a whole number of them.
 */
module Tee {
  import opened Wrappers
  import opened Queue

  /** The two sides. */
  datatype Side = Left | Right

  function Other(side: Side): Side {
    if side.Left? then Right else Left
  }

  /** What a side gets at its `n`-th call. */
  function At<T>(items: seq<T>, n: nat): Option<T> {
    if n < |items| then Some(items[n]) else None
  }

  class Tee<T> {
    const items: seq<T> // what the source yields before it ends
    const left: Queue<T>
    const right: Queue<T>
    var pos: nat
    var alive: set<Side> // a side that was destroyed leaves the other without a clone
    ghost var yielded: map<Side, seq<T>>

    function QueueOf(side: Side): Queue<T> {
      if side.Left? then left else right
    }

    ghost function Repr(): set<object>
      reads this, left, right
    {
      {left, right} + left.repr + right.repr
    }

    /** What a side got and what waits for it is what was taken from the source. */
    ghost predicate Agrees(side: Side)
      reads this, left, right
    {
      pos <= |items| && side in yielded && yielded[side] + QueueOf(side).Contents() == items[..pos]
    }

    ghost predicate Valid()
      reads this, Repr()
    {
      && left.Valid() && right.Valid() && this !in Repr() && pos <= |items|
      && {left} + left.repr !! {right} + right.repr
      && (forall side | side in alive :: side in yielded && Agrees(side))
    }

    constructor (items: seq<T>, chunk: nat, blank: T)
      requires 0 < chunk
      ensures Valid() && fresh(Repr()) && this.items == items && alive == {Left, Right}
      ensures yielded == map[Left := [], Right := []]
    {
      hide Queue.Valid, Queue.Contents;
      this.items := items;
      var a := new Queue<T>(chunk, blank);
      var b := new Queue<T>(chunk, blank);
      left, right, pos, alive := a, b, 0, {Left, Right};
      yielded := map[Left := [], Right := []];
    }

    /** What waits for a side comes first. */
    method TakeWaiting(side: Side, first: T)
      requires Valid() && side in alive && QueueOf(side).Contents() != [] && QueueOf(side).Contents()[0] == first
      requires QueueOf(side).parts != [] && QueueOf(side).parts[0] != []
      modifies this`yielded, Repr()
      ensures Valid() && Repr() == old(Repr())
      ensures |old(yielded[side])| < |items| && first == items[|old(yielded[side])|]
      ensures yielded == old(yielded)[side := old(yielded[side]) + [first]]
    {
      hide Queue.Valid, Queue.Contents;
      var mine := QueueOf(side);
      ghost var got, all := yielded[side], mine.Contents();
      assert Agrees(side) && (Other(side) in alive ==> Agrees(Other(side)));
      assert (got + all)[|got|] == items[..pos][|got|];
      var error := mine.Pop(1);
      yielded := yielded[side := got + [first]];
      assert got + [first] + all[1..] == got + all;
      assert Agrees(side) && (Other(side) in alive ==> Agrees(Other(side)));
    }

    /** A new item is left for the other side. */
    method TakeNew(side: Side)
      requires Valid() && side in alive && QueueOf(side).Contents() == [] && pos < |items|
      modifies this`pos, this`yielded, Repr()
      ensures Valid() && fresh(Repr() - old(Repr())) && pos == old(pos) + 1
      ensures |old(yielded[side])| == old(pos)
      ensures yielded == old(yielded)[side := old(yielded[side]) + [items[old(pos)]]]
    {
      hide Queue.Valid, Queue.Contents;
      var other := QueueOf(Other(side));
      ghost var got := yielded[side];
      assert Agrees(side) && (Other(side) in alive ==> Agrees(Other(side)));
      assert got == items[..pos];
      assert items[..pos + 1] == items[..pos] + [items[pos]];
      if Other(side) in alive {
        other.HasRoomForOne();
        var error := other.Push([items[pos]]);
        assert error.None?; // nothing is left to share later
      }
      yielded := yielded[side := got + [items[pos]]];
      pos := pos + 1;
      assert Agrees(side) && (Other(side) in alive ==> Agrees(Other(side)));
    }

    /** Each side gets the items of the source in order, then its end. */
    method Next(side: Side) returns (element: Option<T>)
      requires Valid() && side in alive
      modifies this`pos, this`yielded, Repr()
      ensures Valid() && fresh(Repr() - old(Repr())) && alive == old(alive)
      ensures element == At(items, |old(yielded[side])|)
      ensures yielded == old(yielded)[side := old(yielded[side]) + if element.Some? then [element.value] else []]
    {
      hide Queue.Valid, Queue.Contents;
      assert Agrees(side);
      var waiting := QueueOf(side).Peek();
      if waiting != [] {
        element := Some(waiting[0]);
        TakeWaiting(side, waiting[0]);
        return;
      }
      assert yielded[side] == items[..pos];
      if pos == |items| {
        assert yielded[side] + [] == yielded[side];
        return None;
      }
      element := Some(items[pos]);
      TakeNew(side);
    }

    method Destroy(side: Side)
      requires Valid() && side in alive
      modifies this
      ensures Valid() && alive == old(alive) - {side} && yielded == old(yielded) && Repr() == old(Repr())
    {
      alive := alive - {side};
    }
  }

  datatype Operation = Next(side: Side) | Destroy(side: Side)

  /** Nothing is asked of a side that was destroyed. */
  ghost predicate Allowed(operations: seq<Operation>) {
    forall i, j | 0 <= i < j < |operations| && operations[i].Destroy? :: operations[i].side != operations[j].side
  }

  function Calls(operations: seq<Operation>, side: Side): nat {
    if operations == [] then 0
    else
      var last := operations[|operations| - 1];
      Calls(operations[..|operations| - 1], side) + if last.Next? && last.side == side then 1 else 0
  }

  /** The first `n` answers of an iterator over the items. */
  function Answers<T>(items: seq<T>, n: nat): seq<Option<T>> {
    seq(n, i requires 0 <= i < n => At(items, i))
  }

  function Got<T>(items: seq<T>, n: nat): seq<T> {
    if n < |items| then items[..n] else items
  }

  /** However the calls are interleaved, either side answers as the source alone would. */
  method Run<T>(items: seq<T>, chunk: nat, blank: T, operations: seq<Operation>) returns (left: seq<Option<T>>, right: seq<Option<T>>)
    requires 0 < chunk && Allowed(operations)
    ensures left == Answers(items, Calls(operations, Left)) && right == Answers(items, Calls(operations, Right))
  {
    hide Queue.Valid, Queue.Contents, Tee.Valid, Calls, Answers, Got, Allowed;
    var tee := new Tee<T>(items, chunk, blank);
    left, right := [], [];
    NoCalls(items, operations);
    for i := 0 to |operations|
      invariant tee.Valid() && fresh(tee) && fresh(tee.Repr()) && tee.items == items && tee.yielded.Keys == {Left, Right}
      invariant Left in tee.alive <==> Destroy(Left) !in operations[..i]
      invariant Right in tee.alive <==> Destroy(Right) !in operations[..i]
      invariant left == Answers(items, Calls(operations[..i], Left)) && right == Answers(items, Calls(operations[..i], Right))
      invariant tee.yielded[Left] == Got(items, Calls(operations[..i], Left))
      invariant tee.yielded[Right] == Got(items, Calls(operations[..i], Right))
    {
      var operation := operations[i];
      OneMore(operations, i, Left);
      OneMore(operations, i, Right);
      StillAlive(operations, i);
      match operation
      case Destroy(side) =>
        tee.Destroy(side);
      case Next(side) =>
        Answered(items, Calls(operations[..i], side));
        var element := tee.Next(side);
        if side.Left? {
          left := left + [element];
        } else {
          right := right + [element];
        }
    }
    assert operations[..|operations|] == operations;
  }

  lemma NoCalls<T>(items: seq<T>, operations: seq<Operation>)
    ensures operations[..0] == []
    ensures forall side :: Calls([], side) == 0
    ensures Answers(items, 0) == [] && Got(items, 0) == []
  {
  }

  lemma StillAlive(operations: seq<Operation>, i: nat)
    requires Allowed(operations) && i < |operations|
    ensures Destroy(operations[i].side) !in operations[..i] && (operations[i].side == Left || operations[i].side == Right)
  {
  }

  lemma OneMore(operations: seq<Operation>, i: nat, side: Side)
    requires i < |operations|
    ensures operations[..i + 1] == operations[..i] + [operations[i]]
    ensures Calls(operations[..i + 1], side) == Calls(operations[..i], side) + if operations[i] == Next(side) then 1 else 0
  {
    assert operations[..i + 1][..i] == operations[..i];
  }

  lemma Answered<T>(items: seq<T>, n: nat)
    ensures Answers(items, n + 1) == Answers(items, n) + [At(items, n)]
    ensures At(items, |Got(items, n)|) == At(items, n)
    ensures Got(items, n + 1) == Got(items, n) + if At(items, n).Some? then [At(items, n).value] else []
  {
  }
}
