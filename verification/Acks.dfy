/** Acknowledging batches to a changelog: which batches may be cleared, and when.

    The source remembers every batch it handed out, oldest first. Each sub-batch that was
    processed takes one off what its batch still requires; a batch that requires nothing more is
    cleared, which tells the changelog to forget everything up to it.
 */
module Acks {
  /** A batch that was handed out and not cleared. */
  datatype Saved = Saved(id: nat, index: nat, required: nat)

  /** Oldest first, and the oldest is not done. */
  ghost predicate Ordered(list: seq<Saved>) {
    && (forall i, j | 0 <= i < j < |list| :: list[i].id < list[j].id)
    && (list != [] ==> list[0].required > 0)
  }

  ghost predicate Awaits(list: seq<Saved>, id: nat) {
    exists i | 0 <= i < |list| :: list[i].id == id && list[i].required > 0
  }

  datatype Outcome = Outcome(list: seq<Saved>, cleared: seq<Saved>)

  const SIZE_MAX: nat := 0xFFFF_FFFF_FFFF_FFFF

  /** One acknowledgement too many wraps around. */
  function Lowered(s: Saved, id: nat): Saved {
    if s.id != id then s else s.(required := if s.required > 0 then s.required - 1 else SIZE_MAX)
  }

  /** One less to wait for. */
  function Less(list: seq<Saved>, id: nat): (less: seq<Saved>)
    ensures |less| == |list| && forall i | 0 <= i < |list| :: less[i] == Lowered(list[i], id)
  {
    seq(|list|, i requires 0 <= i < |list| => Lowered(list[i], id))
  }

  /** How many batches are done at the start of a list. */
  function DonePrefix(list: seq<Saved>): (n: nat)
    ensures n <= |list| && (n < |list| ==> list[n].required > 0)
    ensures forall i | 0 <= i < n :: list[i].required == 0
  {
    if list == [] || list[0].required > 0 then 0 else 1 + DonePrefix(list[1..])
  }

  /** What an acknowledgement does to the list. Only the oldest batch lets anything be cleared:
      itself and those done behind it when it is done, and when it is not, those done behind it. */
  function Acknowledge(list: seq<Saved>, id: nat): Outcome {
    var less := Less(list, id);
    if list == [] || list[0].id != id then Outcome(less, [])
    else if less[0].required == 0 then
      var n := DonePrefix(less);
      Outcome(less[n..], less[..n])
    else
      var n := DonePrefix(less[1..]);
      Outcome([less[0]] + less[1 + n..], less[1..1 + n])
  }

  /** A batch was cleared with everything before it done. */
  ghost predicate InOrder(list: seq<Saved>, id: nat) {
    var less := Less(list, id);
    forall i, j | 0 <= i < j < |less| && less[j] in Acknowledge(list, id).cleared :: less[i].required == 0
  }

  /** The oldest batch waits for more than this acknowledgement, and the next one is done. */
  predicate Overtaken(list: seq<Saved>, id: nat) {
    |list| > 1 && list[0].id == id && list[0].required > 1 && list[1].required == 0
  }

  /** Batches are cleared in order except when the oldest is overtaken. */
  lemma InOrderIff(list: seq<Saved>, id: nat)
    requires Ordered(list)
    ensures InOrder(list, id) <==> !Overtaken(list, id)
  {
    var less := Less(list, id);
    var cleared := Acknowledge(list, id).cleared;
    if Overtaken(list, id) {
      assert less[1] == cleared[0];
      assert less[0].required > 0;
    } else {
      forall i, j | 0 <= i < j < |less| && less[j] in cleared ensures less[i].required == 0 {
        if list[0].id == id && less[0].required == 0 {
          var n := DonePrefix(less);
          var k :| 0 <= k < n && less[..n][k] == less[j];
          assert list[k].id == list[j].id;
          assert k == j;
        }
      }
    }
  }

  /** Unless the oldest batch is overtaken, exactly the batches are cleared that are done and have
      nothing unfinished before them. */
  lemma ClearsDonePrefix(list: seq<Saved>, id: nat)
    requires Ordered(list) && !Overtaken(list, id)
    ensures var less := Less(list, id);
            Acknowledge(list, id) == Outcome(less[DonePrefix(less)..], less[..DonePrefix(less)])
  {
    var less := Less(list, id);
    if list != [] && less[0].required > 0 {
      assert less[0..] == less && less[..0] == [];
      if list[0].id == id {
        assert DonePrefix(less[1..]) == 0;
        assert [less[0]] + less[1..] == less && less[1..1] == [];
      }
    }
  }

  /** What is cleared is a run of batches that are done. */
  ghost predicate Splits(list: seq<Saved>, cleared: seq<Saved>, less: seq<Saved>, a: nat, b: nat) {
    && a <= b <= |less| && cleared == less[a..b] && list == less[..a] + less[b..]
    && (forall i | a <= i < b :: less[i].required == 0) && (list != [] ==> list[0].required > 0)
  }

  lemma AcknowledgeSplits(list: seq<Saved>, id: nat) returns (a: nat, b: nat)
    requires Ordered(list)
    ensures Splits(Acknowledge(list, id).list, Acknowledge(list, id).cleared, Less(list, id), a, b)
  {
    hide Less, DonePrefix, Lowered, Splits;
    var less := Less(list, id);
    if list == [] || list[0].id != id {
      a, b := 0, 0;
      if list != [] {
        HeadStays(list, id);
      }
      NothingSplits(less);
    } else if less[0].required == 0 {
      a, b := 0, DonePrefix(less);
      PrefixSplits(less);
    } else {
      a, b := 1, 1 + DonePrefix(less[1..]);
      RunSplits(less);
    }
  }

  lemma NothingSplits(less: seq<Saved>)
    requires less != [] ==> less[0].required > 0
    ensures Splits(less, [], less, 0, 0)
  {
    assert less == less[..0] + less[0..];
  }

  lemma PrefixSplits(less: seq<Saved>)
    ensures var n := DonePrefix(less);
            Splits(less[n..], less[..n], less, 0, n)
  {
    var n := DonePrefix(less);
    assert less[0..n] == less[..n] && less[n..] == less[..0] + less[n..];
  }

  lemma RunSplits(less: seq<Saved>)
    requires less != [] && less[0].required > 0
    ensures var b := 1 + DonePrefix(less[1..]);
            b <= |less| && Splits([less[0]] + less[b..], less[1..b], less, 1, b)
  {
    var n := DonePrefix(less[1..]);
    forall i | 1 <= i < 1 + n ensures less[i].required == 0 {
      assert less[1..][i - 1] == less[i];
    }
    assert less[..1] == [less[0]];
  }

  lemma HeadStays(list: seq<Saved>, id: nat)
    requires Ordered(list) && list != [] && list[0].id != id
    ensures Less(list, id)[0].required > 0
  {
  }

  lemma LessKeepsIds(list: seq<Saved>, id: nat)
    ensures forall i | 0 <= i < |list| :: Less(list, id)[i].id == list[i].id
  {
  }

  lemma SplitMembers(less: seq<Saved>, a: nat, b: nat)
    requires a <= b <= |less|
    ensures forall s :: s in less <==> s in less[..a] + less[b..] || s in less[a..b]
  {
    assert less == less[..a] + less[a..b] + less[b..];
  }

  /** All that is cleared is done, nothing is lost, and nothing that is done stays at the head. */
  lemma AcknowledgeKeeps(list: seq<Saved>, id: nat)
    requires Ordered(list)
    ensures var o := Acknowledge(list, id);
            && Ordered(o.list)
            && (forall s | s in o.cleared :: s.required == 0 && s in Less(list, id))
            && (forall s | s in Less(list, id) :: s in o.list || s in o.cleared)
            && (forall s | s in o.list :: s in Less(list, id))
  {
    hide Less, Acknowledge, Lowered;
    var a, b := AcknowledgeSplits(list, id);
    var o, less := Acknowledge(list, id), Less(list, id);
    SplitMembers(less, a, b);
    assert forall i | 0 <= i < |list| :: less[i].id == list[i].id by { LessKeepsIds(list, id); }
    forall i, j | 0 <= i < j < |o.list| ensures o.list[i].id < o.list[j].id {
      var i', j' := if i < a then i else i - a + b, if j < a then j else j - a + b;
      assert o.list[i] == less[i'] && o.list[j] == less[j'];
      assert list[i'].id < list[j'].id;
    }
  }

  lemma KeptOrCleared(list: seq<Saved>, id: nat, i: nat)
    requires Ordered(list) && i < |list|
    ensures var o, e := Acknowledge(list, id), Lowered(list[i], id);
            e in o.list || e in o.cleared
  {
    hide Acknowledge, Less, Lowered;
    AcknowledgeKeeps(list, id);
    assert Less(list, id)[i] in Less(list, id);
  }

  // ------------------------------------------------------------------ the walk

  ghost predicate Ascending(list: seq<Saved>) {
    forall i, j | 0 <= i < j < |list| :: list[i].id < list[j].id
  }

  /** The walk over what is left of the list. */
  function Walk(list: seq<Saved>, id: nat, canClear: bool): Outcome {
    if list == [] || (list[0].id > id && list[0].required > 0) then Outcome(list, [])
    else
      var clear := canClear && !(list[0].required > 0 && list[0].id < id);
      var elem := Lowered(list[0], id);
      var rest := Walk(list[1..], id, clear);
      if elem.required == 0 && clear then Outcome(rest.list, [elem] + rest.cleared)
      else Outcome([elem] + rest.list, rest.cleared)
  }

  lemma LessOfTail(list: seq<Saved>, id: nat)
    requires list != []
    ensures Less(list, id) == [Lowered(list[0], id)] + Less(list[1..], id)
  {
  }

  lemma LessOfLater(list: seq<Saved>, id: nat)
    requires forall i | 0 <= i < |list| :: list[i].id != id
    ensures Less(list, id) == list
  {
  }

  lemma {:induction false} WalkClearsNothing(list: seq<Saved>, id: nat)
    requires Ascending(list)
    ensures Walk(list, id, false) == Outcome(Less(list, id), [])
  {
    if list == [] || (list[0].id > id && list[0].required > 0) {
      LessOfLater(list, id);
    } else {
      LessOfTail(list, id);
      WalkClearsNothing(list[1..], id);
    }
  }

  lemma {:induction false} WalkClearsDone(list: seq<Saved>, id: nat)
    requires Ascending(list) && forall i | 0 <= i < |list| :: list[i].id > id
    ensures Walk(list, id, true) == Outcome(list[DonePrefix(list)..], list[..DonePrefix(list)])
  {
    if list != [] && list[0].required == 0 {
      WalkClearsDone(list[1..], id);
      var n := DonePrefix(list[1..]);
      assert list[1..][n..] == list[1 + n..] && [list[0]] + list[1..][..n] == list[..1 + n];
    }
  }

  lemma WalkFromOldest(list: seq<Saved>, id: nat)
    requires Ordered(list) && list != [] && list[0].id == id
    ensures Walk(list, id, true) == Acknowledge(list, id)
  {
    hide Less, DonePrefix;
    var tail, first := list[1..], Lowered(list[0], id);
    LessOfTail(list, id);
    LessOfLater(tail, id);
    WalkClearsDone(tail, id);
    var n, less := DonePrefix(tail), [first] + tail;
    assert Less(list, id) == less && less[1..] == tail;
    assert less[1 + n..] == tail[n..];
    if first.required == 0 {
      DonePrefixOfDone(less);
      assert less[..1 + n] == [first] + tail[..n];
    } else {
      assert less[1..1 + n] == tail[..n];
    }
  }

  lemma DonePrefixOfDone(list: seq<Saved>)
    requires list != [] && list[0].required == 0
    ensures DonePrefix(list) == 1 + DonePrefix(list[1..])
  {
  }

  /** The walk computes the acknowledgement. */
  lemma WalkIsAcknowledge(list: seq<Saved>, id: nat)
    requires Ordered(list)
    ensures Walk(list, id, true) == Acknowledge(list, id)
  {
    if list == [] || list[0].id > id {
      LessOfLater(list, id);
    } else if list[0].id == id {
      WalkFromOldest(list, id);
    } else {
      hide Less, DonePrefix;
      LessOfTail(list, id);
      WalkClearsNothing(list[1..], id);
    }
  }

  /** The whole is what was walked over followed by the rest. */
  ghost predicate Progress(whole: Outcome, kept: seq<Saved>, done: seq<Saved>, rest: Outcome) {
    whole.list == kept + rest.list && whole.cleared == done + rest.cleared
  }

  lemma WalkStarts(list: seq<Saved>, id: nat)
    ensures Progress(Walk(list, id, true), [], [], Walk(list[0..], id, true))
  {
    assert list[0..] == list;
  }

  lemma WalkSteps(whole: Outcome, kept: seq<Saved>, done: seq<Saved>, list: seq<Saved>, i: nat, id: nat, canClear: bool)
    requires i < |list| && !(list[i].id > id && list[i].required > 0)
    requires Progress(whole, kept, done, Walk(list[i..], id, canClear))
    ensures var clear := canClear && !(list[i].required > 0 && list[i].id < id);
            var elem := Lowered(list[i], id);
            var rest := Walk(list[i + 1..], id, clear);
            if elem.required == 0 && clear then Progress(whole, kept, done + [elem], rest)
            else Progress(whole, kept + [elem], done, rest)
  {
    assert list[i..][1..] == list[i + 1..];
  }

  lemma WalkStops(whole: Outcome, kept: seq<Saved>, done: seq<Saved>, list: seq<Saved>, i: nat, id: nat, canClear: bool)
    requires i <= |list| && Progress(whole, kept, done, Walk(list[i..], id, canClear))
    requires i == |list| || (i < |list| && list[i].id > id && list[i].required > 0)
    ensures whole == Outcome(kept + list[i..], done)
  {
  }

  // ------------------------------------------------------------------ without deduplication

  /** The element that the source keeps a pointer to, the last one saved, is still on the list. */
  predicate Current(list: seq<Saved>, batchId: nat) {
    list != [] && list[|list| - 1].id + 1 == batchId
  }

  /** The list after an event was saved, of the same record as the last one or of another. */
  function SavedEvent(list: seq<Saved>, batchId: nat, index: nat, shared: bool): seq<Saved>
    requires shared ==> list != []
  {
    if shared then list[|list| - 1 := list[|list| - 1].(id := batchId)] else list + [Saved(batchId, index, 1)]
  }

  class Source {
    var list: seq<Saved>
    var cleared: seq<Saved>
    var batchId: nat
    var lastBatchIndex: nat // the record at which the last batch was saved

    constructor (start: nat)
      ensures list == [] && cleared == [] && batchId == 1 && lastBatchIndex == start
    {
      list := [];
      cleared := [];
      batchId := 1;
      lastBatchIndex := start;
    }

    /** Without deduplication every event is a batch. The events of one record share an element
        of the list, which carries the identifier of the last of them. The element may be gone:
        then memory that was freed is written to, and nothing is promised. */
    method SaveEvent(lastIndex: nat) returns (freed: bool)
      requires Ordered(list) && forall s | s in list :: s.id < batchId
      modifies this
      ensures freed <==> lastIndex == old(lastBatchIndex) && !Current(old(list), old(batchId))
      ensures !freed ==> list == SavedEvent(old(list), old(batchId), lastIndex, lastIndex == old(lastBatchIndex))
      ensures !freed ==> Ordered(list) && batchId == old(batchId) + 1 && (forall s | s in list :: s.id < batchId)
      ensures !freed ==> lastBatchIndex == lastIndex && cleared == old(cleared)
    {
      assert forall i | 0 <= i < |list| :: list[i] in list;
      if lastBatchIndex == lastIndex {
        var n := |list| - 1;
        if n < 0 || list[n].id + 1 != batchId {
          return true;
        }
        list := list[n := list[n].(id := batchId)];
        batchId := batchId + 1;
        return false;
      }
      list := list + [Saved(batchId, lastIndex, 1)];
      batchId := batchId + 1;
      lastBatchIndex := lastIndex;
      return false;
    }

    /** Remembers a deduplicated batch. Unless the changelog was exhausted, its last record was
        read ahead: part of it may belong to the next batch. */
    method SaveBatch(required: nat, lastIndex: nat, exhausted: bool)
      requires Ordered(list) && required > 0 && (forall s | s in list :: s.id < batchId) && (exhausted || lastIndex > 0)
      modifies this
      ensures list == old(list) + [Saved(old(batchId), if exhausted then lastIndex else lastIndex - 1, required)]
      ensures Ordered(list) && batchId == old(batchId) + 1 && cleared == old(cleared) && (forall s | s in list :: s.id < batchId)
      ensures lastBatchIndex == lastIndex
    {
      var index := lastIndex;
      if !exhausted {
        index := lastIndex - 1;
      }
      assert forall i | 0 <= i < |list| :: list[i] in list;
      list := list + [Saved(batchId, index, required)];
      batchId := batchId + 1;
      lastBatchIndex := lastIndex;
    }

    /** Walks the list from the oldest batch on. */
    method AckBatch(id: nat)
      requires Ordered(list)
      modifies this
      ensures list == Acknowledge(old(list), id).list && cleared == old(cleared) + Acknowledge(old(list), id).cleared
      ensures batchId == old(batchId) && lastBatchIndex == old(lastBatchIndex) && Ordered(list)
    {
      hide Less, Acknowledge, Walk, Ordered, Progress;
      AcknowledgeKeeps(list, id);
      WalkIsAcknowledge(list, id);
      var canClear := true;
      var i, kept, done := 0, [], [];
      WalkStarts(list, id);
      while i < |list|
        invariant i <= |list| && list == old(list) && cleared == old(cleared)
        invariant batchId == old(batchId) && lastBatchIndex == old(lastBatchIndex)
        invariant Progress(Walk(old(list), id, true), kept, done, Walk(list[i..], id, canClear))
      {
        ghost var could := canClear;
        var elem := list[i];
        if elem.required > 0 && elem.id < id {
          canClear := false;
        }
        if elem.id > id && elem.required > 0 {
          break;
        }
        WalkSteps(Walk(old(list), id, true), kept, done, list, i, id, could);
        if elem.id == id {
          elem := elem.(required := if elem.required > 0 then elem.required - 1 else SIZE_MAX);
        }
        if elem.required == 0 && canClear {
          done := done + [elem];
        } else {
          kept := kept + [elem];
        }
        i := i + 1;
      }
      WalkStops(Walk(old(list), id, true), kept, done, list, i, id, canClear);
      list := kept + list[i..];
      cleared := cleared + done;
    }
  }
}
