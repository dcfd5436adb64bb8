/** The fixed-size, open-addressing hash map: linear probing with wrap-around and
    backward-shift deletion instead of tombstones.

    Keys are compared through `content` (what the caller's `equals` looks at) and hashed on
    it, so two distinct keys may stand for the same entry.
 */
module HashMap {
  import opened Wrappers

  /** What the caller supplies at creation: `equals(a, b)` is `content(a) == content(b)`. */
  datatype Keying<!K, !C(==)> = Keying(content: K -> C, hash: C -> nat)

  datatype Item<K, V> = Item(key: K, value: V)

  type Slots<K, V> = seq<Option<Item<K, V>>>

  // ------------------------------------------------------------------ circular order

  /** Traversing an array from `low`, wrapping at the end, stopping at `high`: is `index` met? */
  predicate Between(index: nat, low: nat, high: nat) {
    if low <= high then low <= index <= high else low <= index || index <= high
  }

  /** Number of steps from `low` to `high` on a circle of `n` slots. */
  function Dist(n: nat, low: nat, high: nat): (d: nat)
    requires low < n && high < n
  {
    if low <= high then high - low else high + n - low
  }

  /** The source's test is exactly "no farther from `low` than `high` is". */
  lemma BetweenIsCircularOrder(n: nat, index: nat, low: nat, high: nat)
    requires index < n && low < n && high < n
    ensures Between(index, low, high) <==> Dist(n, low, index) <= Dist(n, low, high)
    ensures Between(index, low, high) ==>
              Dist(n, low, index) + Dist(n, index, high) == Dist(n, low, high)
  {
  }

  // ------------------------------------------------------------------ table invariant

  function Home<K, C, V>(ky: Keying<K, C>, n: nat, it: Item<K, V>): (h: nat)
    requires n > 0
    ensures h < n
  {
    ky.hash(ky.content(it.key)) % n
  }

  /** Every stored item other than the one at `hole` is reachable by probing from its home:
      all slots on the way are occupied. `hole` is a slot being emptied; `hole == |s|` means none. */
  ghost predicate Probes<K, C, V>(ky: Keying<K, C>, s: Slots<K, V>, hole: nat) {
    forall i, j | 0 <= i < |s| && 0 <= j < |s| && j != hole && s[j].Some?
      :: Between(i, Home(ky, |s|, s[j].value), j) ==> s[i].Some?
  }

  /** No two items (the one at `hole` aside) have equal keys. */
  ghost predicate Distinct<K, C, V>(ky: Keying<K, C>, s: Slots<K, V>, hole: nat) {
    forall i, j :: 0 <= i < j < |s| && i != hole && j != hole && s[i].Some? && s[j].Some?
                   ==> ky.content(s[i].value.key) != ky.content(s[j].value.key)
  }

  ghost predicate StoredAt<K, C, V>(ky: Keying<K, C>, s: Slots<K, V>, hole: nat, c: C, j: nat) {
    j < |s| && j != hole && s[j].Some? && ky.content(s[j].value.key) == c
  }

  /** The finite map the table stands for, the item at `hole` not counted. */
  ghost predicate Represents<K, C(!new), V>(ky: Keying<K, C>, s: Slots<K, V>, hole: nat, m: map<C, Item<K, V>>) {
    && (forall j :: 0 <= j < |s| && j != hole && s[j].Some? ==>
          ky.content(s[j].value.key) in m && m[ky.content(s[j].value.key)] == s[j].value)
    && (forall c :: c in m ==> exists j :: StoredAt(ky, s, hole, c, j))
  }

  ghost predicate Table<K, C(!new), V>(ky: Keying<K, C>, s: Slots<K, V>, hole: nat, m: map<C, Item<K, V>>) {
    |s| > 0 && Probes(ky, s, hole) && Distinct(ky, s, hole) && Represents(ky, s, hole, m)
  }

  // ------------------------------------------------------------------ lookup

  /** What probing for `c` returns: the first slot from c's home that is empty or holds c;
      nothing when a whole turn met neither. */
  ghost predicate Found<K, C, V>(ky: Keying<K, C>, s: Slots<K, V>, c: C, r: Option<nat>)
    requires |s| > 0
  {
    var home := ky.hash(c) % |s|;
    match r
    case None => forall i :: 0 <= i < |s| ==> s[i].Some? && ky.content(s[i].value.key) != c
    case Some(k) =>
      && k < |s|
      && (s[k].Some? ==> ky.content(s[k].value.key) == c)
      && forall i :: 0 <= i < |s| && i != k && Between(i, home, k) ==>
                       s[i].Some? && ky.content(s[i].value.key) != c
  }

  /** Probing is complete: a stored key is found where it is stored, an absent one is not. */
  lemma FoundIsLookup<K, C(!new), V>(ky: Keying<K, C>, s: Slots<K, V>, m: map<C, Item<K, V>>, c: C, r: Option<nat>)
    requires Table(ky, s, |s|, m) && Found(ky, s, c, r)
    ensures c in m <==> r.Some? && s[r.value].Some?
    ensures c in m ==> m[c] == s[r.value].value
  {
    if c in m {
      var j: nat :| StoredAt(ky, s, |s|, c, j);
      var home := ky.hash(c) % |s|;
      assert home == Home(ky, |s|, s[j].value);
      if r.Some? {
        assert Between(r.value, home, j) || Between(j, home, r.value);
      }
    }
  }

  // ------------------------------------------------------------------ size

  function Occupied<K, V>(s: Slots<K, V>): (k: nat)
    ensures k <= |s|
    ensures k == |s| <==> forall i :: 0 <= i < |s| ==> s[i].Some?
  {
    if s == [] then 0
    else
      var r := Occupied(s[..|s| - 1]);
      assert forall i :: 0 <= i < |s| - 1 ==> s[i] == s[..|s| - 1][i];
      r + if s[|s| - 1].Some? then 1 else 0
  }

  ghost function Contents<K, C, V>(ky: Keying<K, C>, s: Slots<K, V>): set<C> {
    if s == [] then {}
    else
      var last := s[|s| - 1];
      Contents(ky, s[..|s| - 1]) + if last.Some? then {ky.content(last.value.key)} else {}
  }

  lemma {:induction false} InContents<K, C, V>(ky: Keying<K, C>, s: Slots<K, V>, c: C)
    ensures c in Contents(ky, s) <==> exists j: nat :: StoredAt(ky, s, |s|, c, j)
  {
    if s != [] {
      var n, t := |s| - 1, s[..|s| - 1];
      InContents(ky, t, c);
      if c in Contents(ky, t) {
        var j: nat :| StoredAt(ky, t, |t|, c, j);
        assert StoredAt(ky, s, |s|, c, j);
      } else if c in Contents(ky, s) {
        assert StoredAt(ky, s, |s|, c, n);
      } else {
        forall j: nat ensures !StoredAt(ky, s, |s|, c, j) {
          assert StoredAt(ky, s, |s|, c, j) && j < n ==> StoredAt(ky, t, |t|, c, j);
        }
      }
    }
  }

  lemma {:induction false} ContentsCardinality<K, C, V>(ky: Keying<K, C>, s: Slots<K, V>)
    requires Distinct(ky, s, |s|)
    ensures |Contents(ky, s)| == Occupied(s)
  {
    if s != [] {
      var n, t := |s| - 1, s[..|s| - 1];
      ContentsCardinality(ky, t);
      if s[n].Some? {
        var c := ky.content(s[n].value.key);
        InContents(ky, t, c);
        assert c !in Contents(ky, t);
      }
    }
  }

  /** The map has as many entries as the table has occupied slots. */
  lemma ModelSize<K, C(!new), V>(ky: Keying<K, C>, s: Slots<K, V>, m: map<C, Item<K, V>>)
    requires Table(ky, s, |s|, m)
    ensures |m| == Occupied(s)
  {
    assert m.Keys == Contents(ky, s) by {
      forall c ensures c in m <==> c in Contents(ky, s) {
        InContents(ky, s, c);
        if c in Contents(ky, s) {
          var j: nat :| StoredAt(ky, s, |s|, c, j);
        }
      }
    }
    ContentsCardinality(ky, s);
  }

  // ------------------------------------------------------------------ insertion

  lemma StoreKeepsTable<K, C(!new), V>(ky: Keying<K, C>, s: Slots<K, V>, m: map<C, Item<K, V>>, k: nat, it: Item<K, V>)
    requires Table(ky, s, |s|, m) && Found(ky, s, ky.content(it.key), Some(k))
    ensures Table(ky, s[k := Some(it)], |s|, m[ky.content(it.key) := it])
  {
    var c := ky.content(it.key);
    var s', m' := s[k := Some(it)], m[c := it];
    FoundIsLookup(ky, s, m, c, Some(k));
    assert Represents(ky, s', |s|, m') by {
      assert StoredAt(ky, s', |s|, c, k);
      forall d | d in m && d != c ensures exists j :: StoredAt(ky, s', |s|, d, j) {
        var j: nat :| StoredAt(ky, s, |s|, d, j);
        assert StoredAt(ky, s', |s|, d, j);
      }
    }
  }

  // ------------------------------------------------------------------ deletion

  function Sum(a: seq<nat>): nat {
    if a == [] then 0 else Sum(a[..|a| - 1]) + a[|a| - 1]
  }

  lemma {:induction false} SumUpdate(a: seq<nat>, i: nat, v: nat)
    requires i < |a|
    ensures Sum(a[i := v]) + a[i] == Sum(a) + v
  {
    var n := |a| - 1;
    if i == n {
      assert a[i := v][..n] == a[..n];
    } else {
      assert a[i := v][..n] == a[..n][i := v];
      SumUpdate(a[..n], i, v);
    }
  }

  /** How far each item other than the one at `hole` sits from its home. */
  ghost function Displacements<K, C, V>(ky: Keying<K, C>, s: Slots<K, V>, hole: nat): (a: seq<nat>)
    ensures |a| == |s|
  {
    seq(|s|, j requires 0 <= j < |s| =>
      if j == hole || s[j].None? then 0 else Dist(|s|, Home(ky, |s|, s[j].value), j))
  }

  ghost function TotalDisplacement<K, C, V>(ky: Keying<K, C>, s: Slots<K, V>, hole: nat): nat {
    Sum(Displacements(ky, s, hole))
  }

  /** Moving the item at `i` back into the hole brings it closer to home, so the recursion of
      the deletion ends, even in a full table where no empty slot stops it. */
  lemma MoveDecreases<K, C, V>(ky: Keying<K, C>, s: Slots<K, V>, hole: nat, i: nat)
    requires hole < |s| && i < |s| && i != hole && s[i].Some?
    requires Between(hole, Home(ky, |s|, s[i].value), i)
    ensures TotalDisplacement(ky, s[hole := s[i]], i) < TotalDisplacement(ky, s, hole)
  {
    var n, h := |s|, Home(ky, |s|, s[i].value);
    var a := Displacements(ky, s, hole);
    var b := a[i := 0];
    assert Displacements(ky, s[hole := s[i]], i) == b[hole := Dist(n, h, hole)];
    SumUpdate(a, i, 0);
    SumUpdate(b, hole, Dist(n, h, hole));
    BetweenIsCircularOrder(n, hole, h, i);
  }

  /** Moving an item back into the hole it was waiting behind keeps every other item
      reachable; its old slot becomes the hole. */
  lemma MoveKeepsTable<K, C(!new), V>(ky: Keying<K, C>, s: Slots<K, V>, hole: nat, i: nat, m: map<C, Item<K, V>>)
    requires Table(ky, s, hole, m)
    requires hole < |s| && i < |s| && i != hole && s[hole].Some? && s[i].Some?
    requires Between(hole, Home(ky, |s|, s[i].value), i)
    ensures Table(ky, s[hole := s[i]], i, m)
  {
    var s' := s[hole := s[i]];
    assert Probes(ky, s', i) by {
      forall a, j | 0 <= a < |s| && 0 <= j < |s| && j != i && s'[j].Some?
                    && Between(a, Home(ky, |s|, s'[j].value), j)
        ensures s'[a].Some?
      {
        if j == hole {
          assert Between(a, Home(ky, |s|, s[i].value), i);
        } else {
          assert s[j].Some? && Between(a, Home(ky, |s|, s[j].value), j);
        }
      }
    }
    assert Represents(ky, s', i, m) by {
      forall c | c in m ensures exists j :: StoredAt(ky, s', i, c, j) {
        var j: nat :| StoredAt(ky, s, hole, c, j);
        assert StoredAt(ky, s', i, c, if j == i then hole else j);
      }
    }
  }

  /** From the hole, `k` steps of the scan have met only items that must stay where they are. */
  ghost predicate Scanned<K, C, V>(ky: Keying<K, C>, s: Slots<K, V>, hole: nat, i: nat)
    requires |s| > 0
  {
    i < |s| && s[i].Some? && !Between(hole, Home(ky, |s|, s[i].value), i)
  }

  /** When the scan stops, at an empty slot or after a whole turn, clearing the hole is safe. */
  lemma ClearKeepsTable<K, C(!new), V>(ky: Keying<K, C>, s: Slots<K, V>, hole: nat, stop: nat, m: map<C, Item<K, V>>)
    requires Table(ky, s, hole, m)
    requires hole < |s| && stop < |s| && s[hole].Some?
    requires stop != hole ==> s[stop].None?
    requires forall i | 0 <= i < |s| && i != hole && i != stop
               :: stop == hole || Between(i, hole, stop) ==> Scanned(ky, s, hole, i)
    ensures Table(ky, s[hole := None], |s|, m)
  {
    var s' := s[hole := None];
    forall j | 0 <= j < |s| && j != hole && s[j].Some?
      ensures !Between(hole, Home(ky, |s|, s[j].value), j)
    {
      if stop == hole || Between(j, hole, stop) {
        assert Scanned(ky, s, hole, j);
      } else {
        // the empty slot lies between the hole and j, so no probe sequence runs through both
        assert Between(stop, hole, j);
      }
    }
    assert Represents(ky, s', |s|, m) by {
      forall c | c in m ensures exists j :: StoredAt(ky, s', |s|, c, j) {
        var j: nat :| StoredAt(ky, s, hole, c, j);
        assert StoredAt(ky, s', |s|, c, j);
      }
    }
  }

  /** Forgetting the item at `k` turns its slot into a hole. */
  lemma OpenHole<K, C(!new), V>(ky: Keying<K, C>, s: Slots<K, V>, m: map<C, Item<K, V>>, k: nat)
    requires Table(ky, s, |s|, m) && k < |s| && s[k].Some?
    ensures Table(ky, s, k, m - {ky.content(s[k].value.key)})
  {
    var c := ky.content(s[k].value.key);
    assert Represents(ky, s, k, m - {c}) by {
      forall d | d in m && d != c ensures exists j :: StoredAt(ky, s, k, d, j) {
        var j: nat :| StoredAt(ky, s, |s|, d, j);
        assert StoredAt(ky, s, k, d, j);
      }
    }
  }

  // ------------------------------------------------------------------ the class

  datatype Error = EINVAL | ENOBUFS | ENOENT

  class HashMap<K, C(==, !new), V> {
    const keying: Keying<K, C>
    const items: array<Option<Item<K, V>>>
    ghost var model: map<C, Item<K, V>>

    ghost predicate Valid()
      reads this, items
    {
      Table(keying, items[..], items.Length, model)
    }

    constructor (keying: Keying<K, C>, count: nat)
      requires count > 0
      ensures Valid() && model == map[] && fresh(items)
      ensures this.keying == keying && items.Length == count
    {
      this.keying := keying;
      items := new Option<Item<K, V>>[count](_ => None);
      model := map[];
    }

    /** Probing: from the key's home to the end, then from the start to the home. */
    method KeyToSlot(key: K) returns (slot: Option<nat>)
      requires items.Length > 0
      ensures Found(keying, items[..], keying.content(key), slot)
    {
      var c := keying.content(key);
      var index := keying.hash(c) % items.Length;
      for i := index to items.Length
        invariant forall j :: index <= j < i ==> items[j].Some? && keying.content(items[j].value.key) != c
      {
        if items[i].None? || keying.content(items[i].value.key) == c {
          return Some(i);
        }
      }
      for i := 0 to index
        invariant forall j :: index <= j < items.Length ==> items[j].Some? && keying.content(items[j].value.key) != c
        invariant forall j :: 0 <= j < i ==> items[j].Some? && keying.content(items[j].value.key) != c
      {
        if items[i].None? || keying.content(items[i].value.key) == c {
          return Some(i);
        }
      }
      return None;
    }

    /** ENOBUFS exactly when the key is absent and no slot is left; otherwise the map gains
        (or replaces) this one association. */
    method Set(key: K, value: V) returns (error: Option<Error>)
      requires Valid()
      modifies this, items
      ensures Valid()
      ensures error == if keying.content(key) in old(model) || |old(model)| < items.Length then None else Some(ENOBUFS)
      ensures model == if error.None? then old(model)[keying.content(key) := Item(key, value)] else old(model)
    {
      var slot := KeyToSlot(key);
      FoundIsLookup(keying, items[..], model, keying.content(key), slot);
      ModelSize(keying, items[..], model);
      if slot.None? {
        return Some(ENOBUFS);
      }
      StoreKeepsTable(keying, items[..], model, slot.value, Item(key, value));
      items[slot.value] := Some(Item(key, value));
      model := model[keying.content(key) := Item(key, value)];
      return None;
    }

    method Get(key: K) returns (value: Option<V>)
      requires Valid()
      ensures value == if keying.content(key) in model then Some(model[keying.content(key)].value) else None
    {
      var slot := KeyToSlot(key);
      FoundIsLookup(keying, items[..], model, keying.content(key), slot);
      if slot.None? || items[slot.value].None? {
        return None;
      }
      return Some(items[slot.value].value.value);
    }

    /** Backward-shift deletion of the item at `index`. */
    method Remove(index: nat)
      requires index < items.Length && items[index].Some?
      requires Table(keying, items[..], index, model)
      modifies items
      ensures Valid()
      decreases TotalDisplacement(keying, items[..], index)
    {
      ghost var s := items[..];
      for i := index + 1 to items.Length
        invariant items[..] == s
        invariant forall j :: index < j < i ==> Scanned(keying, s, index, j)
      {
        if items[i].None? {
          ClearKeepsTable(keying, s, index, i, model);
          items[index] := None;
          assert items[..] == s[index := None];
          return;
        }
        if Between(index, Home(keying, items.Length, items[i].value), i) {
          MoveKeepsTable(keying, s, index, i, model);
          MoveDecreases(keying, s, index, i);
          items[index] := items[i];
          assert items[..] == s[index := s[i]];
          Remove(i);
          return;
        }
      }
      for i := 0 to index
        invariant items[..] == s
        invariant forall j :: index < j < items.Length ==> Scanned(keying, s, index, j)
        invariant forall j :: 0 <= j < i ==> Scanned(keying, s, index, j)
      {
        if items[i].None? {
          ClearKeepsTable(keying, s, index, i, model);
          items[index] := None;
          assert items[..] == s[index := None];
          return;
        }
        if Between(index, Home(keying, items.Length, items[i].value), i) {
          MoveKeepsTable(keying, s, index, i, model);
          MoveDecreases(keying, s, index, i);
          items[index] := items[i];
          assert items[..] == s[index := s[i]];
          Remove(i);
          return;
        }
      }
      ClearKeepsTable(keying, s, index, index, model);
      items[index] := None;
      assert items[..] == s[index := None];
    }

    /** Returns and removes exactly the association of `key`; ENOENT (None) when there is none. */
    method Pop(key: K) returns (value: Option<V>)
      requires Valid()
      modifies this, items
      ensures Valid()
      ensures value == if keying.content(key) in old(model) then Some(old(model)[keying.content(key)].value) else None
      ensures model == old(model) - {keying.content(key)}
    {
      var slot := KeyToSlot(key);
      FoundIsLookup(keying, items[..], model, keying.content(key), slot);
      if slot.None? || items[slot.value].None? {
        assert model == model - {keying.content(key)};
        return None;
      }
      value := Some(items[slot.value].value.value);
      OpenHole(keying, items[..], model, slot.value);
      model := model - {keying.content(key)};
      Remove(slot.value);
    }
  }

  // ------------------------------------------------------------------ whole runs

  datatype Op<K, V> = Set(key: K, value: V) | Get(key: K) | Pop(key: K)

  datatype Outcome<V> = Stored | Full | Value(v: V) | Missing

  /** The reference: a plain finite map that holds at most `count` associations. */
  function Step<K, C, V>(ky: Keying<K, C>, count: nat, m: map<C, V>, op: Op<K, V>): (map<C, V>, Outcome<V>) {
    var c := ky.content(op.key);
    match op
    case Set(_, v) => if c in m || |m| < count then (m[c := v], Stored) else (m, Full)
    case Get(_) => (m, if c in m then Value(m[c]) else Missing)
    case Pop(_) => (m - {c}, if c in m then Value(m[c]) else Missing)
  }

  function Replay<K, C, V>(ky: Keying<K, C>, count: nat, m: map<C, V>, ops: seq<Op<K, V>>): (map<C, V>, seq<Outcome<V>>) {
    if ops == [] then (m, [])
    else
      var (m1, out) := Replay(ky, count, m, ops[..|ops| - 1]);
      var (m2, o) := Step(ky, count, m1, ops[|ops| - 1]);
      (m2, out + [o])
  }

  ghost function Values<K, C, V>(m: map<C, Item<K, V>>): (r: map<C, V>)
    ensures r.Keys == m.Keys && |r| == |m|
  {
    var r := map c | c in m :: m[c].value;
    assert r.Keys == m.Keys;
    r
  }

  lemma ValuesUpdate<K, C, V>(m: map<C, Item<K, V>>, c: C, it: Item<K, V>)
    ensures Values(m[c := it]) == Values(m)[c := it.value]
    ensures Values(m - {c}) == Values(m) - {c}
  {
  }

  method Apply<K, C(==, !new), V>(h: HashMap<K, C, V>, op: Op<K, V>) returns (o: Outcome<V>)
    requires h.Valid()
    modifies h, h.items
    ensures h.Valid()
    ensures (Values(h.model), o) == Step(h.keying, h.items.Length, Values(old(h.model)), op)
  {
    hide HashMap.Valid, Table;
    match op
    case Set(k, v) =>
      ValuesUpdate(h.model, h.keying.content(k), Item(k, v));
      var e := h.Set(k, v);
      o := if e.None? then Stored else Full;
    case Get(k) =>
      var r := h.Get(k);
      o := if r.None? then Missing else Value(r.value);
    case Pop(k) =>
      ghost var m := h.model;
      var r := h.Pop(k);
      assert h.model == m - {h.keying.content(k)};
      assert Values(h.model) == Values(m) - {h.keying.content(k)};
      o := if r.None? then Missing else Value(r.value);
  }

  /** Every run from an empty table answers as the plain map does. `rbh_hashmap_new` refuses a
      zero count. */
  method Run<K, C(==, !new), V>(keying: Keying<K, C>, count: nat, ops: seq<Op<K, V>>)
    returns (error: Option<Error>, outcomes: seq<Outcome<V>>)
    ensures error == if count == 0 then Some(EINVAL) else None
    ensures error.None? ==> outcomes == Replay(keying, count, map[], ops).1
  {
    outcomes := [];
    if count == 0 {
      return Some(EINVAL), [];
    }
    error := None;
    var h := new HashMap<K, C, V>(keying, count);
    for i := 0 to |ops|
      invariant h.Valid() && h.keying == keying && h.items.Length == count && fresh(h) && fresh(h.items)
      invariant Replay(keying, count, map[], ops[..i]) == (Values(h.model), outcomes)
    {
      assert ops[..i + 1][..i] == ops[..i];
      var o := Apply(h, ops[i]);
      outcomes := outcomes + [o];
    }
    assert ops[..|ops|] == ops;
  }
}
