/** Walking a chained table with an iterator (lib/hash.c:280-315), also while elements are removed. */
module HashWalk {
  import opened Wrappers
  import opened HashSpec

  /** The iterator: the next slot to look at, and the element delivered last. */
  datatype Cursor = Cursor(slotIndex: nat, current: Option<nat>)

  const START := Cursor(0, None)

  /** Position of the element with this address. */
  function FindId<V>(ns: seq<Node<V>>, id: nat): (r: Option<nat>)
    ensures r.Some? ==> r.value < |ns| && ns[r.value].id == id
    ensures r.None? ==> forall i :: 0 <= i < |ns| ==> ns[i].id != id
  {
    if ns == [] then None
    else if ns[0].id == id then Some(0)
    else
      var r := FindId(ns[1..], id);
      if r.Some? then Some(r.value + 1) else None
  }

  /** The element delivered last is still in the list before slotIndex. */
  predicate CursorOk<V>(t: Table<V>, c: Cursor) {
    && c.slotIndex <= |t|
    && (c.current.Some? ==> 0 < c.slotIndex && FindId(t[c.slotIndex - 1], c.current.value).Some?)
  }

  /** The elements still to be delivered. */
  function Rest<V>(t: Table<V>, c: Cursor): seq<Node<V>>
    requires CursorOk(t, c)
  {
    match c.current
    case None => Flatten(t[c.slotIndex..])
    case Some(id) =>
      var l := t[c.slotIndex - 1];
      l[FindId(l, id).value + 1..] + Flatten(t[c.slotIndex..])
  }

  /** The first slot from i on that has elements, or the number of slots. */
  function FirstFull<V>(t: Table<V>, i: nat): (r: nat)
    requires i <= |t|
    ensures i <= r <= |t| && (r < |t| ==> t[r] != []) && forall k :: i <= k < r ==> t[k] == []
    decreases |t| - i
  {
    if i == |t| || t[i] != [] then i else FirstFull(t, i + 1)
  }

  /** The element after the current one in its own list. */
  function Successor<V>(t: Table<V>, c: Cursor): (r: Option<Node<V>>)
    requires CursorOk(t, c)
  {
    if c.current.None? then None
    else
      var l := t[c.slotIndex - 1];
      var j := FindId(l, c.current.value).value + 1;
      if j < |l| then Some(l[j]) else None
  }

  /** One call of the iterator. */
  function Next<V>(t: Table<V>, c: Cursor): (Cursor, Option<Node<V>>)
    requires CursorOk(t, c)
  {
    var n := Successor(t, c);
    if n.Some? then (Cursor(c.slotIndex, Some(n.value.id)), n)
    else
      var i := FirstFull(t, c.slotIndex);
      if i < |t| then (Cursor(i + 1, Some(t[i][0].id)), Some(t[i][0]))
      else (Cursor(c.slotIndex, None), None)
  }

  ghost predicate UniqueIds<V>(ns: seq<Node<V>>) {
    forall i, j :: 0 <= i < j < |ns| ==> ns[i].id != ns[j].id
  }

  lemma FindIdUnique<V>(ns: seq<Node<V>>, i: nat)
    requires UniqueIds(ns) && i < |ns|
    ensures FindId(ns, ns[i].id) == Some(i)
  {
    var j := FindId(ns, ns[i].id).value;
    assert ns[j].id == ns[i].id;
  }

  lemma SlotUnique<V>(t: Table<V>, s: nat)
    requires UniqueKeys(Flatten(t)) && s < |t|
    ensures UniqueIds(t[s])
  {
    FlattenSplit(t, s);
    var n := |Flatten(t[..s])|;
    assert forall i :: 0 <= i < |t[s]| ==> t[s][i] == Flatten(t)[n + i];
  }

  lemma {:induction false} SkipEmpty<T>(t: seq<seq<T>>, i: nat, r: nat)
    requires i <= r <= |t| && forall k :: i <= k < r ==> t[k] == []
    ensures Flatten(t[i..]) == Flatten(t[r..])
    decreases r - i
  {
    if i < r {
      SkipEmpty(t, i + 1, r);
      assert t[i..][1..] == t[i + 1..];
    }
  }

  lemma Peel<T>(l: seq<T>, j: nat, f: seq<T>)
    requires j < |l|
    ensures l[j..] + f == [l[j]] + (l[j + 1..] + f)
  {
  }

  lemma NextInSlot<V>(t: Table<V>, c: Cursor)
    requires UniqueKeys(Flatten(t)) && CursorOk(t, c) && Successor(t, c).Some?
    ensures var n := Successor(t, c); var d := Cursor(c.slotIndex, Some(n.value.id));
      CursorOk(t, d) && Rest(t, c) == [n.value] + Rest(t, d)
  {
    var l := t[c.slotIndex - 1];
    var j := FindId(l, c.current.value).value + 1;
    SlotUnique(t, c.slotIndex - 1);
    FindIdUnique(l, j);
    Peel(l, j, Flatten(t[c.slotIndex..]));
    hide Flatten, FindId, UniqueIds, UniqueKeys;
  }

  lemma RestAtSlotEnd<V>(t: Table<V>, c: Cursor)
    requires CursorOk(t, c) && Successor(t, c).None?
    ensures Rest(t, c) == Flatten(t[c.slotIndex..])
  {
    hide Flatten, FindId;
  }

  lemma RestAtSlotStart<V>(t: Table<V>, i: nat)
    requires i < |t| && t[i] != []
    ensures var d := Cursor(i + 1, Some(t[i][0].id));
      CursorOk(t, d) && Rest(t, d) == t[i][1..] + Flatten(t[i + 1..])
  {
    assert FindId(t[i], t[i][0].id) == Some(0);
    hide Flatten, FindId;
  }

  lemma FlattenFrom<V>(t: Table<V>, i: nat)
    requires i < |t| && t[i] != []
    ensures Flatten(t[i..]) == [t[i][0]] + (t[i][1..] + Flatten(t[i + 1..]))
  {
    assert t[i..][1..] == t[i + 1..];
  }

  lemma NextSlot<V>(t: Table<V>, c: Cursor)
    requires CursorOk(t, c) && Successor(t, c).None?
    ensures var i := FirstFull(t, c.slotIndex);
      if i == |t| then
        var d := Cursor(c.slotIndex, None); CursorOk(t, d) && Rest(t, c) == [] && Rest(t, d) == []
      else
        var d := Cursor(i + 1, Some(t[i][0].id));
        CursorOk(t, d) && Rest(t, c) == [t[i][0]] + Rest(t, d)
  {
    var i := FirstFull(t, c.slotIndex);
    SkipEmpty(t, c.slotIndex, i);
    RestAtSlotEnd(t, c);
    if i < |t| {
      hide Flatten, FindId, UniqueKeys, Rest, CursorOk, FirstFull, Successor;
      RestAtSlotStart(t, i);
      FlattenFrom(t, i);
    }
  }

  /** Each call delivers the first of the remaining elements, and nothing once there are none. */
  lemma NextTakesFirst<V>(t: Table<V>, c: Cursor)
    requires UniqueKeys(Flatten(t)) && CursorOk(t, c)
    ensures var (d, r) := Next(t, c);
      && CursorOk(t, d)
      && (if Rest(t, c) == [] then r == None && Rest(t, d) == [] && d.current.None?
          else r == Some(Rest(t, c)[0]) && Rest(t, d) == Rest(t, c)[1..] && d.current == Some(r.value.id))
  {
    hide Rest, Successor, CursorOk, Flatten, FirstFull, UniqueKeys;
    if Successor(t, c).Some? {
      NextInSlot(t, c);
    } else {
      NextSlot(t, c);
    }
  }

  /** What n calls deliver. */
  function Deliveries<V>(t: Table<V>, c: Cursor, n: nat): (r: seq<Option<Node<V>>>)
    requires UniqueKeys(Flatten(t)) && CursorOk(t, c)
    ensures |r| == n
    decreases n
  {
    if n == 0 then []
    else
      NextTakesFirst(t, c);
      var (d, r) := Next(t, c);
      [r] + Deliveries(t, d, n - 1)
  }

  lemma {:induction false} DeliversRest<V>(t: Table<V>, c: Cursor, n: nat)
    requires UniqueKeys(Flatten(t)) && CursorOk(t, c)
    ensures forall i :: 0 <= i < n ==>
      Deliveries(t, c, n)[i] == if i < |Rest(t, c)| then Some(Rest(t, c)[i]) else None
    decreases n
  {
    hide Flatten, UniqueKeys, CursorOk, Next, Rest;
    if n > 0 {
      NextTakesFirst(t, c);
      DeliversRest(t, Next(t, c).0, n - 1);
    }
  }

  /**
   * A full iteration over an unchanged table delivers every element exactly once, in slot order, and
   * every call after that delivers nothing.
   */
  lemma FullIteration<V>(t: Table<V>, n: nat)
    requires UniqueKeys(Flatten(t))
    ensures Rest(t, START) == Flatten(t)
    ensures forall i :: 0 <= i < n ==>
      Deliveries(t, START, n)[i] == if i < |Flatten(t)| then Some(Flatten(t)[i]) else None
  {
    assert t[0..] == t;
    DeliversRest(t, START, n);
  }

  /** Whatever stands after the current element is still to be delivered. */
  lemma LaterInRest<V>(t: Table<V>, c: Cursor, s: nat, j: nat)
    requires CursorOk(t, c) && s < |t| && j < |t[s]|
    requires c.slotIndex <= s
      || (c.current.Some? && s == c.slotIndex - 1 && FindId(t[s], c.current.value).value < j)
    ensures t[s][j] in Rest(t, c)
  {
    var i := c.slotIndex;
    if i <= s {
      var f := Flatten(t[i..]);
      InFlatten(t[i..], s - i, j);
      var k := |Flatten(t[i..][..s - i])| + j;
      assert f[k] == t[s][j];
      assert Rest(t, c)[|Rest(t, c)| - |f| + k] == f[k];
    } else {
      assert Rest(t, c)[j - FindId(t[s], c.current.value).value - 1] == t[s][j];
    }
  }

  /**
   * Removing an element that was delivered before the current one changes nothing for the iterator:
   * it is still good and has the same elements left.
   */
  lemma RemoveBehind<V>(t: Table<V>, c: Cursor, s: nat, j: nat)
    requires UniqueKeys(Flatten(t)) && CursorOk(t, c) && s < |t| && j < |t[s]|
    requires t[s][j] !in Rest(t, c) && c.current != Some(t[s][j].id)
    ensures var u := t[s := RemoveAt(t[s], j)]; CursorOk(u, c) && Rest(u, c) == Rest(t, c)
  {
    hide Flatten, RemoveAt, FindId, UniqueIds, UniqueKeys;
    var u, i := t[s := RemoveAt(t[s], j)], c.slotIndex;
    if i <= s || (c.current.Some? && s == i - 1 && FindId(t[s], c.current.value).value < j) {
      LaterInRest(t, c, s, j);
    } else {
      assert u[i..] == t[i..];
      if c.current.Some? && s == i - 1 {
        SlotUnique(t, s);
        BehindInList(t[s], FindId(t[s], c.current.value).value, j);
      }
    }
  }

  lemma BehindInList<V>(l: seq<Node<V>>, p: nat, j: nat)
    requires UniqueIds(l) && j < p < |l|
    ensures FindId(RemoveAt(l, j), l[p].id) == Some(p - 1) && RemoveAt(l, j)[p..] == l[p + 1..]
  {
    hide *;
    RemoveKeepsIdsUnique(l, j);
    RemoveAtIndex(l, j);
    assert RemoveAt(l, j)[p - 1] == l[p];
    FindIdUnique(RemoveAt(l, j), p - 1);
    BehindTail(l, j, p);
  }

  lemma RemoveKeepsIdsUnique<V>(l: seq<Node<V>>, j: nat)
    requires UniqueIds(l) && j < |l|
    ensures UniqueIds(RemoveAt(l, j))
  {
    hide RemoveAt;
    RemoveAtIndex(l, j);
  }

  lemma BehindTail<T>(l: seq<T>, j: nat, p: nat)
    requires j < p < |l|
    ensures |RemoveAt(l, j)| == |l| - 1 && RemoveAt(l, j)[p..] == l[p + 1..]
  {
  }
}
