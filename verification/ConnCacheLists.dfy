/** Lists of lists, and hash entries by position: what the connection cache's proofs stand on. */
module ConnCacheLists {
  import opened Wrappers
  import opened HashSpec
  import opened HashWalk

  /** Position of the first occurrence, or the length. */
  function IndexOf<T(==)>(s: seq<T>, x: T): (r: nat)
    ensures r <= |s| && (r < |s| ==> s[r] == x) && forall i :: 0 <= i < r ==> s[i] != x
  {
    if s == [] || s[0] == x then 0 else IndexOf(s[1..], x) + 1
  }

  ghost predicate Distinct<T>(s: seq<T>) {
    forall i, j :: 0 <= i < j < |s| ==> s[i] != s[j]
  }

  lemma InsertAtIndex<T>(s: seq<T>, i: nat, x: T)
    requires i <= |s|
    ensures |InsertAt(s, i, x)| == |s| + 1 && InsertAt(s, i, x)[i] == x
    ensures forall j :: 0 <= j <= |s| && j != i ==> InsertAt(s, i, x)[j] == s[if j < i then j else j - 1]
  {
  }

  lemma {:induction false} FlattenAppend<T>(a: seq<seq<T>>, b: seq<seq<T>>)
    ensures Flatten(a + b) == Flatten(a) + Flatten(b)
    decreases |a|
  {
    if a == [] {
      assert a + b == b;
    } else {
      FlattenAppend(a[1..], b);
      assert (a + b)[1..] == a[1..] + b;
    }
  }

  lemma FlattenOne<T>(l: seq<T>)
    ensures Flatten([l]) == l
  {
  }

  /** An empty list can come or go without anyone noticing. */
  lemma EmptyListInvisible<T>(ll: seq<seq<T>>, i: nat)
    requires i <= |ll|
    ensures Flatten(InsertAt(ll, i, [])) == Flatten(ll)
  {
    hide Flatten;
    FlattenAppend(ll[..i] + [[]], ll[i..]);
    FlattenAppend(ll[..i], [[]]);
    FlattenAppend(ll[..i], ll[i..]);
    FlattenOne<T>([]);
    assert ll[..i] + ll[i..] == ll;
  }

  lemma EmptyListRemoved<T>(ll: seq<seq<T>>, i: nat)
    requires i < |ll| && ll[i] == []
    ensures Flatten(RemoveAt(ll, i)) == Flatten(ll)
  {
    var r := RemoveAt(ll, i);
    assert InsertAt(r, i, ll[i]) == ll;
    EmptyListInvisible(r, i);
  }

  /** Changing one list changes that stretch of the whole and nothing else. */
  lemma OneListChanged<T>(ll: seq<seq<T>>, i: nat, l: seq<T>)
    requires i < |ll|
    ensures Flatten(ll) == Flatten(ll[..i]) + ll[i] + Flatten(ll[i + 1..])
    ensures Flatten(ll[i := l]) == Flatten(ll[..i]) + l + Flatten(ll[i + 1..])
  {
    FlattenSplit(ll, i);
    FlattenUpdate(ll, i, l);
  }

  /** Deleting the key of the i-th element deletes the i-th element. */
  lemma DroppedAt<V>(t: Table<V>, h: HashFn, bound: nat, i: nat)
    requires Sound(t, h, bound) && i < |Flatten(t)|
    ensures Flatten(Dropped(t, h, Flatten(t)[i].key)) == RemoveAt(Flatten(t), i)
  {
    hide Flatten, Find, ToMap, RemoveAt, UniqueKeys;
    var key := Flatten(t)[i].key;
    ToMapHas(Flatten(t), i);
    FoundInMap(t, h, key);
    var s := h(key);
    var j := Find(t[s], key).value;
    InSlotRemoved(t, s, j);
    FindUnique(Flatten(t), i);
    FindUnique(Flatten(t), |Flatten(t[..s])| + j);
  }

  /** Deleting an element that an iterator has passed does not disturb the iterator. */
  lemma DropBehind<V>(t: Table<V>, h: HashFn, bound: nat, i: nat, c: Cursor)
    requires Sound(t, h, bound) && i < |Flatten(t)| && CursorOk(t, c)
    requires Flatten(t)[i] !in Rest(t, c) && c.current != Some(Flatten(t)[i].id)
    ensures var u := Dropped(t, h, Flatten(t)[i].key); CursorOk(u, c) && Rest(u, c) == Rest(t, c)
  {
    hide Flatten, Find, ToMap, RemoveAt, Rest, CursorOk, UniqueKeys;
    var key := Flatten(t)[i].key;
    ToMapHas(Flatten(t), i);
    FoundInMap(t, h, key);
    var s := h(key);
    var j := Find(t[s], key).value;
    InFlatten(t, s, j);
    FindUnique(Flatten(t), i);
    FindUnique(Flatten(t), |Flatten(t[..s])| + j);
    RemoveBehind(t, c, s, j);
  }

  // ---- entries, bundles and back pointers -------------------------------------------------------------

  /** Every hash entry holds a bundle of its own. */
  ghost predicate EntriesOk<B>(nodes: seq<Node<B>>, bundles: seq<B>) {
    && |nodes| == |bundles|
    && (forall i :: 0 <= i < |nodes| ==> nodes[i].ptr == Some(bundles[i]))
    && Distinct(bundles)
  }

  /** A connection points at a bundle exactly when it is in the bundle's list, and it is there once. */
  ghost predicate LinksOk<B, C>(bundles: seq<B>, lists: seq<seq<C>>, back: map<C, Option<B>>) {
    && |bundles| == |lists|
    && (forall i, k :: 0 <= i < |lists| && 0 <= k < |lists[i]| ==>
      lists[i][k] in back && back[lists[i][k]] == Some(bundles[i]))
    && (forall c :: c in back && back[c].Some? ==> ListedAt(c, back[c].value, bundles, lists))
    && forall i :: 0 <= i < |lists| ==> Distinct(lists[i])
  }

  ghost predicate ListedAt<B, C>(c: C, b: B, bundles: seq<B>, lists: seq<seq<C>>)
    requires |bundles| == |lists|
  {
    exists i :: 0 <= i < |bundles| && bundles[i] == b && c in lists[i]
  }

  lemma EntryAdded<B>(nodes: seq<Node<B>>, bundles: seq<B>, i: nat, n: Node<B>, b: B)
    requires EntriesOk(nodes, bundles) && i <= |nodes| && n.ptr == Some(b) && b !in bundles
    ensures EntriesOk(InsertAt(nodes, i, n), InsertAt(bundles, i, b))
  {
    InsertAtIndex(nodes, i, n);
    InsertAtIndex(bundles, i, b);
    hide InsertAt;
  }

  lemma EntryDropped<B>(nodes: seq<Node<B>>, bundles: seq<B>, i: nat)
    requires EntriesOk(nodes, bundles) && i < |nodes|
    ensures EntriesOk(RemoveAt(nodes, i), RemoveAt(bundles, i))
  {
    RemoveAtIndex(nodes, i);
    RemoveAtIndex(bundles, i);
    hide RemoveAt;
  }

  lemma EmptyBundleAdded<B, C>(bundles: seq<B>, lists: seq<seq<C>>, back: map<C, Option<B>>, i: nat, b: B)
    requires LinksOk(bundles, lists, back) && i <= |lists|
    ensures LinksOk(InsertAt(bundles, i, b), InsertAt(lists, i, []), back)
  {
    var bs, ls := InsertAt(bundles, i, b), InsertAt(lists, i, []);
    InsertAtIndex(bundles, i, b);
    InsertAtIndex(lists, i, []);
    hide InsertAt;
    forall c | c in back && back[c].Some?
      ensures ListedAt(c, back[c].value, bs, ls)
    {
      var q :| 0 <= q < |bundles| && bundles[q] == back[c].value && c in lists[q];
      var r := if q < i then q else q + 1;
      assert bs[r] == bundles[q] && ls[r] == lists[q];
    }
  }

  lemma EmptyBundleDropped<B, C>(bundles: seq<B>, lists: seq<seq<C>>, back: map<C, Option<B>>, i: nat)
    requires LinksOk(bundles, lists, back) && i < |lists| && lists[i] == []
    ensures LinksOk(RemoveAt(bundles, i), RemoveAt(lists, i), back)
  {
    var bs, ls := RemoveAt(bundles, i), RemoveAt(lists, i);
    RemoveAtIndex(bundles, i);
    RemoveAtIndex(lists, i);
    hide RemoveAt;
    forall c | c in back && back[c].Some?
      ensures ListedAt(c, back[c].value, bs, ls)
    {
      var q :| 0 <= q < |bundles| && bundles[q] == back[c].value && c in lists[q];
      var r := if q < i then q else q - 1;
      assert bs[r] == bundles[q] && ls[r] == lists[q];
    }
  }

  lemma LinkAdded<B, C>(bundles: seq<B>, lists: seq<seq<C>>, back: map<C, Option<B>>, i: nat, c: C)
    requires LinksOk(bundles, lists, back) && i < |lists| && (c in back ==> back[c].None?)
    ensures LinksOk(bundles, lists[i := lists[i] + [c]], back[c := Some(bundles[i])])
  {
    var ls, bk := lists[i := lists[i] + [c]], back[c := Some(bundles[i])];
    forall d | d in bk && bk[d].Some?
      ensures ListedAt(d, bk[d].value, bundles, ls)
    {
      if d == c {
        assert ls[i][|lists[i]|] == c;
      } else {
        var q :| 0 <= q < |bundles| && bundles[q] == back[d].value && d in lists[q];
        assert d in ls[q];
      }
    }
  }

  lemma LinkCut<B, C>(bundles: seq<B>, lists: seq<seq<C>>, back: map<C, Option<B>>, i: nat, k: nat)
    requires LinksOk(bundles, lists, back) && Distinct(bundles) && i < |lists| && k < |lists[i]|
    ensures LinksOk(bundles, lists[i := RemoveAt(lists[i], k)], back[lists[i][k] := None])
  {
    var c := lists[i][k];
    var ls, bk := lists[i := RemoveAt(lists[i], k)], back[c := None];
    RemoveAtIndex(lists[i], k);
    hide RemoveAt;
    forall d | d in bk && bk[d].Some?
      ensures ListedAt(d, bk[d].value, bundles, ls)
    {
      var q :| 0 <= q < |bundles| && bundles[q] == back[d].value && d in lists[q];
      if q == i {
        var p := IndexOf(lists[i], d);
        assert ls[i][if p < k then p else p - 1] == d;
      }
    }
    forall q, p | 0 <= q < |ls| && 0 <= p < |ls[q]|
      ensures ls[q][p] in bk && bk[ls[q][p]] == Some(bundles[q])
    {
      if q == i {
        assert ls[q][p] == lists[q][if p < k then p else p + 1];
      } else {
        assert ls[q][p] == lists[q][p] && bundles[q] != bundles[i];
      }
    }
  }

  /** No connection is met twice in a walk. */
  lemma MembersDistinct<B, C>(bundles: seq<B>, lists: seq<seq<C>>, back: map<C, Option<B>>)
    requires LinksOk(bundles, lists, back) && Distinct(bundles)
    ensures Distinct(Flatten(lists))
  {
    forall m, n | 0 <= m < n < |Flatten(lists)|
      ensures Flatten(lists)[m] != Flatten(lists)[n]
    {
      var i, j := InSomeSlot(lists, m);
      var p, q := InSomeSlot(lists, n);
      hide Flatten;
      if i != p {
        assert bundles[i] != bundles[p];
        assert back[lists[i][j]] != back[lists[p][q]];
      }
    }
  }

  lemma OneLeft<T>(l: seq<T>, k: nat)
    requires k < |l|
    ensures RemoveAt(l, k) == [] <==> l == [l[k]]
  {
  }

  lemma SetThenRemove<T>(s: seq<T>, i: nat, x: T)
    requires i < |s|
    ensures RemoveAt(s[i := x], i) == RemoveAt(s, i)
  {
  }

  /** A connection has been cut out of the i-th list, and with the last connection the entry. */
  ghost predicate CutOut<B, C>(nodes: seq<Node<B>>, nodes': seq<Node<B>>, bundles: seq<B>, bundles': seq<B>,
                               lists: seq<seq<C>>, lists': seq<seq<C>>, i: nat, c: C)
    requires i < |nodes| == |bundles| == |lists| && c in lists[i]
  {
    if lists[i] == [c]
    then nodes' == RemoveAt(nodes, i) && bundles' == RemoveAt(bundles, i) && lists' == RemoveAt(lists, i)
    else nodes' == nodes && bundles' == bundles && lists' == lists[i := RemoveAt(lists[i], IndexOf(lists[i], c))]
  }
}
