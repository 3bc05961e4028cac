/** Chained tables as values: the lists of lib/hash.c, slot by slot. */
module HashSpec {
  import opened Wrappers

  /** A hash element; id is its address, ptr the stored pointer, None when it is NULL. */
  datatype Node<+V> = Node(id: nat, key: string, ptr: Option<V>)

  type Table<V> = seq<seq<Node<V>>>

  type HashFn = string -> nat

  /** Position of the first element with this key. */
  function Find<V>(ns: seq<Node<V>>, key: string): (r: Option<nat>)
    ensures r.Some? ==> r.value < |ns| && ns[r.value].key == key
    ensures r.None? ==> forall i :: 0 <= i < |ns| ==> ns[i].key != key
  {
    if ns == [] then None
    else if ns[0].key == key then Some(0)
    else
      var r := Find(ns[1..], key);
      if r.Some? then Some(r.value + 1) else None
  }

  function RemoveAt<T>(s: seq<T>, i: nat): seq<T>
    requires i < |s|
  {
    s[..i] + s[i + 1..]
  }

  /** s with x put before position i. */
  function InsertAt<T>(s: seq<T>, i: nat, x: T): seq<T>
    requires i <= |s|
  {
    s[..i] + [x] + s[i..]
  }

  /** b is a with x put somewhere. */
  ghost predicate Inserted<T>(a: seq<T>, b: seq<T>, x: T)
    ensures Inserted(a, b, x) ==> |b| == |a| + 1
  {
    exists k: nat :: k <= |a| && b == InsertAt(a, k, x)
  }

  lemma InsertIs<T>(a: seq<T>, x: T, b: seq<T>)
    ensures |a| <= |a + b| && a + [x] + b == InsertAt(a + b, |a|, x)
  {
  }

  predicate UniqueKeys<V>(ns: seq<Node<V>>) {
    forall i, j :: 0 <= i < j < |ns| ==> ns[i].key != ns[j].key && ns[i].id != ns[j].id
  }

  /** Every element is in the slot of its key, and no key or address occurs twice. */
  ghost predicate Placed<V>(t: Table<V>, h: HashFn) {
    && (forall i, j :: 0 <= i < |t| && 0 <= j < |t[i]| ==> h(t[i][j].key) == i)
    && UniqueKeys(Flatten(t))
  }

  function KeySet<V>(ns: seq<Node<V>>): set<string> { set i | 0 <= i < |ns| :: ns[i].key }

  /** The finite map a list of elements stands for. */
  function ToMap<V>(ns: seq<Node<V>>): map<string, Option<V>> {
    map k | k in KeySet(ns) :: ns[Find(ns, k).value].ptr
  }

  // ---- slots inside the whole ---------------------------------------------------------------------

  lemma {:induction false} FlattenSplit<T>(t: seq<seq<T>>, s: nat)
    requires s < |t|
    ensures Flatten(t) == Flatten(t[..s]) + t[s] + Flatten(t[s + 1..])
    decreases |t|
  {
    if s == 0 {
      assert t[..0] == [];
    } else {
      FlattenSplit(t[1..], s - 1);
      assert t[1..][..s - 1] == t[..s][1..];
      assert t[1..][s..] == t[s + 1..];
    }
  }

  lemma FlattenUpdate<T>(t: seq<seq<T>>, s: nat, l: seq<T>)
    requires s < |t|
    ensures Flatten(t[s := l]) == Flatten(t[..s]) + l + Flatten(t[s + 1..])
  {
    var u := t[s := l];
    FlattenSplit(u, s);
    assert u[..s] == t[..s] && u[s + 1..] == t[s + 1..];
  }

  lemma {:induction false} InSomeSlot<T>(t: seq<seq<T>>, k: nat) returns (i: nat, j: nat)
    requires k < |Flatten(t)|
    ensures i < |t| && j < |t[i]| && t[i][j] == Flatten(t)[k] && k == |Flatten(t[..i])| + j
    decreases |t|
  {
    if k < |t[0]| {
      i, j := 0, k;
    } else {
      i, j := InSomeSlot(t[1..], k - |t[0]|);
      i := i + 1;
      assert t[..i][1..] == t[1..][..i - 1];
    }
  }

  lemma InFlatten<T>(t: seq<seq<T>>, i: nat, j: nat)
    requires i < |t| && j < |t[i]|
    ensures |Flatten(t[..i])| + j < |Flatten(t)| && Flatten(t)[|Flatten(t[..i])| + j] == t[i][j]
  {
    FlattenSplit(t, i);
  }

  /** A key that is not in its own slot is nowhere. */
  lemma OnlyInItsSlot<V>(t: Table<V>, h: HashFn, key: string)
    requires Placed(t, h) && h(key) < |t| && Find(t[h(key)], key).None?
    ensures Find(Flatten(t), key).None?
  {
    var r := Find(Flatten(t), key);
    if r.Some? {
      var i, j := InSomeSlot(t, r.value);
    }
  }

  // ---- removing and adding one element -------------------------------------------------------------

  lemma FindUnique<V>(ns: seq<Node<V>>, i: nat)
    requires UniqueKeys(ns) && i < |ns|
    ensures Find(ns, ns[i].key) == Some(i)
  {
    var j := Find(ns, ns[i].key).value;
    assert ns[j].key == ns[i].key;
  }

  lemma ToMapHas<V>(ns: seq<Node<V>>, i: nat)
    requires UniqueKeys(ns) && i < |ns|
    ensures ns[i].key in ToMap(ns) && ToMap(ns)[ns[i].key] == ns[i].ptr
  {
    FindUnique(ns, i);
  }

  lemma ToMapKey<V>(ns: seq<Node<V>>, k: string) returns (i: nat)
    requires k in ToMap(ns)
    ensures i < |ns| && ns[i].key == k && ToMap(ns)[k] == ns[i].ptr
  {
    i := Find(ns, k).value;
  }

  lemma RemoveAtIndex<T>(s: seq<T>, i: nat)
    requires i < |s|
    ensures |RemoveAt(s, i)| == |s| - 1
    ensures forall j :: 0 <= j < |s| - 1 ==> RemoveAt(s, i)[j] == s[if j < i then j else j + 1]
  {
  }

  lemma RemoveKeepsUnique<V>(ns: seq<Node<V>>, i: nat)
    requires UniqueKeys(ns) && i < |ns|
    ensures UniqueKeys(RemoveAt(ns, i))
  {
    RemoveAtIndex(ns, i);
    hide RemoveAt;
  }

  lemma RemoveMapKeeps<V>(ns: seq<Node<V>>, i: nat, k: string)
    requires UniqueKeys(ns) && i < |ns| && k in ToMap(RemoveAt(ns, i))
    ensures k in ToMap(ns) && k != ns[i].key && ToMap(ns)[k] == ToMap(RemoveAt(ns, i))[k]
  {
    hide ToMap, RemoveAt, Find;
    RemoveAtIndex(ns, i);
    var j := ToMapKey(RemoveAt(ns, i), k);
    ToMapHas(ns, if j < i then j else j + 1);
  }

  lemma RemoveMapLeaves<V>(ns: seq<Node<V>>, i: nat, k: string)
    requires UniqueKeys(ns) && i < |ns| && k in ToMap(ns) && k != ns[i].key
    ensures k in ToMap(RemoveAt(ns, i))
  {
    hide *;
    var j := ToMapKey(ns, k);
    var r := if j < i then j else j - 1;
    RemoveAtIndex(ns, i);
    assert RemoveAt(ns, i)[r] == ns[j];
    RemoveKeepsUnique(ns, i);
    ToMapHas(RemoveAt(ns, i), r);
  }

  lemma MapWithout<K, V>(m: map<K, V>, r: map<K, V>, x: K)
    requires forall k :: k in r ==> k in m && k != x && m[k] == r[k]
    requires forall k :: k in m && k != x ==> k in r
    ensures r == m - {x}
  {
  }

  lemma MapPutBack<K, V>(m: map<K, V>, x: K)
    requires x in m
    ensures m == (m - {x})[x := m[x]]
  {
  }

  lemma RemoveMap<V>(ns: seq<Node<V>>, i: nat)
    requires UniqueKeys(ns) && i < |ns|
    ensures UniqueKeys(RemoveAt(ns, i)) && ToMap(RemoveAt(ns, i)) == ToMap(ns) - {ns[i].key}
  {
    RemoveKeepsUnique(ns, i);
    hide *;
    var m, r := ToMap(ns), ToMap(RemoveAt(ns, i));
    forall k | k in r
      ensures k in m && k != ns[i].key && m[k] == r[k]
    {
      RemoveMapKeeps(ns, i, k);
    }
    forall k | k in m && k != ns[i].key
      ensures k in r
    {
      RemoveMapLeaves(ns, i, k);
    }
    MapWithout(m, r, ns[i].key);
  }

  lemma InsertUnique<V>(a: seq<Node<V>>, b: seq<Node<V>>, n: Node<V>)
    requires UniqueKeys(a + b)
    requires forall i :: 0 <= i < |a + b| ==> (a + b)[i].key != n.key && (a + b)[i].id != n.id
    ensures UniqueKeys(a + [n] + b) && RemoveAt(a + [n] + b, |a|) == a + b
  {
    var ms, ns := a + [n] + b, a + b;
    assert RemoveAt(ms, |a|) == ns;
    forall i, j | 0 <= i < j < |ms|
      ensures ms[i].key != ms[j].key && ms[i].id != ms[j].id
    {
      if i != |a| {
        assert ms[i] == ns[if i < |a| then i else i - 1];
      }
      if j != |a| {
        assert ms[j] == ns[if j < |a| then j else j - 1];
      }
    }
  }

  /** Where in the walk the new element stands does not matter for the map. */
  lemma InsertMap<V>(a: seq<Node<V>>, b: seq<Node<V>>, n: Node<V>)
    requires UniqueKeys(a + b)
    requires forall i :: 0 <= i < |a + b| ==> (a + b)[i].key != n.key && (a + b)[i].id != n.id
    ensures UniqueKeys(a + [n] + b) && ToMap(a + [n] + b) == ToMap(a + b)[n.key := n.ptr]
  {
    var ms := a + [n] + b;
    InsertUnique(a, b, n);
    assert ms[|a|] == n;
    hide *;
    RemoveMap(ms, |a|);
    ToMapHas(ms, |a|);
    MapPutBack(ToMap(ms), n.key);
  }

  lemma {:induction false} SizeIsKeys<V>(ns: seq<Node<V>>)
    requires UniqueKeys(ns)
    ensures |ToMap(ns)| == |ns|
    decreases |ns|
  {
    if ns != [] {
      SizeIsKeys(RemoveAt(ns, 0));
      RemoveMap(ns, 0);
      ToMapHas(ns, 0);
    }
  }

  /** A change inside one slot that keeps the slot's keys keeps the placement. */
  lemma PlacedUpdate<V>(t: Table<V>, h: HashFn, s: nat, l: seq<Node<V>>)
    requires Placed(t, h) && s < |t| && UniqueKeys(Flatten(t[s := l]))
    requires forall j :: 0 <= j < |l| ==> h(l[j].key) == s
    ensures Placed(t[s := l], h)
  {
    hide Flatten, UniqueKeys;
  }

  lemma InSlotRemoved<T>(t: seq<seq<T>>, s: nat, j: nat)
    requires s < |t| && j < |t[s]|
    ensures var k := |Flatten(t[..s])| + j;
      && k < |Flatten(t)| && Flatten(t)[k] == t[s][j]
      && Flatten(t[s := RemoveAt(t[s], j)]) == RemoveAt(Flatten(t), k)
  {
    hide Flatten;
    InFlatten(t, s, j);
    FlattenSplit(t, s);
    FlattenUpdate(t, s, RemoveAt(t[s], j));
    var a, b, c := Flatten(t[..s]), t[s], Flatten(t[s + 1..]);
    assert RemoveAt(a + b + c, |a| + j) == a + RemoveAt(b, j) + c;
  }

  /** Taking one element out of its slot takes it out of the walk. */
  lemma RemoveFromSlot<V>(t: Table<V>, h: HashFn, s: nat, j: nat)
    requires Placed(t, h) && s < |t| && j < |t[s]|
    ensures var u := t[s := RemoveAt(t[s], j)]; var k := |Flatten(t[..s])| + j;
      && k < |Flatten(t)| && Flatten(t)[k] == t[s][j]
      && Flatten(u) == RemoveAt(Flatten(t), k) && Placed(u, h)
      && ToMap(Flatten(u)) == ToMap(Flatten(t)) - {t[s][j].key}
  {
    hide ToMap, Flatten, UniqueKeys, RemoveAt;
    InSlotRemoved(t, s, j);
    RemoveMap(Flatten(t), |Flatten(t[..s])| + j);
    RemoveAtIndex(t[s], j);
    PlacedUpdate(t, h, s, RemoveAt(t[s], j));
  }

  /** Appending a new key to its slot. */
  lemma AppendToSlot<V>(t: Table<V>, h: HashFn, n: Node<V>)
    requires Placed(t, h) && h(n.key) < |t| && Find(t[h(n.key)], n.key).None?
    requires forall i :: 0 <= i < |Flatten(t)| ==> Flatten(t)[i].id != n.id
    ensures var s := h(n.key); var u := t[s := t[s] + [n]];
      && Placed(u, h)
      && Flatten(u) == Flatten(t[..s + 1]) + [n] + Flatten(t[s + 1..])
      && Flatten(t) == Flatten(t[..s + 1]) + Flatten(t[s + 1..])
      && ToMap(Flatten(u)) == ToMap(Flatten(t))[n.key := n.ptr]
  {
    var s := h(n.key);
    OnlyInItsSlot(t, h, n.key);
    hide *;
    SlotEnd(t, s, n);
    InsertMap(Flatten(t[..s + 1]), Flatten(t[s + 1..]), n);
    PlacedUpdate(t, h, s, t[s] + [n]);
  }

  /** The end of a slot, in the walk. */
  lemma SlotEnd<T>(t: seq<seq<T>>, s: nat, n: T)
    requires s < |t|
    ensures Flatten(t[s := t[s] + [n]]) == Flatten(t[..s + 1]) + [n] + Flatten(t[s + 1..])
    ensures Flatten(t) == Flatten(t[..s + 1]) + Flatten(t[s + 1..])
  {
    hide Flatten;
    FlattenPrefix(t, s);
    FlattenSplit(t, s);
    FlattenUpdate(t, s, t[s] + [n]);
  }

  lemma FlattenPrefix<T>(t: seq<seq<T>>, s: nat)
    requires s < |t|
    ensures Flatten(t[..s + 1]) == Flatten(t[..s]) + t[s]
  {
    FlattenSplit(t[..s + 1], s);
    assert t[..s + 1][..s] == t[..s] && t[..s + 1][s + 1..] == [];
  }

  // ---- keyed operations on a sound table -------------------------------------------------------------

  ghost predicate IdsBelow<V>(ns: seq<Node<V>>, bound: nat) {
    forall i :: 0 <= i < |ns| ==> ns[i].id < bound
  }

  /** Elements are where they belong, and their addresses are ones that were handed out. */
  ghost predicate Sound<V>(t: Table<V>, h: HashFn, bound: nat) {
    && (forall k: string :: h(k) < |t|)
    && Placed(t, h)
    && IdsBelow(Flatten(t), bound)
  }

  /** The table without the element for the key. */
  function Dropped<V>(t: Table<V>, h: HashFn, key: string): Table<V>
    requires h(key) < |t|
  {
    var l := t[h(key)];
    var j := Find(l, key);
    if j.Some? then t[h(key) := RemoveAt(l, j.value)] else t
  }

  /** Looking in one slot is looking in the map. */
  lemma FoundInMap<V>(t: Table<V>, h: HashFn, key: string)
    requires Placed(t, h) && h(key) < |t|
    ensures var l := t[h(key)]; var j := Find(l, key);
      && (key in ToMap(Flatten(t)) <==> j.Some?)
      && (j.Some? ==> ToMap(Flatten(t))[key] == l[j.value].ptr)
  {
    hide Flatten, ToMap, Find, UniqueKeys;
    var s := h(key);
    var r := Find(t[s], key);
    if r.Some? {
      InFlatten(t, s, r.value);
      ToMapHas(Flatten(t), |Flatten(t[..s])| + r.value);
    } else {
      OnlyInItsSlot(t, h, key);
      if key in ToMap(Flatten(t)) {
        var i := ToMapKey(Flatten(t), key);
      }
    }
  }

  lemma RemoveKeepsIds<V>(ns: seq<Node<V>>, i: nat, bound: nat)
    requires i < |ns| && IdsBelow(ns, bound)
    ensures IdsBelow(RemoveAt(ns, i), bound)
  {
    RemoveAtIndex(ns, i);
    hide RemoveAt;
  }

  lemma RemoveSound<V>(t: Table<V>, h: HashFn, bound: nat, i: nat, j: nat)
    requires Sound(t, h, bound) && i < |t| && j < |t[i]|
    ensures var u := t[i := RemoveAt(t[i], j)]; var k := |Flatten(t[..i])| + j;
      && Sound(u, h, bound) && k < |Flatten(t)| && Flatten(u) == RemoveAt(Flatten(t), k)
      && |Flatten(u)| == |Flatten(t)| - 1 && ToMap(Flatten(u)) == ToMap(Flatten(t)) - {t[i][j].key}
  {
    hide Flatten, ToMap, Find, UniqueKeys, IdsBelow, RemoveAt, Placed;
    RemoveFromSlot(t, h, i, j);
    RemoveKeepsIds(Flatten(t), |Flatten(t[..i])| + j, bound);
    RemoveAtIndex(Flatten(t), |Flatten(t[..i])| + j);
  }

  lemma DroppedSound<V>(t: Table<V>, h: HashFn, bound: nat, key: string)
    requires Sound(t, h, bound)
    ensures Sound(Dropped(t, h, key), h, bound)
    ensures ToMap(Flatten(Dropped(t, h, key))) == ToMap(Flatten(t)) - {key}
    ensures |Flatten(Dropped(t, h, key))| == |Flatten(t)| - if key in ToMap(Flatten(t)) then 1 else 0
  {
    hide Flatten, ToMap, Find, UniqueKeys, IdsBelow, RemoveAt, Placed;
    var s := h(key);
    var r := Find(t[s], key);
    FoundInMap(t, h, key);
    hide Sound;
    if r.Some? {
      RemoveSound(t, h, bound, s, r.value);
    } else {
      assert ToMap(Flatten(t)) - {key} == ToMap(Flatten(t));
    }
  }

  lemma AppendedSound<V>(t: Table<V>, h: HashFn, bound: nat, key: string, p: Option<V>)
    requires Sound(t, h, bound) && key !in ToMap(Flatten(t))
    ensures var s := h(key); var n := Node(bound, key, p); var u := t[s := t[s] + [n]];
      && Sound(u, h, bound + 1)
      && ToMap(Flatten(u)) == ToMap(Flatten(t))[key := p]
      && Flatten(u) == Flatten(t[..s + 1]) + [n] + Flatten(t[s + 1..])
      && Flatten(t) == Flatten(t[..s + 1]) + Flatten(t[s + 1..])
  {
    hide Flatten, ToMap, Find, UniqueKeys, Placed;
    var s := h(key);
    var n := Node(bound, key, p);
    FoundInMap(t, h, key);
    AppendToSlot(t, h, n);
    InsertedIds(Flatten(t[..s + 1]), Flatten(t[s + 1..]), n);
  }

  lemma InsertedIds<V>(a: seq<Node<V>>, b: seq<Node<V>>, n: Node<V>)
    requires IdsBelow(a + b, n.id)
    ensures IdsBelow(a + [n] + b, n.id + 1)
  {
    var ms := a + [n] + b;
    forall i | 0 <= i < |ms|
      ensures ms[i].id < n.id + 1
    {
      if i != |a| {
        assert ms[i] == (a + b)[if i < |a| then i else i - 1];
      }
    }
  }
}
