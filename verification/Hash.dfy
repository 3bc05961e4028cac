/** The chained hash table and its iterator (lib/hash.c), over lists that insert at the tail. */
module Hash {
  import opened Wrappers
  import opened HashSpec
  import opened HashWalk

  /** The value destroyed with the element for the key: elements holding NULL destroy nothing. */
  function Lost<V>(m: map<string, Option<V>>, key: string): seq<V> {
    if key in m && m[key].Some? then [m[key].value] else []
  }

  /** The elements that the criterium spares. */
  function Spared<V>(ns: seq<Node<V>>, comp: Option<V> -> bool): seq<Node<V>> {
    if ns == [] then []
    else Spared(ns[..|ns| - 1], comp) + if comp(ns[|ns| - 1].ptr) then [] else [ns[|ns| - 1]]
  }

  /** The values destroyed with the others. */
  function Cleaned<V>(ns: seq<Node<V>>, comp: Option<V> -> bool): seq<V> {
    if ns == [] then []
    else
      var p := ns[|ns| - 1].ptr;
      Cleaned(ns[..|ns| - 1], comp) + if comp(p) && p.Some? then [p.value] else []
  }

  /** The values of a list that is destroyed from its tail. */
  function Backwards<V>(ns: seq<Node<V>>): seq<V> {
    if ns == [] then []
    else
      var p := ns[|ns| - 1].ptr;
      (if p.Some? then [p.value] else []) + Backwards(ns[..|ns| - 1])
  }

  /** The values of a table that is destroyed list by list. */
  function TailFirst<V>(t: Table<V>): seq<V> {
    if t == [] then [] else TailFirst(t[..|t| - 1]) + Backwards(t[|t| - 1])
  }

  /** The first i lists have been emptied. */
  ghost predicate Emptied<V>(t: Table<V>, t0: Table<V>, i: nat) {
    |t| == |t0| && forall k :: 0 <= k < |t| ==> t[k] == if k < i then [] else t0[k]
  }

  lemma EmptiedStep<V>(t: Table<V>, t0: Table<V>, i: nat)
    requires Emptied(t, t0, i) && i < |t|
    ensures t[i] == t0[i] && Emptied(t[i := []], t0, i + 1)
  {
  }

  /** The values of the first i lists have been destroyed. */
  ghost predicate Gone<V>(d: seq<V>, before: seq<V>, t: Table<V>, i: nat) {
    i <= |t| && d == before + TailFirst(t[..i])
  }

  lemma GoneStep<V>(d: seq<V>, before: seq<V>, t: Table<V>, i: nat)
    requires Gone(d, before, t, i) && i < |t|
    ensures Gone(d + Backwards(t[i]), before, t, i + 1)
  {
    assert t[..i + 1][..i] == t[..i];
    hide Backwards;
  }

  lemma AllEmptied<V>(t: Table<V>, t0: Table<V>, d: seq<V>, before: seq<V>)
    requires Emptied(t, t0, |t|) && Gone(d, before, t0, |t|)
    ensures d == before + TailFirst(t0) && forall k :: 0 <= k < |t| ==> t[k] == []
  {
    assert t0[..|t|] == t0;
  }

  lemma {:induction false} BackwardsCleans<V>(ns: seq<Node<V>>)
    ensures multiset(Backwards(ns)) == multiset(Cleaned(ns, _ => true))
    decreases |ns|
  {
    if ns != [] {
      BackwardsCleans(ns[..|ns| - 1]);
    }
  }

  lemma {:induction false} CleanedAppend<V>(a: seq<Node<V>>, b: seq<Node<V>>, comp: Option<V> -> bool)
    ensures Cleaned(a + b, comp) == Cleaned(a, comp) + Cleaned(b, comp)
    decreases |b|
  {
    if b == [] {
      assert a + b == a;
    } else {
      var m := |b| - 1;
      assert (a + b)[..|a + b| - 1] == a + b[..m];
      CleanedAppend(a, b[..m], comp);
    }
  }

  /** Destroying a table destroys the values that cleaning it out destroys, in another order. */
  lemma {:induction false} DestroyedOnce<V>(t: Table<V>)
    ensures multiset(TailFirst(t)) == multiset(Cleaned(Flatten(t), _ => true))
    decreases |t|
  {
    if t != [] {
      var m := |t| - 1;
      var all := (_: Option<V>) => true;
      DestroyedOnce(t[..m]);
      BackwardsCleans(t[m]);
      FlattenPrefix(t, m);
      assert t[..m + 1] == t;
      CleanedAppend(Flatten(t[..m]), t[m], all);
    }
  }

  lemma EmptySound<V>(t: Table<V>, h: HashFn, bound: nat)
    requires (forall k: string :: h(k) < |t|) && forall i :: 0 <= i < |t| ==> t[i] == []
    ensures Flatten(t) == [] && Sound(t, h, bound) && ToMap(Flatten(t)) == map[]
  {
    SkipEmpty(t, 0, |t|);
    assert t[0..] == t && t[|t|..] == [];
  }

  /** Position of the first list element with this key. */
  method SearchList<V>(l: seq<Node<V>>, key: string) returns (j: Option<nat>)
    ensures j == Find(l, key)
  {
    var k := 0;
    while k < |l|
      invariant k <= |l|
      invariant Find(l, key) == if Find(l[k..], key).Some? then Some(k + Find(l[k..], key).value) else None
    {
      if l[k].key == key {
        return Some(k);
      }
      assert l[k..][1..] == l[k + 1..];
      k := k + 1;
    }
    j := None;
  }

  class HashTable<V> {
    const hashFn: HashFn
    const table: array<seq<Node<V>>>
    var size: int
    /** Calls of the value destructor, in order. */
    var destroyed: seq<V>
    /** Addresses from here on have not been used. */
    var nextId: nat

    ghost predicate Valid()
      reads this, table
    {
      && Sound(table[..], hashFn, nextId)
      && size == |Flatten(table[..])|
    }

    ghost function Nodes(): seq<Node<V>>
      reads this, table
    {
      Flatten(table[..])
    }

    /** The finite map the table stands for. */
    ghost function Contents(): map<string, Option<V>>
      reads this, table
    {
      ToMap(Flatten(table[..]))
    }

    constructor (slots: nat, hashFn: HashFn)
      requires 0 < slots && forall k: string :: hashFn(k) < slots
      ensures Valid() && Contents() == map[] && size == 0 && destroyed == [] && fresh(table)
      ensures table.Length == slots && this.hashFn == hashFn
    {
      this.hashFn := hashFn;
      table := new seq<Node<V>>[slots](_ => []);
      size := 0;
      destroyed := [];
      nextId := 0;
      new;
      EmptySound(table[..], hashFn, 0);
    }

    /** Removal of one list element by the list, which calls the destructor. */
    method Unlink(s: nat, j: nat)
      requires s < table.Length && j < |table[s]|
      modifies this`size, this`destroyed, table
      ensures table[..] == old(table[..])[s := RemoveAt(old(table[s]), j)]
      ensures size == old(size) - 1
      ensures destroyed == old(destroyed) +
        if old(table[s][j].ptr).Some? then [old(table[s][j].ptr).value] else []
    {
      var he := table[s][j];
      table[s] := RemoveAt(table[s], j);
      if he.ptr.Some? {
        destroyed := destroyed + [he.ptr.value];
      }
      size := size - 1;
    }

    /** Position of the element with this key in its list. */
    method Search(key: string) returns (s: nat, j: Option<nat>)
      requires Valid()
      ensures s == hashFn(key) && j == Find(table[s], key)
    {
      s := hashFn(key);
      j := SearchList(table[s], key);
    }

    /**
     * Insertion under a key, in place of what was there. When memory for the new element cannot be
     * had, the old value is gone all the same.
     */
    method Add(key: string, p: Option<V>, memory: bool) returns (r: Option<V>)
      requires Valid()
      modifies this, table
      ensures Valid()
      ensures Contents() == if memory then old(Contents())[key := p] else old(Contents()) - {key}
      ensures r == if memory then p else None
      ensures destroyed == old(destroyed) + Lost(old(Contents()), key)
      ensures !memory && key !in old(Contents()) ==> table[..] == old(table[..])
      ensures memory && key !in old(Contents()) ==>
        Inserted(old(Nodes()), Nodes(), Node(old(nextId), key, p))
    {
      hide Flatten, ToMap, Find, UniqueKeys, IdsBelow, RemoveAt, Placed;
      ghost var t0 := table[..];
      DroppedSound(t0, hashFn, nextId, key);
      FoundInMap(t0, hashFn, key);
      var s, j := Search(key);
      if j.Some? {
        Unlink(s, j.value);
      }
      assert table[..] == Dropped(t0, hashFn, key);
      if memory {
        ghost var t1 := table[..];
        var he := Node(nextId, key, p);
        AppendedSound(t1, hashFn, nextId, key, p);
        InsertIs(Flatten(t1[..s + 1]), he, Flatten(t1[s + 1..]));
        nextId := nextId + 1;
        table[s] := table[s] + [he];
        size := size + 1;
        r := p;
        assert table[..] == t1[s := t1[s] + [he]];
      } else {
        r := None;
      }
    }

    /** Removal by key; nonzero when there is no such key. */
    method Delete(key: string) returns (rc: nat)
      requires Valid()
      modifies this, table
      ensures Valid() && nextId == old(nextId)
      ensures Contents() == old(Contents()) - {key}
      ensures rc == if key in old(Contents()) then 0 else 1
      ensures destroyed == old(destroyed) + Lost(old(Contents()), key)
      ensures table[..] == Dropped(old(table[..]), hashFn, key)
    {
      hide Flatten, ToMap, Find, UniqueKeys, IdsBelow, RemoveAt, Placed;
      ghost var t0 := table[..];
      DroppedSound(t0, hashFn, nextId, key);
      FoundInMap(t0, hashFn, key);
      var s, j := Search(key);
      if j.Some? {
        Unlink(s, j.value);
        rc := 0;
      } else {
        rc := 1;
      }
      assert table[..] == Dropped(t0, hashFn, key);
    }

    /** Lookup; the answer is NULL for an unknown key and for a key that stores NULL. */
    method Pick(key: string) returns (r: Option<V>)
      requires Valid()
      ensures r == if key in Contents() then Contents()[key] else None
    {
      FoundInMap(table[..], hashFn, key);
      var s, j := Search(key);
      r := if j.Some? then table[s][j.value].ptr else None;
    }

    /** Every list is emptied from its tail, and nothing is left. */
    method Destroy()
      requires Valid()
      modifies this, table
      ensures Valid() && Nodes() == [] && Contents() == map[] && size == 0
      ensures destroyed == old(destroyed) + TailFirst(old(table[..]))
    {
      ghost var t0, before := table[..], destroyed;
      hide *;
      KeysHashed();
      var i := 0;
      while i < table.Length
        invariant i <= table.Length
        invariant Emptied(table[..], t0, i)
        invariant Gone(destroyed, before, t0, i)
      {
        EmptiedStep(table[..], t0, i);
        GoneStep(destroyed, before, t0, i);
        DestroyList(i);
        i := i + 1;
      }
      AllEmptied(table[..], t0, destroyed, before);
      size := 0;
      NowEmpty();
    }

    lemma KeysHashed()
      requires Valid()
      ensures forall k: string :: hashFn(k) < table.Length
      ensures Emptied(table[..], table[..], 0) && Gone(destroyed, destroyed, table[..], 0)
    {
    }

    lemma NowEmpty()
      requires forall k: string :: hashFn(k) < table.Length
      requires size == 0 && forall k :: 0 <= k < table.Length ==> table[..][k] == []
      ensures Valid() && Nodes() == [] && Contents() == map[]
    {
      EmptySound(table[..], hashFn, nextId);
    }

    method DestroyList(i: nat)
      requires i < table.Length
      modifies this`destroyed, table
      ensures table[..] == old(table[..])[i := []]
      ensures destroyed == old(destroyed) + Backwards(old(table[i]))
    {
      while table[i] != []
        invariant table[..] == old(table[..])[i := table[i]]
        invariant old(destroyed) + Backwards(old(table[i])) == destroyed + Backwards(table[i])
        decreases |table[i]|
      {
        var last := |table[i]| - 1;
        var he := table[i][last];
        table[i] := table[i][..last];
        if he.ptr.Some? {
          destroyed := destroyed + [he.ptr.value];
        }
      }
    }

    lemma SizeCountsKeys()
      requires Valid()
      ensures size == |Contents()|
    {
      SizeIsKeys(Flatten(table[..]));
    }

    /** A cleaning walk over the elements f that has judged the first done and stands at i, j. */
    ghost predicate Walked(i: nat, j: nat, f: seq<Node<V>>, done: nat, comp: Option<V> -> bool)
      reads this, table
    {
      Valid() && WalkAt(table[..], i, j, f, done, comp)
    }

    /** One element is judged: removed, or stepped over. */
    method CleanOne(i: nat, j: nat, comp: Option<V> -> bool, ghost f: seq<Node<V>>, ghost done: nat)
      returns (next: nat)
      requires Walked(i, j, f, done, comp) && i < table.Length && j < |table[i]|
      modifies this, table
      ensures done < |f| && next <= |table[i]| && Walked(i, next, f, done + 1, comp)
      ensures |table[i]| - next < old(|table[i]|) - j
      ensures destroyed == old(destroyed) +
        if comp(f[done].ptr) && f[done].ptr.Some? then [f[done].ptr.value] else []
      ensures Cleaned(f[..done + 1], comp) == Cleaned(f[..done], comp) +
        if comp(f[done].ptr) && f[done].ptr.Some? then [f[done].ptr.value] else []
    {
      ghost var t0 := table[..];
      hide Flatten, Spared, Cleaned, Sound, WalkAt;
      WalkStep(t0, i, j, f, done, comp);
      SparedStep(f, done, comp);
      if comp(table[i][j].ptr) {
        RemoveSound(t0, hashFn, nextId, i, j);
        Unlink(i, j);
        assert table[..] == t0[i := RemoveAt(t0[i], j)];
        next := j;
      } else {
        next := j + 1;
      }
    }

    /** Removal of every element whose value meets the criterium, in one walk. */
    method CleanWithCriterium(comp: Option<V> -> bool)
      requires Valid()
      modifies this, table
      ensures Valid()
      ensures Nodes() == Spared(old(Nodes()), comp)
      ensures destroyed == old(destroyed) + Cleaned(old(Nodes()), comp)
    {
      hide *;
      ghost var f, done: nat := Nodes(), 0;
      var i := 0;
      NoneWalked(comp);
      while i < table.Length
        invariant i <= table.Length && Walked(i, 0, f, done, comp)
        invariant done <= |f| && destroyed == old(destroyed) + Cleaned(f[..done], comp)
      {
        var j: nat := 0;
        while j < |table[i]|
          invariant j <= |table[i]| && Walked(i, j, f, done, comp)
          invariant done <= |f| && destroyed == old(destroyed) + Cleaned(f[..done], comp)
          decreases |table[i]| - j
        {
          j := CleanOne(i, j, comp, f, done);
          done := done + 1;
        }
        SlotWalked(i, f, done, comp);
        i := i + 1;
      }
      AllWalked(f, done, comp);
    }

    lemma NoneWalked(comp: Option<V> -> bool)
      requires Valid()
      ensures Walked(0, 0, Nodes(), 0, comp) && Cleaned(Nodes()[..0], comp) == []
    {
      assert table[..0] == [] && Nodes()[..0] == [] && Nodes()[0..] == Nodes();
    }

    lemma SlotWalked(i: nat, f: seq<Node<V>>, done: nat, comp: Option<V> -> bool)
      requires i < table.Length && Walked(i, |table[i]|, f, done, comp)
      ensures Walked(i + 1, 0, f, done, comp)
    {
      hide Flatten, Spared, Sound;
      FlattenPrefix(table[..], i);
      assert table[..][..i] == table[..i] && table[..][..i + 1] == table[..i + 1];
    }

    lemma AllWalked(f: seq<Node<V>>, done: nat, comp: Option<V> -> bool)
      requires Walked(table.Length, 0, f, done, comp)
      ensures Valid() && f[..done] == f && Nodes() == Spared(f, comp)
    {
      assert table[..table.Length] == table[..];
      assert f[..done] == f;
    }
  }

  /** Initialization: it fails without slots and without memory for them. */
  method Init<V>(slots: nat, hashFn: HashFn, memory: bool) returns (h: HashTable?<V>)
    requires slots > 0 ==> forall k: string :: hashFn(k) < slots
    ensures h == null <==> slots == 0 || !memory
    ensures h != null ==> fresh(h) && fresh(h.table) && h.table.Length == slots && h.hashFn == hashFn
    ensures h != null ==> h.Valid() && h.Contents() == map[] && h.size == 0 && h.destroyed == []
  {
    if slots == 0 || !memory {
      return null;
    }
    h := new HashTable(slots, hashFn);
  }

  ghost predicate WalkAt<V>(t: Table<V>, i: nat, j: nat, f: seq<Node<V>>, done: nat, comp: Option<V> -> bool) {
    && i <= |t| && done <= |f|
    && Flatten(t) == Spared(f[..done], comp) + f[done..]
    && |Flatten(t[..i])| + j == |Spared(f[..done], comp)|
  }

  /** One element of the walk: it is the next of the original elements. */
  lemma WalkStep<V>(t: Table<V>, i: nat, j: nat, f: seq<Node<V>>, done: nat, comp: Option<V> -> bool)
    requires WalkAt(t, i, j, f, done, comp) && i < |t| && j < |t[i]|
    ensures done < |f| && t[i][j] == f[done]
    ensures if comp(f[done].ptr) then WalkAt(t[i := RemoveAt(t[i], j)], i, j, f, done + 1, comp)
      else WalkAt(t, i, j + 1, f, done + 1, comp)
    ensures |RemoveAt(t[i], j)| == |t[i]| - 1
  {
    hide Flatten, Spared;
    InFlatten(t, i, j);
    assert f[done..] == [f[done]] + f[done + 1..];
    SparedStep(f, done, comp);
    if comp(f[done].ptr) {
      InSlotRemoved(t, i, j);
      assert t[i := RemoveAt(t[i], j)][..i] == t[..i];
      assert RemoveAt(Flatten(t), |Flatten(t[..i])| + j) == Spared(f[..done], comp) + f[done + 1..];
    }
  }

  lemma SparedStep<V>(f: seq<Node<V>>, done: nat, comp: Option<V> -> bool)
    requires done < |f|
    ensures Spared(f[..done + 1], comp) == Spared(f[..done], comp) + if comp(f[done].ptr) then [] else [f[done]]
    ensures Cleaned(f[..done + 1], comp) == Cleaned(f[..done], comp) +
      if comp(f[done].ptr) && f[done].ptr.Some? then [f[done].ptr.value] else []
  {
    assert f[..done + 1][..done] == f[..done];
  }

  /** The part of a map that the criterium spares. */
  ghost function SparedPart<V>(m: map<string, Option<V>>, comp: Option<V> -> bool): map<string, Option<V>> {
    map k | k in m && !comp(m[k]) :: m[k]
  }

  lemma SparedPartStep<V>(m: map<string, Option<V>>, key: string, comp: Option<V> -> bool)
    requires key in m
    ensures SparedPart(m, comp) ==
      if comp(m[key]) then SparedPart(m - {key}, comp) else SparedPart(m - {key}, comp)[key := m[key]]
  {
  }

  /** On the map: exactly the keys whose values the criterium spares are left, with their values. */
  lemma {:induction false} SparedMap<V>(ns: seq<Node<V>>, comp: Option<V> -> bool)
    requires UniqueKeys(ns)
    ensures UniqueKeys(Spared(ns, comp))
    ensures ToMap(Spared(ns, comp)) == SparedPart(ToMap(ns), comp)
    decreases |ns|
  {
    if ns != [] {
      var m := |ns| - 1;
      var n, s := ns[m], Spared(ns[..m], comp);
      assert RemoveAt(ns, m) == ns[..m];
      SparedWithin(ns[..m], comp);
      assert Spared(ns, comp) == if comp(n.ptr) then s else s + [n];
      forall i | 0 <= i < |s|
        ensures s[i].key != n.key && s[i].id != n.id
      {
        var q :| 0 <= q < m && ns[q] == s[i];
      }
      hide ToMap, Spared, UniqueKeys, SparedPart, RemoveAt;
      RemoveMap(ns, m);
      SparedMap(ns[..m], comp);
      ToMapHas(ns, m);
      SparedPartStep(ToMap(ns), n.key, comp);
      if !comp(n.ptr) {
        assert s + [] == s && s + [n] + [] == s + [n];
        InsertMap(s, [], n);
      }
    }
  }

  lemma {:induction false} SparedWithin<V>(ns: seq<Node<V>>, comp: Option<V> -> bool)
    ensures forall i :: 0 <= i < |Spared(ns, comp)| ==> Spared(ns, comp)[i] in ns
    decreases |ns|
  {
    if ns != [] {
      SparedWithin(ns[..|ns| - 1], comp);
      assert forall n :: n in ns[..|ns| - 1] ==> n in ns;
    }
  }

  /** The iterator: it points at the table, the next slot and the element delivered last. */
  class HashIterator<V> {
    const hash: HashTable<V>
    var slotIndex: nat
    var current: Option<nat>

    ghost function Position(): Cursor
      reads this
    {
      Cursor(slotIndex, current)
    }

    ghost predicate Valid()
      reads this, hash, hash.table
    {
      hash.Valid() && CursorOk(hash.table[..], Position())
    }

    /** The elements still to be delivered. */
    ghost function Left(): seq<Node<V>>
      requires Valid()
      reads this, hash, hash.table
    {
      Rest(hash.table[..], Position())
    }

    constructor StartIterate(hash: HashTable<V>)
      requires hash.Valid()
      ensures this.hash == hash && Position() == START && Valid() && Left() == hash.Nodes()
    {
      this.hash := hash;
      slotIndex := 0;
      current := None;
      new;
      assert hash.table[..][0..] == hash.table[..];
    }

    /** The next element, or none; at the end every further call answers none again. */
    method NextElement() returns (he: Option<Node<V>>)
      requires Valid()
      modifies this
      ensures Valid()
      ensures he == if old(Left()) == [] then None else Some(old(Left())[0])
      ensures Left() == if old(Left()) == [] then [] else old(Left())[1..]
      ensures current == if he.Some? then Some(he.value.id) else None
    {
      hide Flatten, Rest, UniqueKeys, IdsBelow, CursorOk, FindId, Next;
      NextTakesFirst(hash.table[..], Position());
      he := Advance();
    }

    /** The move as the code makes it: along the list, else to the next list with elements. */
    method Advance() returns (he: Option<Node<V>>)
      requires Valid()
      modifies this
      ensures (Position(), he) == Next(hash.table[..], old(Position()))
      ensures current == if he.Some? then Some(he.value.id) else None
    {
      hide Flatten, Rest, UniqueKeys, Sound, FirstFull, FindId;
      ghost var t, c := hash.table[..], Position();
      he := None;
      if current.Some? {
        he := Following();
      }
      if he.None? {
        var i := FullSlotFrom(slotIndex);
        if i < hash.table.Length {
          he := Some(hash.table[i][0]);
          slotIndex := i + 1;
        }
      }
      current := if he.Some? then Some(he.value.id) else None;
      assert (Position(), he) == Next(t, c);
    }

    /** The element after the current one in its list. */
    method Following() returns (he: Option<Node<V>>)
      requires Valid() && current.Some?
      ensures he == Successor(hash.table[..], Position())
    {
      var l := hash.table[slotIndex - 1];
      var j := FindId(l, current.value).value + 1;
      he := if j < |l| then Some(l[j]) else None;
    }

    /** The first list from slot i on that has elements. */
    method FullSlotFrom(from: nat) returns (i: nat)
      requires from <= hash.table.Length
      ensures i == FirstFull(hash.table[..], from)
    {
      i := from;
      while i < hash.table.Length && hash.table[i] == []
        invariant from <= i <= hash.table.Length
        invariant FirstFull(hash.table[..], from) == FirstFull(hash.table[..], i)
      {
        i := i + 1;
      }
    }
  }
}
