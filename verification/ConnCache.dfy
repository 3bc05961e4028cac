/** The connection cache over the hash table (lib/conncache.c). */
module ConnCache {
  import opened Wrappers
  import opened HashSpec
  import opened HashWalk
  import opened Hash
  import opened ConnCacheLists
  import opened ConnCacheWalk

  datatype Code = OK | OutOfMemory

  class Connection {
    /** The key that hashkey() prints for it, cut at the size of the buffer. */
    const key: string
    var bundle: Bundle?
    var inUse: bool
    var lastUsed: int
    var connectionId: nat

    constructor (key: string)
      ensures this.key == key && bundle == null
    {
      this.key := key;
      bundle := null;
    }
  }

  /** The connections under one key. */
  class Bundle {
    var numConnections: int
    var connList: seq<Connection>

    constructor ()
      ensures numConnections == 0 && connList == []
    {
      numConnections := 0;
      connList := [];
    }

    method AddConn(conn: Connection)
      modifies this, conn`bundle
      ensures connList == old(connList) + [conn] && numConnections == old(numConnections) + 1
      ensures conn.bundle == this
    {
      connList := connList + [conn];
      conn.bundle := this;
      numConnections := numConnections + 1;
    }

    /** Takes out the first list element that is this connection. */
    method RemoveConn(conn: Connection) returns (removed: bool)
      modifies this, conn`bundle
      ensures removed <==> conn in old(connList)
      ensures if removed
        then connList == RemoveAt(old(connList), IndexOf(old(connList), conn)) && conn.bundle == null
          && numConnections == old(numConnections) - 1
        else unchanged(this) && conn.bundle == old(conn.bundle)
    {
      var i := 0;
      while i < |connList|
        invariant i <= |connList| && connList == old(connList) && conn !in connList[..i]
        invariant IndexOf(connList, conn) == i + IndexOf(connList[i..], conn)
      {
        if connList[i] == conn {
          connList := RemoveAt(connList, i);
          numConnections := numConnections - 1;
          conn.bundle := null;
          return true;
        }
        assert connList[i..][1..] == connList[i + 1..];
        i := i + 1;
      }
      removed := false;
    }
  }

  ghost function Last(b: Bundle): Option<Connection>
    reads b
  {
    if b.connList == [] then None else Some(b.connList[|b.connList| - 1])
  }

  /** The sum of what the bundles count. */
  ghost function SumCounts(bundles: seq<Bundle>): int
    reads bundles
  {
    if bundles == [] then 0 else bundles[0].numConnections + SumCounts(bundles[1..])
  }

  lemma {:induction false} CountedSum(bundles: seq<Bundle>, lists: seq<seq<Connection>>)
    requires Counted(bundles, lists)
    ensures SumCounts(bundles) == |Flatten(lists)|
    decreases |bundles|
  {
    if bundles != [] {
      CountedSum(bundles[1..], lists[1..]);
    }
  }

  /** Where every connection points. */
  ghost function Back(conns: set<Connection>): map<Connection, Option<Bundle>>
    reads conns`bundle
  {
    map c | c in conns :: if c.bundle == null then None else Some(c.bundle)
  }

  /** All connections under one entry have the key of the entry. */
  ghost predicate SameKeys(nodes: seq<Node<Bundle>>, lists: seq<seq<Connection>>) {
    && |lists| == |nodes|
    && forall i, k :: 0 <= i < |lists| && 0 <= k < |lists[i]| ==> lists[i][k].key == nodes[i].key
  }

  /** Every bundle holds its list and counts it. */
  ghost predicate Counted(bundles: seq<Bundle>, lists: seq<seq<Connection>>)
    reads bundles
  {
    && |bundles| == |lists|
    && forall i :: 0 <= i < |bundles| ==>
      bundles[i].connList == lists[i] && bundles[i].numConnections == |lists[i]|
  }

  /** Entries, bundles, lists and back pointers fit together. */
  ghost predicate Fits(nodes: seq<Node<Bundle>>, bundles: seq<Bundle>, lists: seq<seq<Connection>>,
                       known: set<Connection>)
    reads bundles, known`bundle
  {
    && EntriesOk(nodes, bundles) && LinksOk(bundles, lists, Back(known))
    && Counted(bundles, lists) && SameKeys(nodes, lists)
  }

  /** The bundle is the one filed under the key. */
  ghost predicate Files(nodes: seq<Node<Bundle>>, bundles: seq<Bundle>, key: string, b: Bundle) {
    |nodes| == |bundles| && exists i :: 0 <= i < |bundles| && bundles[i] == b && nodes[i].key == key
  }

  lemma FreshEntry(nodes: seq<Node<Bundle>>, bundles: seq<Bundle>, lists: seq<seq<Connection>>,
                   known: set<Connection>, more: seq<Node<Bundle>>, n: Node<Bundle>, b: Bundle)
    returns (i: nat)
    requires Fits(nodes, bundles, lists, known) && Inserted(nodes, more, n)
    requires n.ptr == Some(b) && b !in bundles && b.connList == [] && b.numConnections == 0
    ensures i <= |bundles| == |lists|
    ensures Fits(more, InsertAt(bundles, i, b), InsertAt(lists, i, []), known)
    ensures Flatten(InsertAt(lists, i, [])) == Flatten(lists)
    ensures Files(more, InsertAt(bundles, i, b), n.key, b)
    ensures forall c :: c in InsertAt(bundles, i, b) ==> c in bundles || c == b
  {
    i :| i <= |nodes| && more == InsertAt(nodes, i, n);
    assert |nodes| == |bundles| == |lists|;
    InsertAtIndex(nodes, i, n);
    InsertAtIndex(bundles, i, b);
    InsertAtIndex(lists, i, []);
    assert InsertAt(nodes, i, n)[i] == n && InsertAt(bundles, i, b)[i] == b;
    hide InsertAt, EntriesOk, LinksOk, Flatten, Back;
    EntryAdded(nodes, bundles, i, n, b);
    EmptyBundleAdded(bundles, lists, Back(known), i, b);
    EmptyListInvisible(lists, i);
  }

  /** The i-th list got the connection. */
  lemma Appended(nodes: seq<Node<Bundle>>, bundles: seq<Bundle>, lists: seq<seq<Connection>>,
                 known: set<Connection>, back: map<Connection, Option<Bundle>>, i: nat, conn: Connection)
    requires EntriesOk(nodes, bundles) && LinksOk(bundles, lists, back) && SameKeys(nodes, lists)
    requires i < |lists| && (conn in back ==> back[conn].None?) && conn.key == nodes[i].key
    requires Back(known + {conn}) == back[conn := Some(bundles[i])]
    requires Counted(bundles, lists[i := lists[i] + [conn]])
    ensures Fits(nodes, bundles, lists[i := lists[i] + [conn]], known + {conn})
    ensures Inserted(Flatten(lists), Flatten(lists[i := lists[i] + [conn]]), conn)
  {
    hide Flatten, EntriesOk, LinksOk, Back, Counted;
    var l := lists[i] + [conn];
    LinkAdded(bundles, lists, back, i, conn);
    OneListChanged(lists, i, l);
    var k := |Flatten(lists[..i]) + lists[i]|;
    assert Flatten(lists[i := l]) == InsertAt(Flatten(lists), k, conn);
  }

  lemma BundlesDistinct(nodes: seq<Node<Bundle>>, bundles: seq<Bundle>)
    requires EntriesOk(nodes, bundles)
    ensures |nodes| == |bundles| && Distinct(bundles)
  {
  }

  /** An entry whose bundle is empty can go. */
  lemma EntryGone(nodes: seq<Node<Bundle>>, bundles: seq<Bundle>, lists: seq<seq<Connection>>,
                  known: set<Connection>, i: nat)
    requires Fits(nodes, bundles, lists, known) && i < |nodes|
    requires i < |lists| ==> lists[i] == []
    ensures |nodes| == |bundles| == |lists|
    ensures Fits(RemoveAt(nodes, i), RemoveAt(bundles, i), RemoveAt(lists, i), known)
    ensures Flatten(RemoveAt(lists, i)) == Flatten(lists)
  {
    hide RemoveAt, EntriesOk, LinksOk, Flatten, Back;
    BundlesDistinct(nodes, bundles);
    RemoveAtIndex(nodes, i);
    RemoveAtIndex(bundles, i);
    RemoveAtIndex(lists, i);
    EntryDropped(nodes, bundles, i);
    EmptyBundleDropped(bundles, lists, Back(known), i);
    EmptyListRemoved(lists, i);
  }

  /** The i-th list lost its k-th connection. */
  lemma Unlisted(nodes: seq<Node<Bundle>>, bundles: seq<Bundle>, lists: seq<seq<Connection>>,
                 known: set<Connection>, back: map<Connection, Option<Bundle>>, i: nat, k: nat)
    requires EntriesOk(nodes, bundles) && LinksOk(bundles, lists, back) && SameKeys(nodes, lists)
    requires i < |lists| && k < |lists[i]| && Back(known) == back[lists[i][k] := None]
    requires Counted(bundles, lists[i := RemoveAt(lists[i], k)])
    ensures Fits(nodes, bundles, lists[i := RemoveAt(lists[i], k)], known)
    ensures Inserted(Flatten(lists[i := RemoveAt(lists[i], k)]), Flatten(lists), lists[i][k])
  {
    hide Flatten, EntriesOk, LinksOk, Back, Counted, RemoveAt, Inserted;
    BundlesDistinct(nodes, bundles);
    LinkCut(bundles, lists, back, i, k);
    RemoveAtIndex(lists[i], k);
    OneListShorter(lists, i, k);
  }

  lemma OneListShorter<T>(ll: seq<seq<T>>, i: nat, k: nat)
    requires i < |ll| && k < |ll[i]|
    ensures Inserted(Flatten(ll[i := RemoveAt(ll[i], k)]), Flatten(ll), ll[i][k])
  {
    hide Flatten;
    var l := RemoveAt(ll[i], k);
    OneListChanged(ll, i, l);
    var m := |Flatten(ll[..i])| + k;
    assert InsertAt(Flatten(ll[i := l]), m, ll[i][k]) == Flatten(ll);
  }

  lemma WhereListed(bundles: seq<Bundle>, lists: seq<seq<Connection>>, known: set<Connection>, conn: Connection)
    requires LinksOk(bundles, lists, Back(known)) && conn in known && conn.bundle != null && Distinct(bundles)
    ensures var i := IndexOf(bundles, conn.bundle);
      i < |bundles| == |lists| && conn in lists[i] && IndexOf(lists[i], conn) < |lists[i]|
  {
    assert Back(known)[conn] == Some(conn.bundle);
    assert ListedAt(conn, conn.bundle, bundles, lists);
  }

  class ConnCache {
    const hash: HashTable<Bundle>
    var numConn: int
    var nextConnectionId: nat
    /** The bundle of each hash entry and the list of each bundle, in the order of a walk. */
    ghost var bundles: seq<Bundle>
    ghost var lists: seq<seq<Connection>>
    /** Every connection that was ever handed to this cache. */
    ghost var known: set<Connection>

    ghost function Owned(): set<Bundle>
      reads this
    {
      set b | b in bundles
    }

    ghost predicate Valid()
      reads this, hash, hash.table, bundles, known`bundle
    {
      && hash.Valid()
      && Fits(hash.Nodes(), bundles, lists, known)
      && numConn == |Members()|
    }

    /** The cached connections in the order of a walk. */
    ghost function Members(): seq<Connection>
      reads this
    {
      Flatten(lists)
    }

    /**
     * What validity means: the cache counts what its bundles count, every bundle counts its list, and
     * a connection points at a bundle exactly when it is in the list of the bundle.
     */
    lemma BooksBalance(c: Connection)
      requires Valid() && c in known
      ensures numConn == SumCounts(bundles)
      ensures forall i :: 0 <= i < |bundles| ==> bundles[i].numConnections == |bundles[i].connList|
      ensures forall i :: 0 <= i < |bundles| ==> (c.bundle == bundles[i] <==> c in bundles[i].connList)
      ensures c.bundle != null ==> c.bundle in bundles && c in Members()
    {
      CountedSum(bundles, lists);
      var back := Back(known);
      assert back[c] == if c.bundle == null then None else Some(c.bundle);
      if c.bundle != null {
        WhereListed(bundles, lists, known, c);
        var i := IndexOf(bundles, c.bundle);
        InFlatten(lists, i, IndexOf(lists[i], c));
      }
    }

    constructor (slots: nat, hashFn: HashFn)
      requires 0 < slots && forall k: string :: hashFn(k) < slots
      ensures Valid() && Members() == [] && numConn == 0 && fresh(hash) && fresh(hash.table)
    {
      hash := new HashTable(slots, hashFn);
      numConn := 0;
      nextConnectionId := 0;
      bundles, lists, known := [], [], {};
      new;
      hash.SizeCountsKeys();
    }

    /** The bundle for the key of a connection. */
    method FindBundle(conn: Connection) returns (bundle: Bundle?)
      requires Valid()
      ensures bundle == null <==> conn.key !in hash.Contents()
      ensures bundle != null ==> Files(hash.Nodes(), bundles, conn.key, bundle)
    {
      var p := hash.Pick(conn.key);
      if conn.key in hash.Contents() {
        ghost var i := ToMapKey(hash.Nodes(), conn.key);
        assert bundles[i] == p.value;
      }
      bundle := if p.Some? then p.value else null;
    }

    /** Files a bundle without connections under a key that has no bundle yet. */
    method AddBundle(key: string, bundle: Bundle, memory: bool) returns (ok: bool)
      requires Valid() && key !in hash.Contents()
      requires bundle !in bundles && bundle.connList == [] && bundle.numConnections == 0
      modifies this`bundles, this`lists, hash, hash.table
      ensures Valid() && ok == memory && hash.destroyed == old(hash.destroyed)
      ensures Members() == old(Members())
      ensures hash.Contents() == if memory then old(hash.Contents())[key := Some(bundle)] else old(hash.Contents())
      ensures memory ==> Files(hash.Nodes(), bundles, key, bundle)
      ensures Owned() <= old(Owned()) + {bundle}
    {
      hide Fits, Flatten, ToMap, Sound, InsertAt, Inserted, Files;
      ghost var nodes, id := hash.Nodes(), hash.nextId;
      var p := hash.Add(key, Some(bundle), memory);
      if memory {
        ghost var n := Node(id, key, Some(bundle));
        ghost var i := FreshEntry(nodes, bundles, lists, known, hash.Nodes(), n, bundle);
        bundles, lists := InsertAt(bundles, i, bundle), InsertAt(lists, i, []);
      } else {
        assert hash.Nodes() == nodes;
      }
      ok := p.Some?;
    }

    /** Puts a connection that is in no bundle into this one; the counter is still to be raised. */
    method Enlist(bundle: Bundle, conn: Connection)
      requires Valid() && conn.bundle == null && Files(hash.Nodes(), bundles, conn.key, bundle)
      modifies this`lists, this`known, bundle, conn`bundle
      ensures hash.Valid() && Fits(hash.Nodes(), bundles, lists, known)
      ensures conn in known && conn.bundle == bundle && Inserted(old(Members()), Members(), conn)
      ensures bundle.connList == old(bundle.connList) + [conn]
    {
      hide EntriesOk, LinksOk, SameKeys, Flatten, Sound, ToMap;
      ghost var i :| 0 <= i < |bundles| && bundles[i] == bundle && hash.Nodes()[i].key == conn.key;
      ghost var nodes, back := hash.Nodes(), Back(known);
      BundlesDistinct(nodes, bundles);
      bundle.AddConn(conn);
      assert Back(known + {conn}) == back[conn := Some(bundle)];
      Appended(nodes, bundles, lists, known, back, i, conn);
      lists := lists[i := lists[i] + [conn]];
      known := known + {conn};
    }

    /** Puts a connection that is in no bundle into the bundle for its key, made if need be. */
    method AddConn(conn: Connection, memBundle: bool, memEntry: bool) returns (result: Code)
      requires Valid() && conn.bundle == null
      modifies this, hash, hash.table, Owned(), conn
      ensures Valid() && hash.destroyed == old(hash.destroyed)
      ensures result == OK <==> conn.key in old(hash.Contents()) || (memBundle && memEntry)
      ensures result == OK ==>
        conn in known && conn.bundle != null && Files(hash.Nodes(), bundles, conn.key, conn.bundle)
      ensures result == OK ==> Inserted(old(Members()), Members(), conn) && Last(conn.bundle) == Some(conn)
      ensures result == OK ==> conn.connectionId == old(nextConnectionId) == nextConnectionId - 1
      ensures result != OK ==>
        && Members() == old(Members()) && nextConnectionId == old(nextConnectionId)
        && conn.bundle == null && hash.Contents() == old(hash.Contents())
    {
      hide Fits, Flatten, ToMap, Sound, Files;
      var bundle := FindBundle(conn);
      if bundle == null {
        if !memBundle {
          return OutOfMemory;
        }
        bundle := new Bundle();
        var rc := AddBundle(conn.key, bundle, memEntry);
        if !rc {
          return OutOfMemory;
        }
      }
      Enlist(bundle, conn);
      conn.connectionId := nextConnectionId;
      nextConnectionId := nextConnectionId + 1;
      numConn := numConn + 1;
      result := OK;
    }

    /** Takes a connection out of its bundle; the counter is still to be lowered. */
    method Delist(bundle: Bundle, conn: Connection)
      requires Valid() && conn in known && conn.bundle == bundle
      modifies this`lists, bundle, conn`bundle
      ensures hash.Valid() && Fits(hash.Nodes(), bundles, lists, known)
      ensures conn.bundle == null && Inserted(Members(), old(Members()), conn)
      ensures var i := IndexOf(bundles, bundle);
        && i < |old(lists)| == |bundles| && IndexOf(old(lists)[i], conn) < |old(lists)[i]|
        && lists == old(lists)[i := RemoveAt(old(lists)[i], IndexOf(old(lists)[i], conn))]
        && bundle.numConnections == |lists[i]|
    {
      hide EntriesOk, LinksOk, SameKeys, Flatten, Sound, ToMap, RemoveAt;
      ghost var nodes, back := hash.Nodes(), Back(known);
      BundlesDistinct(nodes, bundles);
      WhereListed(bundles, lists, known, conn);
      ghost var i := IndexOf(bundles, bundle);
      ghost var k := IndexOf(lists[i], conn);
      RemoveAtIndex(lists[i], k);
      var removed := bundle.RemoveConn(conn);
      assert Back(known) == back[conn := None];
      Unlisted(nodes, bundles, lists, known, back, i, k);
      lists := lists[i := RemoveAt(lists[i], k)];
    }

    /** Deletes the entry of a bundle, found by walking the whole table. A bundle that is not filed is not
        met, and nothing changes. */
    method RemoveBundle(bundle: Bundle)
      requires hash.Valid() && EntriesOk(hash.Nodes(), bundles)
      modifies hash, hash.table
      ensures hash.Valid() && |old(hash.Nodes())| == |bundles|
      ensures bundle in bundles ==>
        var i := IndexOf(bundles, bundle);
        && i < |bundles|
        && hash.table[..] == Dropped(old(hash.table[..]), hash.hashFn, old(hash.Nodes())[i].key)
        && hash.Nodes() == RemoveAt(old(hash.Nodes()), i)
        && hash.destroyed == old(hash.destroyed) + [bundle]
      ensures bundle !in bundles ==> unchanged(hash) && hash.table[..] == old(hash.table[..])
    {
      hide Flatten, Sound, ToMap, EntriesOk, Dropped, RemoveAt;
      ghost var i := IndexOf(bundles, bundle);
      ghost var nodes, t := hash.Nodes(), hash.table[..];
      BundlesDistinct(nodes, bundles);
      var iter := new HashIterator.StartIterate(hash);
      var he := iter.NextElement();
      ghost var n := 0;
      while he.Some?
        invariant iter.hash == hash && iter.Valid() && hash.table[..] == t && unchanged(hash)
        invariant bundle in bundles ==> n <= i < |bundles|
        invariant if he.Some? then n < |nodes| && he.value == nodes[n] && iter.Left() == nodes[n + 1..]
          else n == |nodes|
        decreases |nodes| - n
      {
        if he.value.ptr == Some(bundle) {
          EntryFound(nodes, bundles, bundle, n);
          EntryDeleted(t, hash.hashFn, hash.nextId, bundles, i, n);
          var rc := hash.Delete(he.value.key);
          return;
        }
        EntryDiffers(nodes, bundles, bundle, n);
        he := iter.NextElement();
        n := n + 1;
      }
    }

    /**
     * Takes a connection out of the cache, and its bundle with it when that has become empty. A
     * connection that points at no bundle was never added, or was extracted before: nothing happens.
     */
    method RemoveConn(conn: Connection)
      requires Valid() && (conn in known || conn.bundle == null)
      modifies this`numConn, this`bundles, this`lists, hash, hash.table, conn`bundle
      modifies if conn.bundle == null then {} else {conn.bundle}
      ensures Valid() && conn.bundle == null
      ensures old(conn.bundle) == null ==> unchanged(this) && unchanged(hash) && hash.table[..] == old(hash.table[..])
      ensures old(conn.bundle) != null ==>
        var i := IndexOf(old(bundles), old(conn.bundle));
        && i < |old(bundles)| == |old(lists)| == |old(hash.Nodes())| && conn in old(lists)[i]
        && Inserted(Members(), old(Members()), conn)
        && CutOut(old(hash.Nodes()), hash.Nodes(), old(bundles), bundles, old(lists), lists, i, conn)
        && (if old(lists)[i] == [conn]
            then hash.table[..] == Dropped(old(hash.table[..]), hash.hashFn, old(hash.Nodes())[i].key)
              && hash.destroyed == old(hash.destroyed) + [old(conn.bundle)]
            else hash.table[..] == old(hash.table[..]) && hash.destroyed == old(hash.destroyed))
    {
      hide Flatten, Sound, ToMap, Fits, Dropped, RemoveAt, LinksOk, EntriesOk, Back;
      var bundle := conn.bundle;
      if bundle != null {
        FitsSizes(hash.Nodes(), bundles, lists, known);
        ghost var nodes, b0, l0, i := hash.Nodes(), bundles, lists, IndexOf(bundles, bundle);
        FitsEntries(nodes, bundles, lists, known);
        WhereListed(bundles, lists, known, conn);
        Delist(bundle, conn);
        ghost var k := IndexOf(l0[i], conn);
        RemoveAtIndex(l0[i], k);
        OneLeft(l0[i], k);
        if bundle.numConnections == 0 {
          FitsEntries(nodes, bundles, lists, known);
          RemoveBundle(bundle);
          EntryGone(nodes, bundles, lists, known, i);
          SetThenRemove(l0, i, lists[i]);
          bundles, lists := RemoveAt(bundles, i), RemoveAt(lists, i);
        }
        conn.bundle := null;
        numConn := numConn - 1;
      }
    }

    ghost function Seen(): View<Bundle, Connection>
      reads this, hash, hash.table
    {
      View(hash.Nodes(), bundles, lists)
    }

    /** The callback has been given the q-th connection of the i-th bundle, and removes it or not. */
    method Visit(conn: Connection, remove: bool, iter: HashIterator<Bundle>,
                 ghost v0: View<Bundle, Connection>, ghost act: (Connection, nat) -> Action,
                 ghost i: nat, ghost p: nat, ghost q: nat)
      requires Valid() && InBundle(v0, Seen(), act, i, p, q) && q < |v0.lists[i]|
      requires conn == v0.lists[i][q] && remove == act(conn, v0.Before(i) + q).removes
      requires UniqueKeys(v0.nodes) && iter.hash == hash && iter.Valid()
      requires StandsAt(v0.nodes, i + 1, iter.current, iter.Left())
      modifies this`numConn, this`bundles, this`lists, hash, hash.table, conn`bundle
      modifies if conn.bundle == null then {} else {conn.bundle}
      ensures Valid() && InBundle(v0, Seen(), act, i, p, q + 1)
      ensures Owned() <= old(Owned())
      ensures iter.Valid() && iter.Left() == old(iter.Left())
    {
      hide Flatten, Sound, ToMap, Fits, Dropped, RemoveAt, InBundle, LinksOk, EntriesOk, Back, CursorOk,
        Rest, CutOut, UniqueKeys, StandsAt, View.Before;
      ghost var t, h, bound := hash.table[..], hash.hashFn, hash.nextId;
      ghost var v := Seen();
      FitsSizes(hash.Nodes(), bundles, lists, known);
      BundleThere(v0, v, act, i, p, q);
      Listed(hash.Nodes(), bundles, lists, known, p, conn);
      if remove {
        NotAhead(v0.nodes, i, iter.current, iter.Left());
        RemoveConn(conn);
        FitsSizes(hash.Nodes(), bundles, lists, known);
        CutOne(v0, v, Seen(), act, i, p, q);
        CutKeeps(v, Seen(), p, conn);
        if v.lists[p] == [conn] {
          DropBehind(t, h, bound, p, iter.Position());
        }
      } else {
        PassOne(v0, v, act, i, p, q);
      }
    }

    /** The inner loop of Foreach: the connections of one bundle. */
    method VisitBundle(bundle: Bundle, act: (Connection, nat) -> Action, sofar: seq<Connection>,
                       iter: HashIterator<Bundle>, ghost v0: View<Bundle, Connection>, ghost i: nat, ghost p: nat)
      returns (aborted: bool, calls: seq<Connection>, ghost q: nat)
      requires Valid() && AtBundle(v0, Seen(), act, i, p) && i < |v0.nodes| && bundle == v0.bundles[i]
      requires sofar == v0.Members()[..v0.Before(i)]
      requires UniqueKeys(v0.nodes) && Distinct(v0.Members()) && iter.hash == hash && iter.Valid()
      requires StandsAt(v0.nodes, i + 1, iter.current, iter.Left())
      modifies this`numConn, this`bundles, this`lists, hash, hash.table, Owned(), known`bundle
      ensures Valid() && InBundle(v0, Seen(), act, i, p, q)
      ensures Owned() <= old(Owned())
      ensures iter.Valid() && iter.Left() == old(iter.Left())
      ensures v0.Before(i) + q <= |v0.Members()| && calls == v0.Members()[..v0.Before(i) + q]
      ensures Members() == Survivors(v0.Members(), act, 0, |calls|) + v0.Members()[|calls|..]
      ensures if aborted then 0 < q else q == |v0.lists[i]|
      ensures StopsAtEnd(act, calls, |sofar|, aborted)
    {
      hide Flatten, Sound, Fits, AtBundle, InBundle, UniqueKeys, Survivors, CursorOk, Rest, StandsAt, View.Before,
        View.Members, After;
      EnterBundle(v0, Seen(), act, i, p);
      ListHere(v0, Seen(), act, known, i, p);
      ghost var m, l, b := v0.Members(), v0.lists[i], v0.Before(i);
      aborted, calls, q := false, sofar, 0;
      var curr := if |bundle.connList| > 0 then Some(bundle.connList[0]) else None;
      while curr.Some?
        invariant Valid() && InBundle(v0, Seen(), act, i, p, q) && !aborted
        invariant Owned() <= old(Owned())
        invariant iter.Valid() && iter.Left() == old(iter.Left())
        invariant q <= |l| && curr == if q < |l| then Some(l[q]) else None
        invariant b + |l| <= |m| && calls == m[..b + q]
        invariant forall k :: b <= k < b + q ==> !act(calls[k], k).stops
        decreases |l| - q
      {
        var conn := curr.value;
        NextHere(v0, Seen(), act, known, i, p, q);
        curr := After(bundle.connList, conn);
        var action := act(conn, |calls|);
        calls := calls + [conn];
        Visit(conn, action.removes, iter, v0, act, i, p, q);
        q := q + 1;
        if action.stops {
          aborted := true;
          WalkMembers(v0, Seen(), act, i, p, q);
          WholeView(Seen());
          return;
        }
      }
      WalkMembers(v0, Seen(), act, i, p, q);
      WholeView(Seen());
    }

    /** The outer loop of Foreach: i bundles are done, he is the next entry, iter stands there. */
    ghost predicate Walking(v0: View<Bundle, Connection>, act: (Connection, nat) -> Action, i: nat, p: nat,
                            iter: HashIterator<Bundle>, he: Option<Node<Bundle>>, calls: seq<Connection>)
      reads this, hash, hash.table, bundles, known`bundle, iter, iter.hash, iter.hash.table
    {
      && Valid() && AtBundle(v0, Seen(), act, i, p)
      && iter.hash == hash && iter.Valid() && StandsAt(v0.nodes, i, iter.current, iter.Left())
      && i <= |v0.nodes| && he == (if i < |v0.nodes| then Some(v0.nodes[i]) else None)
      && v0.Before(i) <= |v0.Members()| && calls == v0.Members()[..v0.Before(i)]
      && StopsAtEnd(act, calls, 0, false)
    }

    /** One round of the outer loop. */
    method VisitEntry(he: Node<Bundle>, act: (Connection, nat) -> Action, sofar: seq<Connection>,
                      iter: HashIterator<Bundle>, ghost v0: View<Bundle, Connection>, ghost i: nat, ghost p: nat)
      returns (aborted: bool, calls: seq<Connection>, next: Option<Node<Bundle>>, ghost p': nat)
      requires Walking(v0, act, i, p, iter, Some(he), sofar) && WellKeyed(v0)
      modifies this`numConn, this`bundles, this`lists, hash, hash.table, Owned(), known`bundle, iter
      ensures Valid() && Owned() <= old(Owned()) && i < |v0.nodes|
      ensures !aborted ==> Walking(v0, act, i + 1, p', iter, next, calls)
      ensures aborted ==>
        && calls != [] && |calls| <= |v0.Members()| && calls == v0.Members()[..|calls|]
        && Members() == Survivors(v0.Members(), act, 0, |calls|) + v0.Members()[|calls|..]
        && StopsAtEnd(act, calls, 0, true)
    {
      hide Flatten, Sound, Fits, AtBundle, InBundle, UniqueKeys, Survivors, CursorOk, Rest, View.Before, View.Members,
        Distinct, StopsAtEnd;
      var bundle := he.ptr.value;
      next := iter.NextElement();
      ghost var q;
      aborted, calls, q := VisitBundle(bundle, act, sofar, iter, v0, i, p);
      assert sofar <= calls;
      StopsJoin(act, sofar, calls, aborted);
      p' := p;
      if !aborted {
        p' := LeaveBundle(v0, Seen(), act, i, p);
      }
    }

    /**
     * Calls back for every connection in the cache at the start, once each and in walk order, until
     * the callback asks to stop; the callback may remove the connection it is given.
     */
    method Foreach(act: (Connection, nat) -> Action) returns (aborted: bool, calls: seq<Connection>)
      requires Valid()
      modifies this`numConn, this`bundles, this`lists, hash, hash.table, Owned(), known`bundle
      ensures Valid() && Distinct(old(Members()))
      ensures |calls| <= |old(Members())| && calls == old(Members())[..|calls|]
      ensures Members() == Survivors(old(Members()), act, 0, |calls|) + old(Members())[|calls|..]
      ensures forall k :: 0 <= k < |calls| ==> (act(calls[k], k).stops <==> aborted && k == |calls| - 1)
      ensures if aborted then 0 < |calls| else |calls| == |old(Members())|
    {
      hide Flatten, Sound, Fits, Survivors, CursorOk, Rest, View.Before, View.Members, Distinct, WellKeyed, Walking;
      ghost var v0 := Seen();
      TableKeyed(v0, hash.table[..], hash.hashFn, hash.nextId, known);
      aborted, calls := false, [];
      var iter := new HashIterator.StartIterate(hash);
      var he := iter.NextElement();
      ghost var i: nat, p: nat := 0, 0;
      WalkStarts(act, iter, he);
      while he.Some?
        invariant Walking(v0, act, i, p, iter, he, calls) && Owned() <= old(Owned()) && !aborted
        decreases |v0.nodes| - i
      {
        WalkGoesOn(v0, act, i, p, iter, he, calls);
        aborted, calls, he, p := VisitEntry(he.value, act, calls, iter, v0, i, p);
        if aborted {
          return;
        }
        i := i + 1;
      }
      WalkGoesOn(v0, act, i, p, iter, he, calls);
    }

    lemma WalkStarts(act: (Connection, nat) -> Action, iter: HashIterator<Bundle>, he: Option<Node<Bundle>>)
      requires Valid() && iter.hash == hash && iter.Valid() && StandsAt(hash.Nodes(), 0, iter.current, iter.Left())
      requires he == if hash.Nodes() == [] then None else Some(hash.Nodes()[0])
      ensures Walking(Seen(), act, 0, 0, iter, he, [])
    {
      hide Flatten, Sound, Fits, AtBundle, CursorOk, Rest, View.Before;
      StartWalk(Seen(), known, act);
    }

    lemma WalkGoesOn(v0: View<Bundle, Connection>, act: (Connection, nat) -> Action, i: nat, p: nat,
                     iter: HashIterator<Bundle>, he: Option<Node<Bundle>>, calls: seq<Connection>)
      requires Walking(v0, act, i, p, iter, he, calls)
      ensures Valid() && if he.Some? then i < |v0.nodes| else
        && calls == v0.Members() && StopsAtEnd(act, calls, 0, false)
        && Members() == Survivors(v0.Members(), act, 0, |v0.Members()|)
    {
      hide Flatten, Sound, Fits, AtBundle, CursorOk, Rest, Survivors;
      if he.None? {
        WalkOver(v0, Seen(), act, p);
      }
    }

    /** The idle connection of one bundle that was unused for the longest time, taken out of it. */
    method ExtractBundle(bundle: Bundle, now: int) returns (candidate: Connection?)
      requires Valid() && bundle in bundles
      modifies this`numConn, this`lists, bundle, known`bundle
      ensures Valid() && IsOldest(old(bundle.connList), old(Scores(known, now)), candidate)
      ensures candidate == null ==> bundle.connList == old(bundle.connList) && Members() == old(Members())
      ensures candidate != null ==>
        candidate.bundle == null && Inserted<Connection>(Members(), old(Members()), candidate)
    {
      hide Flatten, Sound, Fits, Inserted, IsOldest, ScoreOf, Scores;
      NobodyYet(lists, Scores(known, now));
      ghost var p := BundleAt(hash.Nodes(), bundles, lists, known, bundle);
      var score;
      candidate, score := Scan([], bundle.connList, now, null, -1, known);
      assert [] + bundle.connList == bundle.connList;
      if candidate != null {
        Listed(hash.Nodes(), bundles, lists, known, p, candidate);
        Delist(bundle, candidate);
        numConn := numConn - 1;
      }
    }

    /** The candidate among all cached connections, and its bundle. */
    method FindOldest(now: int) returns (candidate: Connection?, bundleCandidate: Bundle?)
      requires Valid()
      ensures IsOldest(Members(), Scores(known, now), candidate)
      ensures candidate != null ==>
        && candidate in known && bundleCandidate != null
        && candidate.bundle == bundleCandidate && bundleCandidate in bundles
    {
      hide Flatten, Sound, Fits, IsOldest, CursorOk, Rest, Scores, OldestSoFar;
      var score := -1;
      ghost var scores := Scores(known, now);
      candidate, bundleCandidate := null, null;
      NobodyYet(lists, scores);
      NobodySeen(scores);
      var iter := new HashIterator.StartIterate(hash);
      var he := iter.NextElement();
      ghost var i := 0;
      FitsSizes(hash.Nodes(), bundles, lists, known);
      while he.Some?
        invariant iter.hash == hash && iter.Valid() && StandsAt(hash.Nodes(), i, iter.current, iter.Left())
        invariant i <= |bundles| && he == if i < |bundles| then Some(hash.Nodes()[i]) else None
        invariant i <= |lists| && OldestSoFar(i, scores, candidate, bundleCandidate, score)
        decreases |bundles| - i
        modifies iter
      {
        EntryAt(hash.Nodes(), bundles, lists, known, i);
        candidate, bundleCandidate, score :=
          OldestOfBundle(he.value.ptr.value, now, candidate, bundleCandidate, score, i);
        he := iter.NextElement();
        i := i + 1;
      }
      AllBundlesSeen(i, scores, candidate, bundleCandidate, score);
    }

    /** The candidate among the first i bundles, with its score. */
    ghost predicate OldestSoFar(i: nat, scores: map<Connection, int>, candidate: Connection?, bundle: Bundle?,
                                score: int)
      requires i <= |lists|
      reads this, known
    {
      && -1 <= score && IsOldest(Flatten(lists[..i]), scores, candidate)
      && (if candidate == null then score == -1 else score == ScoreOf(scores, candidate))
      && (candidate != null ==>
            candidate in known && bundle != null && candidate.bundle == bundle && bundle in bundles)
    }

    lemma NobodySeen(scores: map<Connection, int>)
      requires IsOldest(Flatten(lists[..0]), scores, null)
      ensures OldestSoFar(0, scores, null, null, -1)
    {
    }

    lemma AllBundlesSeen(i: nat, scores: map<Connection, int>, candidate: Connection?, bundle: Bundle?, score: int)
      requires i == |lists| && OldestSoFar(i, scores, candidate, bundle, score)
      ensures IsOldest(Members(), scores, candidate)
      ensures candidate != null ==>
        candidate in known && bundle != null && candidate.bundle == bundle && bundle in bundles
    {
      assert lists[..i] == lists;
    }

    /** The loop over the connections of one bundle, at position i. */
    method OldestOfBundle(bundle: Bundle, now: int, candidate: Connection?, bundleCandidate: Bundle?, score: int,
                          ghost i: nat)
      returns (candidate': Connection?, bundleCandidate': Bundle?, score': int)
      requires Valid() && i < |hash.Nodes()| && hash.Nodes()[i].ptr == Some(bundle) && i < |lists|
      requires OldestSoFar(i, Scores(known, now), candidate, bundleCandidate, score)
      ensures OldestSoFar(i + 1, Scores(known, now), candidate', bundleCandidate', score')
    {
      hide Flatten, Sound, Fits, IsOldest, CursorOk, Rest, ScoreOf, Scores;
      candidate', bundleCandidate' := candidate, bundleCandidate;
      EntryAt(hash.Nodes(), bundles, lists, known, i);
      var better;
      better, score' := Scan(Flatten(lists[..i]), bundle.connList, now, candidate, score, known);
      FlattenPrefix(lists, i);
      if better != candidate {
        Listed(hash.Nodes(), bundles, lists, known, i, better);
        candidate', bundleCandidate' := better, bundle;
      }
    }

    /**
     * The idle connection of the whole cache that was unused for the longest time, taken out of its
     * bundle. The bundle stays, even when nothing is left in it.
     */
    method ExtractOldest(now: int) returns (candidate: Connection?)
      requires Valid()
      modifies this`numConn, this`lists, Owned(), known`bundle
      ensures Valid() && IsOldest(old(Members()), old(Scores(known, now)), candidate)
      ensures candidate == null ==> Members() == old(Members())
      ensures candidate != null ==>
        && candidate in known && candidate.bundle == null
        && Inserted<Connection>(Members(), old(Members()), candidate)
    {
      hide Flatten, Sound, Fits, Inserted, IsOldest, Scores;
      var bundleCandidate;
      candidate, bundleCandidate := FindOldest(now);
      if candidate != null {
        Delist(bundleCandidate, candidate);
        numConn := numConn - 1;
      }
    }

    /** The first connection that a walk meets. */
    method FindFirst() returns (first: Connection?)
      requires Valid()
      ensures first == if Members() == [] then null else Members()[0]
    {
      hide Flatten, Sound, Fits, CursorOk, Rest;
      assert lists[0..] == lists;
      var iter := new HashIterator.StartIterate(hash);
      var he := iter.NextElement();
      ghost var i := 0;
      FitsSizes(hash.Nodes(), bundles, lists, known);
      while he.Some?
        invariant iter.hash == hash && iter.Valid() && StandsAt(hash.Nodes(), i, iter.current, iter.Left())
        invariant i <= |bundles| && he == if i < |bundles| then Some(hash.Nodes()[i]) else None
        invariant Flatten(lists[i..]) == Members()
        decreases |bundles| - i
        modifies iter
      {
        EntryAt(hash.Nodes(), bundles, lists, known, i);
        FlattenDrop(lists, i);
        var bundle := he.value.ptr.value;
        if |bundle.connList| > 0 {
          return bundle.connList[0];
        }
        he := iter.NextElement();
        i := i + 1;
      }
      FlattenDrop(lists, i);
      first := null;
    }

    /**
     * A connection comes back to the cache. When the cache is over its limit the oldest idle
     * connection is extracted and disconnected; disconnecting asks for its removal once more, which
     * is then a no-op. True when the connection itself stayed.
     */
    method ReturnConn(conn: Connection, limit: int, numEasy: nat, now: int) returns (stored: bool, closed: Connection?)
      requires Valid()
      modifies this`numConn, this`bundles, this`lists, hash, hash.table, Owned(), known`bundle
      ensures Valid() && stored == (closed != conn)
      ensures closed == null ==> Members() == old(Members())
      ensures closed != null ==>
        && IsOldest(old(Members()), old(Scores(known, now)), closed)
        && Inserted<Connection>(Members(), old(Members()), closed) && numConn == old(numConn) - 1
      ensures var maxconnects := if limit < 0 then numEasy * 4 else limit;
        closed == null <==>
          || maxconnects == 0 || old(numConn) <= maxconnects
          || IsOldest(old(Members()), old(Scores(known, now)), null)
    {
      hide Flatten, Sound, Fits, Inserted, IsOldest, CutOut, Dropped;
      var maxconnects := if limit < 0 then numEasy * 4 else limit;
      closed := null;
      if maxconnects > 0 && numConn > maxconnects {
        closed := ExtractOldest(now);
        if closed != null {
          OldestExists(old(Members()), old(Scores(known, now)), closed);
          RemoveConn(closed);
        }
      }
      stored := closed != conn;
    }
  }

  /** The score of every connection: how long it was not used, and -1 for one in use. */
  ghost function Scores(conns: set<Connection>, now: int): map<Connection, int>
    reads conns`inUse, conns`lastUsed
  {
    map c | c in conns :: if c.inUse then -1 else now - c.lastUsed
  }

  ghost function ScoreOf(scores: map<Connection, int>, c: Connection?): int {
    if c != null && c in scores then scores[c] else -1
  }

  /** The first among the idle connections of greatest non-negative age, or null when there are none. */
  ghost predicate IsOldest(ms: seq<Connection>, scores: map<Connection, int>, r: Connection?) {
    if r == null then forall j :: 0 <= j < |ms| ==> ScoreOf(scores, ms[j]) < 0
    else exists k :: 0 <= k < |ms| && ms[k] == r && OldestAt(ms, scores, k)
  }

  ghost predicate OldestAt(ms: seq<Connection>, scores: map<Connection, int>, k: nat)
    requires k < |ms|
  {
    && 0 <= ScoreOf(scores, ms[k])
    && (forall j :: 0 <= j < |ms| ==> ScoreOf(scores, ms[j]) <= ScoreOf(scores, ms[k]))
    && forall j :: 0 <= j < k ==> ScoreOf(scores, ms[j]) < ScoreOf(scores, ms[k])
  }

  lemma OldestExists(ms: seq<Connection>, scores: map<Connection, int>, r: Connection)
    requires IsOldest(ms, scores, r)
    ensures !IsOldest(ms, scores, null) && r in ms
  {
  }

  lemma NobodyYet(lists: seq<seq<Connection>>, scores: map<Connection, int>)
    ensures lists[..0] == [] && Flatten(lists[..0]) == [] && IsOldest([], scores, null) && ScoreOf(scores, null) == -1
  {
  }

  lemma OldestStep(ms: seq<Connection>, scores: map<Connection, int>, r: Connection?, c: Connection, high: int)
    requires IsOldest(ms, scores, r) && (if r == null then high == -1 else high == ScoreOf(scores, r))
    ensures IsOldest(ms + [c], scores, if ScoreOf(scores, c) > high then c else r)
  {
    var ns := ms + [c];
    if ScoreOf(scores, c) > high {
      if r != null {
        var k :| 0 <= k < |ms| && ms[k] == r && OldestAt(ms, scores, k);
      }
      assert ns[|ms|] == c && OldestAt(ns, scores, |ms|);
    } else if r != null {
      var k :| 0 <= k < |ms| && ms[k] == r && OldestAt(ms, scores, k);
      assert ns[k] == r && OldestAt(ns, scores, k);
    }
  }

  /** The scan of one list, for a better candidate than the one from the lists before. */
  method Scan(ghost before: seq<Connection>, connList: seq<Connection>, now: int, best: Connection?, high: int,
              ghost known: set<Connection>)
    returns (candidate: Connection?, score: int)
    requires -1 <= high && forall c :: c in connList ==> c in known
    requires IsOldest(before, Scores(known, now), best)
    requires if best == null then high == -1 else high == ScoreOf(Scores(known, now), best)
    ensures -1 <= score && IsOldest(before + connList, Scores(known, now), candidate)
    ensures if candidate == null then score == -1 else score == ScoreOf(Scores(known, now), candidate)
    ensures candidate != best ==> candidate != null && candidate in connList
  {
    hide IsOldest;
    ghost var scores := Scores(known, now);
    candidate, score := best, high;
    assert before + connList[..0] == before;
    var k := 0;
    while k < |connList|
      invariant k <= |connList| && -1 <= score && IsOldest(before + connList[..k], scores, candidate)
      invariant if candidate == null then score == -1 else score == ScoreOf(scores, candidate)
      invariant candidate != best ==> candidate != null && candidate in connList
    {
      var conn := connList[k];
      OldestStep(before + connList[..k], scores, candidate, conn, score);
      assert before + connList[..k] + [conn] == before + connList[..k + 1];
      if !conn.inUse {
        var age := now - conn.lastUsed;
        if age > score {
          candidate, score := conn, age;
        }
      }
      k := k + 1;
    }
    assert connList[..k] == connList;
  }

  lemma EntryAt(nodes: seq<Node<Bundle>>, bundles: seq<Bundle>, lists: seq<seq<Connection>>,
                known: set<Connection>, i: nat)
    requires Fits(nodes, bundles, lists, known) && i < |nodes|
    ensures i < |bundles| == |lists| && nodes[i].ptr == Some(bundles[i]) && bundles[i].connList == lists[i]
    ensures forall c :: c in lists[i] ==> c in known
  {
  }

  lemma BundleAt(nodes: seq<Node<Bundle>>, bundles: seq<Bundle>, lists: seq<seq<Connection>>,
                 known: set<Connection>, b: Bundle) returns (p: nat)
    requires Fits(nodes, bundles, lists, known) && b in bundles
    ensures p < |bundles| == |lists| && bundles[p] == b && b.connList == lists[p]
    ensures forall c :: c in lists[p] ==> c in known
  {
    p :| 0 <= p < |bundles| && bundles[p] == b;
  }

  lemma FlattenDrop<T>(t: seq<seq<T>>, i: nat)
    requires i <= |t|
    ensures Flatten(t[i..]) == if i == |t| then [] else t[i] + Flatten(t[i + 1..])
  {
    assert i < |t| ==> t[i..][1..] == t[i + 1..];
  }

  /** What a valid cache knows of its view. */
  ghost predicate WellKeyed(v: View<Bundle, Connection>) {
    && UniqueKeys(v.nodes) && Distinct(v.Members())
    && v.Sized() && forall i :: 0 <= i < |v.nodes| ==> v.nodes[i].ptr == Some(v.bundles[i])
  }

  lemma TableKeyed(v: View<Bundle, Connection>, t: Table<Bundle>, h: HashFn, bound: nat, known: set<Connection>)
    requires Sound(t, h, bound) && Flatten(t) == v.nodes && Fits(v.nodes, v.bundles, v.lists, known)
    ensures WellKeyed(v) && Distinct(v.Members()) && v.Members() == Flatten(v.lists)
  {
    MembersDistinct(v.bundles, v.lists, Back(known));
  }

  lemma WholeView(v: View<Bundle, Connection>)
    ensures v.Members() == Flatten(v.lists)
  {
  }

  /** The iterator has just delivered the j-th of these elements, or found no more. */
  ghost predicate StandsAt(nodes: seq<Node<Bundle>>, j: nat, current: Option<nat>, left: seq<Node<Bundle>>) {
    if j < |nodes| then current == Some(nodes[j].id) && left == nodes[j + 1..]
    else current == None && left == []
  }

  lemma NotAhead(nodes: seq<Node<Bundle>>, i: nat, current: Option<nat>, left: seq<Node<Bundle>>)
    requires StandsAt(nodes, i + 1, current, left) && UniqueKeys(nodes) && i < |nodes|
    ensures nodes[i] !in left && current != Some(nodes[i].id)
  {
  }

  lemma StartWalk(v0: View<Bundle, Connection>, known: set<Connection>, act: (Connection, nat) -> Action)
    requires Fits(v0.nodes, v0.bundles, v0.lists, known)
    ensures AtBundle(v0, v0, act, 0, 0) && v0.Before(0) == 0 && Distinct(v0.Members())
  {
    assert v0.lists[..0] == [];
    MembersDistinct(v0.bundles, v0.lists, Back(known));
  }

  lemma ListHere(v0: View<Bundle, Connection>, v: View<Bundle, Connection>, act: (Connection, nat) -> Action,
                 known: set<Connection>, i: nat, p: nat)
    requires AtBundle(v0, v, act, i, p) && i < |v0.nodes| && Fits(v.nodes, v.bundles, v.lists, known)
    ensures v0.Sized() && v0.bundles[i].connList == v0.lists[i] && v0.Before(i) + |v0.lists[i]| <= |v0.Members()|
  {
    hide Flatten, Survivors;
    MemberAt(v0, i, 0);
    assert v.bundles[p..][0] == v0.bundles[i] && v.lists[p..][0] == v0.lists[i];
  }

  /** The list of the bundle being visited, and the list element after the one visited now. */
  lemma NextHere(v0: View<Bundle, Connection>, v: View<Bundle, Connection>, act: (Connection, nat) -> Action,
                 known: set<Connection>, i: nat, p: nat, q: nat)
    requires InBundle(v0, v, act, i, p, q) && q < |v0.lists[i]| && Fits(v.nodes, v.bundles, v.lists, known)
    ensures v0.Sized() && v0.Before(i) + |v0.lists[i]| <= |v0.Members()|
    ensures After(v0.bundles[i].connList, v0.lists[i][q]) ==
      if q + 1 < |v0.lists[i]| then Some(v0.lists[i][q + 1]) else None
    ensures v0.lists[i][q] in known && v0.lists[i][q].bundle == v0.bundles[i] && v0.bundles[i] in v.bundles
    ensures v0.Members()[v0.Before(i) + q] == v0.lists[i][q]
  {
    hide Flatten, Survivors, Remaining, Fits;
    BundleThere(v0, v, act, i, p, q);
    Listed(v.nodes, v.bundles, v.lists, known, p, v0.lists[i][q]);
    RemainingStep(v0, act, i, q);
  }

  /** The element after this one in its list. */
  function After(l: seq<Connection>, c: Connection): Option<Connection> {
    var n := IndexOf(l, c) + 1;
    if n < |l| then Some(l[n]) else None
  }

  lemma CutKeeps(v: View<Bundle, Connection>, v': View<Bundle, Connection>, p: nat, c: Connection)
    requires v.Sized() && p < |v.nodes| && c in v.lists[p]
    requires CutOut(v.nodes, v'.nodes, v.bundles, v'.bundles, v.lists, v'.lists, p, c)
    ensures forall b :: b in v'.bundles ==> b in v.bundles
  {
    RemoveAtIndex(v.bundles, p);
  }

  /** A listed connection points back, and its bundle has one position only. */
  lemma Listed(nodes: seq<Node<Bundle>>, bundles: seq<Bundle>, lists: seq<seq<Connection>>,
               known: set<Connection>, p: nat, conn: Connection)
    requires Fits(nodes, bundles, lists, known) && p < |lists| && conn in lists[p]
    ensures conn in known && p < |bundles| && conn.bundle == bundles[p] && IndexOf(bundles, bundles[p]) == p
    ensures Distinct(lists[p]) && bundles[p].connList == lists[p]
  {
    assert Back(known)[conn] == Some(bundles[p]);
  }

  lemma FitsSizes(nodes: seq<Node<Bundle>>, bundles: seq<Bundle>, lists: seq<seq<Connection>>, known: set<Connection>)
    requires Fits(nodes, bundles, lists, known)
    ensures |nodes| == |bundles| == |lists|
  {
  }

  lemma FitsEntries(nodes: seq<Node<Bundle>>, bundles: seq<Bundle>, lists: seq<seq<Connection>>, known: set<Connection>)
    requires Fits(nodes, bundles, lists, known)
    ensures EntriesOk(nodes, bundles) && LinksOk(bundles, lists, Back(known)) && Distinct(bundles)
  {
  }

  lemma EntryDiffers(nodes: seq<Node<Bundle>>, bundles: seq<Bundle>, bundle: Bundle, n: nat)
    requires EntriesOk(nodes, bundles) && n < |nodes| && nodes[n].ptr != Some(bundle)
    ensures n != IndexOf(bundles, bundle)
  {
  }

  lemma EntryFound(nodes: seq<Node<Bundle>>, bundles: seq<Bundle>, bundle: Bundle, n: nat)
    requires EntriesOk(nodes, bundles) && n < |nodes| && nodes[n].ptr == Some(bundle)
    ensures bundle in bundles && n == IndexOf(bundles, bundle)
  {
    assert bundles[n] == bundle;
  }

  lemma EntryDeleted(t: Table<Bundle>, h: HashFn, bound: nat, bundles: seq<Bundle>, i: nat, n: nat)
    requires Sound(t, h, bound) && EntriesOk(Flatten(t), bundles) && i < |bundles| && n < |Flatten(t)|
    requires Flatten(t)[n].ptr == Some(bundles[i])
    ensures n == i && Flatten(Dropped(t, h, Flatten(t)[i].key)) == RemoveAt(Flatten(t), i)
    ensures Lost(ToMap(Flatten(t)), Flatten(t)[i].key) == [bundles[i]]
  {
    hide Flatten, ToMap, RemoveAt, Dropped;
    DroppedAt(t, h, bound, i);
    ToMapHas(Flatten(t), i);
  }
}
