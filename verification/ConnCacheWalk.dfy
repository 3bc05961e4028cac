/**
 * Where a walk over the connection cache stands when its callback may remove the connection it is
 * given, and with that the bundle and the hash entry (lib/conncache.c:344-381).
 */
module ConnCacheWalk {
  import opened Wrappers
  import opened HashSpec
  import opened ConnCacheLists

  /** What the callback does with a connection, and whether it asks for the end of the walk. */
  datatype Action = Action(removes: bool, stops: bool)

  /** The cache as it can be seen: entries, bundles and lists, in the order of a walk. */
  datatype View<B, C> = View(nodes: seq<Node<B>>, bundles: seq<B>, lists: seq<seq<C>>) {
    predicate Sized() {
      |nodes| == |bundles| == |lists|
    }

    function Members(): seq<C> {
      Flatten(lists)
    }

    /** How many connections stand before the i-th bundle. */
    function Before(i: nat): (r: nat)
      requires i <= |lists|
    {
      |Flatten(lists[..i])|
    }
  }

  /** Of the connections lo to hi, those that the callback leaves in. */
  function Survivors<C>(m: seq<C>, act: (C, nat) -> Action, lo: nat, hi: nat): (r: seq<C>)
    requires lo <= hi <= |m|
    decreases hi
  {
    if lo == hi then []
    else Survivors(m, act, lo, hi - 1) + if act(m[hi - 1], hi - 1).removes then [] else [m[hi - 1]]
  }

  lemma {:induction false} SurvivorsJoin<C>(m: seq<C>, act: (C, nat) -> Action, lo: nat, mid: nat, hi: nat)
    requires lo <= mid <= hi <= |m|
    ensures Survivors(m, act, lo, hi) == Survivors(m, act, lo, mid) + Survivors(m, act, mid, hi)
    decreases hi
  {
    if mid < hi {
      SurvivorsJoin(m, act, lo, mid, hi - 1);
    }
  }

  /** Exactly the connections that the callback spares survive. */
  lemma {:induction false} SurvivorIff<C>(m: seq<C>, act: (C, nat) -> Action, hi: nat, c: C)
    requires hi <= |m|
    ensures c in Survivors(m, act, 0, hi) <==> exists k :: 0 <= k < hi && m[k] == c && !act(m[k], k).removes
    decreases hi
  {
    if 0 < hi {
      SurvivorIff(m, act, hi - 1, c);
    }
  }

  /** From call number lo on, the callback asked for the end in the last call if at all. */
  ghost predicate StopsAtEnd<C>(act: (C, nat) -> Action, calls: seq<C>, lo: nat, stopped: bool) {
    forall k :: lo <= k < |calls| ==> (act(calls[k], k).stops <==> stopped && k == |calls| - 1)
  }

  lemma StopsJoin<C>(act: (C, nat) -> Action, sofar: seq<C>, calls: seq<C>, stopped: bool)
    requires sofar <= calls && StopsAtEnd(act, sofar, 0, false) && StopsAtEnd(act, calls, |sofar|, stopped)
    requires stopped ==> |sofar| < |calls|
    ensures StopsAtEnd(act, calls, 0, stopped)
  {
  }

  lemma MemberAt<B, C>(v: View<B, C>, i: nat, q: nat)
    requires i < |v.lists| && q <= |v.lists[i]|
    ensures v.Before(i) + |v.lists[i]| <= |v.Members()|
    ensures v.Members()[v.Before(i)..v.Before(i) + |v.lists[i]|] == v.lists[i]
    ensures v.Members()[v.Before(i) + q..] == v.lists[i][q..] + Flatten(v.lists[i + 1..])
  {
    FlattenSplit(v.lists, i);
    hide Flatten;
  }

  /** Of the i-th bundle, q connections were visited: what its list holds now. */
  function Remaining<B, C>(v: View<B, C>, act: (C, nat) -> Action, i: nat, q: nat): seq<C>
    requires i < |v.lists| && q <= |v.lists[i]| && v.Before(i) + q <= |v.Members()|
  {
    Survivors(v.Members(), act, v.Before(i), v.Before(i) + q) + v.lists[i][q..]
  }

  /** i bundles are done, and p entries of them are left. */
  ghost predicate AtBundle<B, C>(v0: View<B, C>, v: View<B, C>, act: (C, nat) -> Action, i: nat, p: nat) {
    && v0.Sized() && v.Sized() && i <= |v0.nodes| && p <= |v.nodes|
    && v.nodes[p..] == v0.nodes[i..] && v.bundles[p..] == v0.bundles[i..] && v.lists[p..] == v0.lists[i..]
    && v0.Before(i) <= |v0.Members()|
    && Flatten(v.lists[..p]) == Survivors(v0.Members(), act, 0, v0.Before(i))
  }

  /**
   * q connections of the i-th bundle were visited as well. The entry is there unless it was emptied
   * by the callback.
   */
  ghost predicate InBundle<B, C>(v0: View<B, C>, v: View<B, C>, act: (C, nat) -> Action, i: nat, p: nat, q: nat) {
    && v0.Sized() && v.Sized() && i < |v0.nodes| && p <= |v.nodes|
    && q <= |v0.lists[i]| && v0.Before(i) + |v0.lists[i]| <= |v0.Members()|
    && Flatten(v.lists[..p]) == Survivors(v0.Members(), act, 0, v0.Before(i))
    && (var r := Remaining(v0, act, i, q);
      if r != [] || v0.lists[i] == []
      then (v.nodes[p..] == v0.nodes[i..] && v.bundles[p..] == v0.bundles[i..]
        && v.lists[p..] == [r] + v0.lists[i + 1..])
      else (v.nodes[p..] == v0.nodes[i + 1..] && v.bundles[p..] == v0.bundles[i + 1..]
        && v.lists[p..] == v0.lists[i + 1..]))
  }

  lemma EnterBundle<B, C>(v0: View<B, C>, v: View<B, C>, act: (C, nat) -> Action, i: nat, p: nat)
    requires AtBundle(v0, v, act, i, p) && i < |v0.nodes|
    ensures InBundle(v0, v, act, i, p, 0)
  {
    hide Flatten;
    MemberAt(v0, i, 0);
    assert Remaining(v0, act, i, 0) == v0.lists[i];
    assert v0.lists[i..] == [v0.lists[i]] + v0.lists[i + 1..];
  }

  lemma Middle<C>(r: seq<C>, s: seq<C>, c: C, t: seq<C>)
    requires r == s + [c] + t && Distinct(r)
    ensures IndexOf(r, c) == |s| && RemoveAt(r, |s|) == s + t && r[|s|] == c
    ensures if t == [] then |r| == |s| + 1 else |s| + 1 < |r| && r[|s| + 1] == t[0]
  {
    assert r[|s|] == c;
  }

  /** What visiting one more connection does to the list. */
  lemma RemainingStep<B, C>(v: View<B, C>, act: (C, nat) -> Action, i: nat, q: nat)
    requires i < |v.lists| && q < |v.lists[i]| && v.Before(i) + |v.lists[i]| <= |v.Members()|
    requires Distinct(Remaining(v, act, i, q))
    ensures var r := Remaining(v, act, i, q); var c := v.lists[i][q]; var k := v.Before(i) + q;
      && c in r && v.Members()[k] == c
      && Remaining(v, act, i, q + 1) == (if act(c, k).removes then RemoveAt(r, IndexOf(r, c)) else r)
      && (var n := IndexOf(r, c) + 1;
        if q + 1 < |v.lists[i]| then n < |r| && r[n] == v.lists[i][q + 1] else n == |r|)
  {
    hide Flatten, IndexOf, RemoveAt, Distinct, View.Before, View.Members;
    MemberAt(v, i, q);
    var m, l, b, k := v.Members(), v.lists[i], v.Before(i), v.Before(i) + q;
    var s, t := Survivors(m, act, b, k), l[q + 1..];
    assert m[k] == m[b..b + |l|][q] == l[q];
    assert l[q..] == [l[q]] + t;
    assert Remaining(v, act, i, q) == s + [l[q]] + t;
    Middle(Remaining(v, act, i, q), s, l[q], t);
  }

  lemma PassOne<B, C>(v0: View<B, C>, v: View<B, C>, act: (C, nat) -> Action, i: nat, p: nat, q: nat)
    requires InBundle(v0, v, act, i, p, q) && q < |v0.lists[i]| && Distinct(Remaining(v0, act, i, q))
    requires !act(v0.lists[i][q], v0.Before(i) + q).removes
    ensures InBundle(v0, v, act, i, p, q + 1)
  {
    hide Flatten, Survivors;
    RemainingStep(v0, act, i, q);
  }

  /** While a connection is still to be visited, its bundle is at position p. */
  lemma BundleThere<B, C>(v0: View<B, C>, v: View<B, C>, act: (C, nat) -> Action, i: nat, p: nat, q: nat)
    requires InBundle(v0, v, act, i, p, q) && q < |v0.lists[i]|
    ensures v0.Sized() && i < |v0.nodes|
    ensures p < |v.nodes| && v.nodes[p] == v0.nodes[i] && v.bundles[p] == v0.bundles[i]
    ensures v.lists[p] == Remaining(v0, act, i, q) && v0.lists[i][q] in v.lists[p]
  {
    hide Flatten, Survivors;
    var r := Remaining(v0, act, i, q);
    assert r[|r| - |v0.lists[i]| + q] == v0.lists[i][q];
    assert v.lists[p..][0] == r && v.nodes[p..][0] == v0.nodes[i] && v.bundles[p..][0] == v0.bundles[i];
  }

  lemma CutOne<B, C>(v0: View<B, C>, v: View<B, C>, v': View<B, C>, act: (C, nat) -> Action, i: nat, p: nat, q: nat)
    requires InBundle(v0, v, act, i, p, q) && q < |v0.lists[i]| && Distinct(Remaining(v0, act, i, q))
    requires act(v0.lists[i][q], v0.Before(i) + q).removes
    requires p < |v.nodes| && v0.lists[i][q] in v.lists[p] && v'.Sized()
    requires CutOut(v.nodes, v'.nodes, v.bundles, v'.bundles, v.lists, v'.lists, p, v0.lists[i][q])
    ensures InBundle(v0, v', act, i, p, q + 1)
  {
    hide Flatten, Survivors;
    var r, c := Remaining(v0, act, i, q), v0.lists[i][q];
    BundleThere(v0, v, act, i, p, q);
    RemainingStep(v0, act, i, q);
    OneLeft(r, IndexOf(r, c));
    hide Remaining;
    assert v'.lists[..p] == v.lists[..p];
    if r == [c] {
      TailRemoved(v.nodes, p);
      TailRemoved(v.bundles, p);
      TailRemoved(v.lists, p);
      assert v0.nodes[i..][1..] == v0.nodes[i + 1..] && v0.bundles[i..][1..] == v0.bundles[i + 1..];
    } else {
      assert v'.lists[p..] == [v'.lists[p]] + v.lists[p + 1..];
      assert v.lists[p..][1..] == v.lists[p + 1..];
    }
  }

  lemma TailRemoved<T>(s: seq<T>, p: nat)
    requires p < |s|
    ensures RemoveAt(s, p)[p..] == s[p..][1..] && RemoveAt(s, p)[..p] == s[..p]
  {
  }

  /** The next bundle, at the next position unless the entry is gone. */
  lemma LeaveBundle<B, C>(v0: View<B, C>, v: View<B, C>, act: (C, nat) -> Action, i: nat, p: nat)
    returns (p': nat)
    requires i < |v0.lists| && InBundle(v0, v, act, i, p, |v0.lists[i]|)
    ensures AtBundle(v0, v, act, i + 1, p') 
    ensures v0.Before(i + 1) == v0.Before(i) + |v0.lists[i]| <= |v0.Members()|
  {
    hide Flatten;
    var m, b, e := v0.Members(), v0.Before(i), v0.Before(i) + |v0.lists[i]|;
    var r := Remaining(v0, act, i, |v0.lists[i]|);
    FlattenPrefix(v0.lists, i);
    SurvivorsJoin(m, act, 0, b, e);
    assert r == Survivors(m, act, b, e);
    if r != [] || v0.lists[i] == [] {
      p' := p + 1;
      assert v.lists[p..][0] == r;
      FlattenPrefix(v.lists, p);
      assert v.lists[p..][1..] == v.lists[p + 1..];
      assert v.nodes[p..][1..] == v.nodes[p + 1..] && v.bundles[p..][1..] == v.bundles[p + 1..];
      assert v0.nodes[i..][1..] == v0.nodes[i + 1..] && v0.bundles[i..][1..] == v0.bundles[i + 1..];
    } else {
      p' := p;
    }
  }

  /** The whole cache during the walk: survivors so far, and everything not yet visited. */
  lemma WalkMembers<B, C>(v0: View<B, C>, v: View<B, C>, act: (C, nat) -> Action, i: nat, p: nat, q: nat)
    requires InBundle(v0, v, act, i, p, q)
    ensures var k := v0.Before(i) + q;
      v.Members() == Survivors(v0.Members(), act, 0, k) + v0.Members()[k..]
  {
    hide Flatten, Survivors;
    var m, b, k := v0.Members(), v0.Before(i), v0.Before(i) + q;
    var r := Remaining(v0, act, i, q);
    MemberAt(v0, i, q);
    SurvivorsJoin(m, act, 0, b, k);
    assert v.lists == v.lists[..p] + v.lists[p..];
    FlattenAppend(v.lists[..p], v.lists[p..]);
    if r != [] || v0.lists[i] == [] {
      FlattenAppend([r], v0.lists[i + 1..]);
      FlattenOne(r);
    }
  }

  lemma WalkOver<B, C>(v0: View<B, C>, v: View<B, C>, act: (C, nat) -> Action, p: nat)
    requires AtBundle(v0, v, act, |v0.nodes|, p)
    ensures v0.Before(|v0.nodes|) == |v0.Members()|
    ensures v.Members() == Survivors(v0.Members(), act, 0, |v0.Members()|)
  {
    assert v0.lists[..|v0.nodes|] == v0.lists;
    assert v.lists[p..] == [] && v.lists[..p] == v.lists;
  }
}
