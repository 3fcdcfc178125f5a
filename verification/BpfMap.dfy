/** The contract of a kernel hash map as the update protocol uses it: bounded insertion
    with BPF_NOEXIST, and the walk of BPF_MAP_GET_NEXT_KEY described in bpf(2). */
module BpfMap {
  import opened Common

  // -------------------------------------------------------------- insertion

  // The outcome of inserting with BPF_NOEXIST and ignoring EEXIST.
  function Insert<K, V>(m: map<K, V>, item: (K, V)): map<K, V> {
    if item.0 in m then m else m[item.0 := item.1]
  }

  /** The map left by inserting every item in order. */
  function Install<K, V>(items: seq<(K, V)>): map<K, V> {
    if items == [] then map[] else Insert(Install(items[..|items| - 1]), Last(items))
  }

  function KeysOf<K, V>(items: seq<(K, V)>): set<K> {
    set i | 0 <= i < |items| :: items[i].0
  }

  lemma {:induction false} InstallKeys<K, V>(items: seq<(K, V)>)
    ensures Install(items).Keys == KeysOf(items)
  {
    if items != [] {
      var front := items[..|items| - 1];
      InstallKeys(front);
      assert items == front + [Last(items)];
      assert KeysOf(items) == KeysOf(front) + {Last(items).0} by {
        assert forall i :: 0 <= i < |front| ==> items[i] == front[i];
      }
    }
  }

  /** The first item with a key is the one that stays. */
  lemma {:induction false} FirstWins<K, V>(items: seq<(K, V)>, i: nat)
    requires i < |items|
    requires forall j :: 0 <= j < i ==> items[j].0 != items[i].0
    ensures items[i].0 in Install(items) && Install(items)[items[i].0] == items[i].1
  {
    var front := items[..|items| - 1];
    if i == |items| - 1 {
      InstallKeys(front);
    } else {
      FirstWins(front, i);
    }
  }

  lemma InstallStep<K, V>(items: seq<(K, V)>, n: nat)
    requires n < |items|
    ensures Install(items[..n + 1]) == Insert(Install(items[..n]), items[n])
  {
    assert items[..n + 1][..n] == items[..n];
  }

  lemma {:induction false} InstallGrows<K, V>(items: seq<(K, V)>, n: nat)
    requires n <= |items|
    ensures Submap(Install(items[..n]), Install(items))
    ensures |Install(items[..n])| <= |Install(items)|
    decreases |items| - n
  {
    if n == |items| {
      assert items[..n] == items;
    } else {
      InstallStep(items, n);
      InstallGrows(items, n + 1);
    }
  }

  ghost predicate Submap<K, V>(a: map<K, V>, b: map<K, V>) {
    forall k :: k in a ==> k in b && a[k] == b[k]
  }

  /** One of apply_policy's insertion loops, into a map that was just cleared. It
      makes it through the first `done` items; when the only possible failure is a full
      map it succeeds exactly if the distinct keys fit. */
  method InsertAll<K(==), V>(items: seq<(K, V)>, capacity: nat, mayFail: bool)
    returns (ok: bool, m: map<K, V>, done: nat)
    ensures done <= |items| && m == Install(items[..done])
    ensures ok ==> done == |items| && m == Install(items)
    ensures !mayFail ==> (ok <==> |KeysOf(items)| <= capacity)
  {
    m := map[];
    InstallKeys(items);
    for i := 0 to |items|
      invariant m == Install(items[..i])
      invariant |m| <= capacity
    {
      var fault: bool := *;
      if mayFail && fault {
        return false, m, i;
      }
      InstallStep(items, i);
      if items[i].0 !in m {
        if |m| >= capacity {
          InstallGrows(items, i + 1);
          return false, m, i;
        }
        m := m[items[i].0 := items[i].1];
      }
    }
    assert items[..|items|] == items;
    return true, m, |items|;
  }

  // --------------------------------------------------------------- clearing

  datatype NextKey<+K> = Key(key: K) | NoEntry | WalkFault

  // order lists the keys of m, each once, as the kernel walks its buckets.
  ghost predicate WalkOrder<K, V>(order: seq<K>, m: map<K, V>) {
    if order == [] then m == map[]
    else order[0] in m && order[0] !in order[1..] && WalkOrder(order[1..], m - {order[0]})
  }

  lemma {:induction false} WalkOrderMeans<K(!new), V>(order: seq<K>, m: map<K, V>)
    ensures WalkOrder(order, m) <==>
      && (forall k :: k in order <==> k in m)
      && forall i, j :: 0 <= i < j < |order| ==> order[i] != order[j]
  {
    if order == [] {
      assert (forall k :: k !in m) ==> m == map[];
    } else {
      var rest, m' := order[1..], m - {order[0]};
      WalkOrderMeans(rest, m');
      assert forall k :: k in order <==> k == order[0] || k in rest;
      assert (forall i, j :: 0 <= i < j < |order| ==> order[i] != order[j]) <==>
             order[0] !in rest && forall i, j :: 0 <= i < j < |rest| ==> rest[i] != rest[j] by {
        assert forall i :: 0 <= i < |rest| ==> rest[i] == order[i + 1];
        assert forall i :: 0 < i < |order| ==> order[i] == rest[i - 1];
      }
    }
  }

  function IndexOf<K(==)>(order: seq<K>, key: K): (i: nat)
    requires key in order
    ensures i < |order| && order[i] == key
  {
    if order[0] == key then 0 else 1 + IndexOf(order[1..], key)
  }

  // BPF_MAP_GET_NEXT_KEY: no key or an absent key starts over at the first element, the
  // last element is followed by ENOENT.
  function GetNextKey<K(==)>(order: seq<K>, previous: Option<K>): NextKey<K> {
    if previous.Some? && previous.value in order then
      var i := IndexOf(order, previous.value);
      if i + 1 < |order| then Key(order[i + 1]) else NoEntry
    else if order == [] then NoEntry
    else Key(order[0])
  }

  // Left alone, the walk goes through the keys in their order and ends.
  lemma {:induction false} WalkGoesOn<K>(order: seq<K>, i: nat)
    requires i < |order| && forall j, k :: 0 <= j < k < |order| ==> order[j] != order[k]
    ensures GetNextKey(order, None) == Key(order[0])
    ensures GetNextKey(order, Some(order[i])) == if i + 1 < |order| then Key(order[i + 1]) else NoEntry
  {
    assert IndexOf(order, order[i]) == i;
  }

  // The keys can be deleted in this order, each present until its own deletion.
  ghost predicate Deletable<K, V>(m: map<K, V>, keys: seq<K>) {
    keys == [] || (keys[0] in m && Deletable(m - {keys[0]}, keys[1..]))
  }

  /** The map left by deleting the listed keys in order. */
  ghost function Remaining<K, V>(m: map<K, V>, keys: seq<K>): map<K, V> {
    if keys == [] then m else Remaining(m - {keys[0]}, keys[1..])
  }

  lemma {:induction false} DeleteOneMore<K, V>(m: map<K, V>, keys: seq<K>, k: K)
    requires Deletable(m, keys) && k in Remaining(m, keys)
    ensures Deletable(m, keys + [k]) && Remaining(m, keys + [k]) == Remaining(m, keys) - {k}
  {
    var longer := keys + [k];
    if keys != [] {
      DeleteOneMore(m - {keys[0]}, keys[1..], k);
      assert longer[1..] == keys[1..] + [k];
    } else {
      assert longer[1..] == [];
    }
  }

  /** clear_map: delete the key at hand, then ask for the successor of the deleted key.
      Whatever the walk order, every entry is visited once and the map ends up empty. */
  method ClearMap<K(==), V>(m0: map<K, V>, order0: seq<K>, mayFail: bool)
    returns (ok: bool, m: map<K, V>, visited: seq<K>)
    requires WalkOrder(order0, m0)
    ensures visited <= order0 && Deletable(m0, visited)
    ensures m == Remaining(m0, visited)
    ensures ok ==> m == map[] && visited == order0
    ensures !mayFail ==> ok
  {
    var order := order0;
    m, visited := m0, [];
    var fault: bool := *;
    var next := if mayFail && fault then WalkFault else GetNextKey(order, None);
    while next.Key?
      invariant order0 == visited + order
      invariant Deletable(m0, visited) && m == Remaining(m0, visited)
      invariant WalkOrder(order, m)
      invariant next.WalkFault? || next == GetNextKey(order, None)
      invariant !mayFail ==> !next.WalkFault?
      decreases |order|
    {
      var key := next.key;
      DeleteOneMore(m0, visited, key);
      assert order0 == (visited + [key]) + order[1..];
      visited, order := visited + [key], order[1..];
      m := m - {key};
      fault := *;
      next := if mayFail && fault then WalkFault else GetNextKey(order, Some(key));
    }
    ok := next.NoEntry?;
  }

  // Some order in which the kernel could walk the map; callers learn nothing else.
  method AnyWalkOrder<K(==, !new), V>(m: map<K, V>) returns (order: seq<K>)
    ensures WalkOrder(order, m)
    decreases |m|
  {
    if m.Keys == {} {
      return [];
    }
    var k :| k in m;
    var rest := AnyWalkOrder(m - {k});
    WalkOrderMeans(rest, m - {k});
    order := [k] + rest;
  }
}
