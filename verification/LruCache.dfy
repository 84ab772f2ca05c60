/**
 The fixed-capacity LRU cache in front of the LSM tree (metastore/lru.go). The linked list
 is a sequence, most recently used first; the lookup map changes together with it.
 */
module LruCache {
  import opened BigEndian
  import opened StatKey

  datatype Node = Node(key: Key, value: Bytes)

  /** What the lookup map should hold for a given list. */
  function ItemsOf(ll: seq<Node>): map<Key, Bytes> {
    if ll == [] then map[] else ItemsOf(ll[1..])[ll[0].key := ll[0].value]
  }

  /** No key occurs twice in the list. */
  ghost predicate Distinct(ll: seq<Node>) {
    ll == [] || (ll[0].key !in ItemsOf(ll[1..]) && Distinct(ll[1..]))
  }

  /** The list without the node of key `k`. */
  function Without(ll: seq<Node>, k: Key): seq<Node> {
    if ll == [] then []
    else if ll[0].key == k then Without(ll[1..], k)
    else [ll[0]] + Without(ll[1..], k)
  }

  lemma {:induction false} WithoutKeeps(ll: seq<Node>, k: Key)
    requires Distinct(ll)
    ensures Distinct(Without(ll, k)) && ItemsOf(Without(ll, k)) == ItemsOf(ll) - {k}
    ensures |Without(ll, k)| == |ll| - if k in ItemsOf(ll) then 1 else 0
    ensures k !in ItemsOf(ll) ==> Without(ll, k) == ll
  {
    if ll != [] {
      WithoutKeeps(ll[1..], k);
      var w := Without(ll[1..], k);
      assert ([ll[0]] + w)[1..] == w;
      assert ll == [ll[0]] + ll[1..];
    }
  }

  lemma {:induction false} KeyListed(ll: seq<Node>, k: Key)
    ensures k in ItemsOf(ll) <==> exists i :: 0 <= i < |ll| && ll[i].key == k
  {
    if ll != [] {
      KeyListed(ll[1..], k);
      if i :| 0 <= i < |ll| && ll[i].key == k {
        if i > 0 { assert ll[1..][i - 1].key == k; }
      }
      if i :| 0 <= i < |ll[1..]| && ll[1..][i].key == k { assert ll[i + 1].key == k; }
    }
  }

  /** Taking a node out of the list leaves the nodes before and after it as they were, so the
      order in which the others will be evicted does not change. */
  lemma {:induction false} WithoutSplits(front: seq<Node>, node: Node, back: seq<Node>)
    requires Distinct(front + [node] + back)
    ensures Without(front + [node] + back, node.key) == front + back
  {
    var ll := front + [node] + back;
    if front == [] {
      assert ll == [node] + back && ll[1..] == back;
      WithoutKeeps(back, node.key);
    } else {
      assert ll[1..] == front[1..] + [node] + back;
      WithoutSplits(front[1..], node, back);
      KeyListed(ll[1..], ll[0].key);
      assert ll[1..][|front| - 1] == node;
      assert front + back == [front[0]] + (front[1..] + back);
    }
  }

  lemma {:induction false} DropLast(ll: seq<Node>)
    requires ll != [] && Distinct(ll)
    ensures var n := |ll| - 1;
      Distinct(ll[..n]) && ll[n].key in ItemsOf(ll) && ItemsOf(ll[..n]) == ItemsOf(ll) - {ll[n].key}
  {
    var n := |ll| - 1;
    if n == 0 {
      assert ll[..0] == [] && ll[1..] == [];
    } else {
      var rest := ll[1..];
      DropLast(rest);
      assert ll[..n][1..] == rest[..n - 1] && rest[n - 1] == ll[n];
    }
  }

  lemma {:induction false} PushFront(ll: seq<Node>, node: Node)
    requires Distinct(ll) && node.key !in ItemsOf(ll)
    ensures Distinct([node] + ll) && ItemsOf([node] + ll) == ItemsOf(ll)[node.key := node.value]
  {
    assert ([node] + ll)[1..] == ll;
  }

  class Cache {
    const capacity: nat
    var ll: seq<Node>
    var items: map<Key, Bytes>

    ghost predicate Valid()
      reads this
    {
      capacity >= 1 && |ll| <= capacity && Distinct(ll) && items == ItemsOf(ll)
    }

    constructor (capacity: int)
      ensures Valid() && ll == [] && items == map[]
      ensures this.capacity == if capacity < 1 then 1 else capacity
    {
      this.capacity := if capacity < 1 then 1 else capacity;
      ll := [];
      items := map[];
    }

    /** Get refreshes recency on a hit and changes nothing else. */
    method Get(k: Key) returns (v: Option<Bytes>)
      requires Valid()
      modifies this
      ensures Valid() && items == old(items)
      ensures v == if k in items then Some(items[k]) else None
      ensures ll == if v.Some? then [Node(k, v.value)] + Without(old(ll), k) else old(ll)
    {
      hide ItemsOf, Distinct, Without;
      if k !in items { return None; }
      v := Some(items[k]);
      WithoutKeeps(ll, k);
      PushFront(Without(ll, k), Node(k, items[k]));
      ll := [Node(k, items[k])] + Without(ll, k);
    }

    /** Put makes `k` the most recent key; if that exceeds the capacity, exactly the least
        recently used key is dropped. */
    method Put(k: Key, v: Bytes)
      requires Valid()
      modifies this
      ensures Valid()
      ensures var all := [Node(k, v)] + Without(old(ll), k);
        ll == if |all| > capacity then all[..capacity] else all
      ensures k in items && items[k] == v && items.Keys <= old(items).Keys + {k}
      ensures forall x <- items.Keys :: x != k ==> items[x] == old(items)[x]
    {
      hide ItemsOf, Distinct, Without;
      WithoutKeeps(ll, k);
      PushFront(Without(ll, k), Node(k, v));
      if k in items {
        ll := [Node(k, v)] + Without(ll, k);
        items := items[k := v];
        return;
      }
      ll := [Node(k, v)] + ll;
      items := items[k := v];
      if |ll| > capacity {
        assert ll[|ll| - 1] == old(ll)[|old(ll)| - 1];
        DropLast(old(ll));
        Evict();
      }
    }

    /** evict drops the least recently used node. */
    method Evict()
      requires |ll| >= 1 && Distinct(ll) && items == ItemsOf(ll)
      modifies this
      ensures ll == old(ll)[..|old(ll)| - 1] && items == old(items) - {old(ll)[|old(ll)| - 1].key}
      ensures Distinct(ll) && items == ItemsOf(ll)
    {
      hide ItemsOf, Distinct;
      DropLast(ll);
      items := items - {ll[|ll| - 1].key};
      ll := ll[..|ll| - 1];
    }

    method Remove(k: Key)
      requires Valid()
      modifies this
      ensures Valid() && items == old(items) - {k} && ll == Without(old(ll), k)
    {
      hide ItemsOf, Distinct, Without;
      WithoutKeeps(ll, k);
      if k in items {
        ll := Without(ll, k);
        items := items - {k};
      }
    }
  }
}
