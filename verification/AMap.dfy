/** The map of amap.h: a list of key-value pairs with distinct keys, looked up from the front. */
module AMap {
  import opened AList

  datatype KeyVal<K, V> = KeyVal(key: K, val: V)

  ghost predicate DistinctKeys<K, V>(s: seq<KeyVal<K, V>>) {
    forall i, j :: 0 <= i < j < |s| ==> s[i].key != s[j].key
  }

  ghost function AsMap<K, V>(s: seq<KeyVal<K, V>>): map<K, V> {
    if s == [] then map[] else AsMap(s[..|s| - 1])[s[|s| - 1].key := s[|s| - 1].val]
  }

  /** With distinct keys the map has exactly the pairs of the list. */
  lemma {:induction false} AsMapHas<K, V>(s: seq<KeyVal<K, V>>)
    requires DistinctKeys(s)
    ensures forall i :: 0 <= i < |s| ==> s[i].key in AsMap(s) && AsMap(s)[s[i].key] == s[i].val
    ensures forall k :: k in AsMap(s) ==> exists i :: 0 <= i < |s| && s[i].key == k
    ensures |AsMap(s)| == |s|
  {
    if s != [] {
      var t := s[..|s| - 1];
      AsMapHas(t);
      forall i | 0 <= i < |s|
        ensures s[i].key in AsMap(s) && AsMap(s)[s[i].key] == s[i].val
      {
        if i < |s| - 1 {
          assert t[i] == s[i];
        }
      }
      forall k | k in AsMap(s)
        ensures exists i :: 0 <= i < |s| && s[i].key == k
      {
        if k != s[|s| - 1].key {
          var i :| 0 <= i < |t| && t[i].key == k;
          assert s[i].key == k;
        }
      }
      assert s[|s| - 1].key !in AsMap(t);
    }
  }

  lemma {:induction false} AsMapUpdate<K, V>(s: seq<KeyVal<K, V>>, k: nat, val: V)
    requires k < |s| && DistinctKeys(s)
    ensures AsMap(s[k := s[k].(val := val)]) == AsMap(s)[s[k].key := val]
    ensures DistinctKeys(s[k := s[k].(val := val)])
  {
    var t := s[k := s[k].(val := val)];
    var last := |s| - 1;
    if k == last {
      assert t[..last] == s[..last];
    } else {
      assert t[..last] == s[..last][k := s[k].(val := val)];
      AsMapUpdate(s[..last], k, val);
      assert t[last] == s[last];
    }
  }

  lemma AppendKey<K, V>(s: seq<KeyVal<K, V>>, kv: KeyVal<K, V>)
    requires DistinctKeys(s) && forall i :: 0 <= i < |s| ==> s[i].key != kv.key
    ensures DistinctKeys(s + [kv]) && kv.key !in AsMap(s) && AsMap(s + [kv]) == AsMap(s)[kv.key := kv.val]
  {
    AsMapHas(s);
    assert (s + [kv])[..|s|] == s;
  }

  lemma HasKey<K, V>(s: seq<KeyVal<K, V>>, k: nat)
    requires DistinctKeys(s) && k < |s|
    ensures s[k].key in AsMap(s)
  {
    AsMapHas(s);
  }

  class Map<K(==), V(0)> {
    const list: List<KeyVal<K, V>>

    ghost predicate Valid()
      reads this, list, list.nodes
    {
      list.Valid() && DistinctKeys(list.Contents())
    }

    ghost function Model(): map<K, V>
      requires Valid()
      reads this, list, list.nodes
    {
      AsMap(list.Contents())
    }

    constructor ()
      ensures Valid() && fresh(list) && list.nodes == [] && Model() == map[]
    {
      list := new List();
    }

    method Contains(key: K) returns (found: bool)
      requires Valid()
      ensures found <==> key in Model()
    {
      AsMapHas(list.Contents());
      var node, k := list.Find((kv: KeyVal<K, V>) => kv.key == key);
      found := node != null;
      assert node != null ==> list.Contents()[k].key == key;
    }

    /** operator[]: the place of the key's value, appended with a default value if the key is new. */
    method Place(key: K, default: V) returns (node: Node<KeyVal<K, V>>, ghost k: nat)
      requires Valid()
      modifies list, list.nodes
      ensures Valid() && k < |list.nodes| && list.nodes[k] == node && node.elem.key == key
      ensures Model() == if key in old(Model()) then old(Model()) else old(Model())[key := default]
      ensures forall i :: 0 <= i < |list.nodes| ==> list.nodes[i] in old(list.nodes) || fresh(list.nodes[i])
    {
      hide AsMap, DistinctKeys;
      ghost var s := list.Contents();
      var found;
      found, k := list.Find((kv: KeyVal<K, V>) => kv.key == key);
      if found == null {
        node := list.Append(KeyVal(key, default));
        AppendKey(s, KeyVal(key, default));
        assert list.Contents()[k] == KeyVal(key, default);
      } else {
        node := found;
        HasKey(s, k);
        assert s[k] == node.elem;
      }
    }

    /** Stores through the reference that operator[] returned. */
    method Store(node: Node<KeyVal<K, V>>, ghost k: nat, val: V)
      requires list.Valid() && k < |list.nodes| && list.nodes[k] == node
      modifies node`elem
      ensures list.Valid() && list.nodes == old(list.nodes)
      ensures list.Contents() == old(list.Contents())[k := old(list.Contents())[k].(val := val)]
    {
      node.elem := node.elem.(val := val);
    }

    /** map[key] = val */
    method Put(key: K, val: V, default: V)
      requires Valid()
      modifies list, list.nodes
      ensures Valid() && Model() == old(Model())[key := val]
    {
      hide AsMap, DistinctKeys;
      var node, k := Place(key, default);
      ghost var s := list.Contents();
      AsMapUpdate(s, k, val);
      assert s[k].key == key;
      Store(node, k, val);
    }

    /** map[key] on the right-hand side inserts the key too. */
    method Get(key: K, default: V) returns (val: V)
      requires Valid()
      modifies list, list.nodes
      ensures Valid() && Model() == if key in old(Model()) then old(Model()) else old(Model())[key := default]
      ensures key in Model() && val == Model()[key]
    {
      var node, k := Place(key, default);
      AsMapHas(list.Contents());
      assert list.Contents()[k].key == key;
      val := node.elem.val;
    }
  }
}
