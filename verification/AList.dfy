/** The doubly linked list of alist.h, linked and unlinked in place, and the map of amap.h built on it. */
module AList {
  class Node<T> {
    var next: Node?<T>
    var prev: Node?<T>
    var elem: T

    constructor (elem: T)
      ensures next == null && prev == null && this.elem == elem
    {
      this.next, this.prev, this.elem := null, null, elem;
    }
  }

  /** One call that changes a list; RemoveAt removes the element an iterator advanced k times points to. */
  datatype Edit<T> = AppendOne(elem: T) | PrependOne(elem: T) | DropFirst | DropLast | RemoveAt(k: nat) | DropAll

  /** The same call on the sequence of elements. */
  function Edited<T>(s: seq<T>, e: Edit<T>): seq<T> {
    match e
    case AppendOne(x) => s + [x]
    case PrependOne(x) => [x] + s
    case DropFirst => if s == [] then [] else s[1..]
    case DropLast => if s == [] then [] else s[..|s| - 1]
    case RemoveAt(k) => if k < |s| then s[..k] + s[k + 1..] else s
    case DropAll => []
  }

  function EditedAll<T>(s: seq<T>, es: seq<Edit<T>>): seq<T> {
    if es == [] then s else Edited(EditedAll(s, es[..|es| - 1]), es[|es| - 1])
  }

  /** The sequence without its element k. */
  lemma LeftOut<T>(s: seq<T>, t: seq<T>, k: nat)
    requires k < |s| && t == s[..k] + s[k + 1..]
    ensures |t| == |s| - 1
    ensures forall i :: 0 <= i < k ==> t[i] == s[i]
    ensures forall i :: k <= i < |t| ==> t[i] == s[i + 1]
  {
  }

  class List<T> {
    var head: Node?<T>
    var tail: Node?<T>
    var size: nat
    ghost var nodes: seq<Node<T>>       // the nodes in list order

    ghost predicate Valid()
      reads this, nodes
    {
      && size == |nodes|
      && (forall i, j :: 0 <= i < j < |nodes| ==> nodes[i] != nodes[j])
      && head == (if nodes == [] then null else nodes[0])
      && tail == (if nodes == [] then null else nodes[|nodes| - 1])
      && (forall i {:trigger nodes[i].prev} ::
            0 <= i < |nodes| ==> nodes[i].prev == if i == 0 then null else nodes[i - 1])
      && (forall i {:trigger nodes[i].next} ::
            0 <= i < |nodes| ==> nodes[i].next == if i == |nodes| - 1 then null else nodes[i + 1])
    }

    ghost function Contents(): (s: seq<T>)
      reads this, nodes
      ensures |s| == |nodes|
    {
      seq(|nodes|, i requires 0 <= i < |nodes| reads this, nodes => nodes[i].elem)
    }

    constructor ()
      ensures Valid() && nodes == [] && Contents() == []
    {
      head, tail, size := null, null, 0;
      nodes := [];
    }

    /** Appends an element; the node that holds it is new. */
    method Append(elem: T) returns (nd: Node<T>)
      requires Valid()
      modifies this, nodes
      ensures Valid() && fresh(nd) && nodes == old(nodes) + [nd]
      ensures Contents() == old(Contents()) + [elem]
    {
      nd := new Node(elem);
      if tail != null {
        nd.next := tail.next;
        nd.prev := tail;
        tail.next := nd;
      } else {
        head := nd;
      }
      tail := nd;
      size := size + 1;
      nodes := nodes + [nd];
    }

    /** Prepends an element. */
    method Prepend(elem: T) returns (nd: Node<T>)
      requires Valid()
      modifies this, nodes
      ensures Valid() && fresh(nd) && nodes == [nd] + old(nodes)
      ensures Contents() == [elem] + old(Contents())
    {
      nd := new Node(elem);
      if head != null {
        nd.next := head;
        nd.prev := head.prev;
        head.prev := nd;
      } else {
        tail := nd;
      }
      head := nd;
      size := size + 1;
      nodes := [nd] + nodes;
    }

    /** Unlinks the node at index k and returns the one after it. */
    method Remove(node: Node<T>, ghost k: nat) returns (after: Node?<T>)
      requires Valid() && k < |nodes| && nodes[k] == node
      modifies this, nodes
      ensures Valid() && nodes == old(nodes)[..k] + old(nodes)[k + 1..]
      ensures Contents() == old(Contents())[..k] + old(Contents())[k + 1..]
      ensures after == if k < |nodes| then nodes[k] else null
    {
      hide Contents;
      ghost var was := nodes;
      if node == head {
        head := node.next;
      }
      if node == tail {
        tail := node.prev;
      }
      after := node.next;
      if node.prev != null {
        node.prev.next := node.next;
      }
      if node.next != null {
        node.next.prev := node.prev;
      }
      size := size - 1;
      nodes := nodes[..k] + nodes[k + 1..];
      LeftOut(was, nodes, k);
      SameElements(k);
    }

    /** Leaving out a node leaves out its element. */
    twostate lemma SameElements(k: nat)
      requires k < |old(nodes)| && nodes == old(nodes)[..k] + old(nodes)[k + 1..]
      requires forall n :: n in old(nodes) ==> n.elem == old(n.elem)
      ensures Contents() == old(Contents())[..k] + old(Contents())[k + 1..]
    {
      forall i | 0 <= i < |nodes|
        ensures nodes[i].elem == old(nodes)[if i < k then i else i + 1].elem
      {
      }
    }

    method RemoveFirst()
      requires Valid()
      modifies this, nodes
      ensures Valid() && Contents() == if old(Contents()) == [] then [] else old(Contents())[1..]
      ensures forall i :: 0 <= i < |nodes| ==> nodes[i] in old(nodes)
    {
      if size > 0 {
        var _ := Remove(head, 0);
      }
    }

    method RemoveLast()
      requires Valid()
      modifies this, nodes
      ensures Valid()
      ensures Contents() == if old(Contents()) == [] then [] else old(Contents())[..|old(Contents())| - 1]
      ensures forall i :: 0 <= i < |nodes| ==> nodes[i] in old(nodes)
    {
      if size > 0 {
        var _ := Remove(tail, size - 1);
      }
    }

    method Clear()
      requires Valid()
      modifies this, nodes
      ensures Valid() && nodes == [] && Contents() == []
    {
      while size > 0
        invariant Valid() && (forall i :: 0 <= i < |nodes| ==> nodes[i] in old(nodes))
        decreases size
      {
        var _ := Remove(head, 0);
      }
    }

    /** Advances an iterator k times from the beginning. */
    method Walk(k: nat) returns (node: Node?<T>)
      requires Valid()
      ensures node == if k < |nodes| then nodes[k] else null
    {
      node := head;
      var i := 0;
      while i < k && node != null
        invariant i <= k && i <= |nodes| && node == if i < |nodes| then nodes[i] else null
        decreases k - i
      {
        node := node.next;
        i := i + 1;
      }
    }

    method Apply(e: Edit<T>)
      requires Valid()
      modifies this, nodes
      ensures Valid() && Contents() == Edited(old(Contents()), e)
      ensures forall i :: 0 <= i < |nodes| ==> nodes[i] in old(nodes) || fresh(nodes[i])
    {
      hide Contents, Valid;
      match e {
        case AppendOne(x) => var _ := Append(x);
        case PrependOne(x) => var _ := Prepend(x);
        case DropFirst => RemoveFirst();
        case DropLast => RemoveLast();
        case RemoveAt(k) =>
          var node := Walk(k);
          if node != null {
            var _ := Remove(node, k);
          }
        case DropAll => Clear();
      }
    }

    /** Whatever is done to a list and in whatever order, it stays well linked and holds what the sequence would. */
    method ApplyAll(es: seq<Edit<T>>)
      requires Valid()
      modifies this, nodes
      ensures Valid() && Contents() == EditedAll(old(Contents()), es)
    {
      hide Edited, Contents;
      ghost var s := Contents();
      for k := 0 to |es|
        invariant Valid() && Contents() == EditedAll(s, es[..k])
        invariant forall i :: 0 <= i < |nodes| ==> nodes[i] in old(nodes) || fresh(nodes[i])
      {
        assert es[..k + 1][..k] == es[..k];
        Apply(es[k]);
      }
      assert es[..|es|] == es;
    }

    /** The first node whose element satisfies p, or null. */
    method Find(p: T -> bool) returns (node: Node?<T>, ghost k: nat)
      requires Valid()
      ensures k <= |nodes| && forall i :: 0 <= i < k ==> !p(Contents()[i])
      ensures if node == null then k == |nodes| else k < |nodes| && nodes[k] == node && p(node.elem)
      ensures node == null <==> forall i :: 0 <= i < |nodes| ==> !p(Contents()[i])
    {
      node, k := head, 0;
      while node != null && !p(node.elem)
        invariant k <= |nodes| && node == (if k < |nodes| then nodes[k] else null)
        invariant forall i :: 0 <= i < k ==> !p(Contents()[i])
        decreases |nodes| - k
      {
        node := node.next;
        k := k + 1;
      }
      assert node != null ==> p(Contents()[k]);
    }

    /** Appends the elements of another list, unless it is this one. */
    method AppendAll(rhs: List<T>)
      requires Valid() && rhs.Valid()
      requires rhs != this ==> forall i, j :: 0 <= i < |rhs.nodes| && 0 <= j < |nodes| ==> rhs.nodes[i] != nodes[j]
      modifies this, nodes
      ensures Valid() && Contents() == if rhs == this then old(Contents()) else old(Contents()) + old(rhs.Contents())
    {
      if rhs != this {
        var iter := rhs.head;
        ghost var k := 0;
        while iter != null
          invariant Valid() && rhs.Valid() && k <= |rhs.nodes|
          invariant rhs.nodes == old(rhs.nodes) && rhs.Contents() == old(rhs.Contents())
          invariant iter == (if k < |rhs.nodes| then rhs.nodes[k] else null)
          invariant forall i :: 0 <= i < |nodes| ==> nodes[i] in old(nodes) || fresh(nodes[i])
          invariant Contents() == old(Contents()) + rhs.Contents()[..k]
          decreases |rhs.nodes| - k
        {
          var _ := Append(iter.elem);
          iter := iter.next;
          k := k + 1;
        }
      }
    }
  }
}
