/**
  Model of list.h: a singly-linked list of copied elements, each carrying its
  data and its byte size, with an element counter kept beside the chain.

  The chain is made of real `Node` objects linked through `next`.  The ghost
  sequence `Nodes` names the chain in order and `Contents` is its abstract
  value; `Valid()` ties `head`, every `next` link, the payloads and `count`
  to these two sequences, so that `count` is the length of the chain.
*/
module CupList {
  import opened Wrappers

  /** The payload of one node: a copy of the caller's data and its `data_size`. */
  datatype Blob<T> = Blob(data: T, size: nat)

  /** One `list_node_t`. */
  class Node<T> {
    var next: Node?<T>
    var data: T
    var dataSize: nat

    constructor (data: T, dataSize: nat)
      ensures this.data == data && this.dataSize == dataSize && next == null
    {
      this.data := data;
      this.dataSize := dataSize;
      next := null;
    }
  }

  /** One `list_t`: the head of the chain and the element count. */
  class List<T> {
    var head: Node?<T>
    var count: nat

    ghost var Contents: seq<Blob<T>>
    ghost var Nodes: seq<Node<T>>
    ghost var Repr: set<object>

    /** `head` and the `next` links spell out `Nodes`, whose payloads are `Contents`. */
    ghost predicate Linked()
      reads this, Repr
    {
      && this in Repr
      && |Nodes| == |Contents|
      && (forall i :: 0 <= i < |Nodes| ==> Nodes[i] in Repr)
      && (if Nodes == [] then head == null else head == Nodes[0])
      && (forall i :: 0 <= i < |Nodes| - 1 ==> Nodes[i].next == Nodes[i + 1])
      && (Nodes != [] ==> Nodes[|Nodes| - 1].next == null)
      && (forall i :: 0 <= i < |Nodes| ==>
            Nodes[i].data == Contents[i].data && Nodes[i].dataSize == Contents[i].size)
      && (forall i, j :: 0 <= i < j < |Nodes| ==> Nodes[i] != Nodes[j])
    }

    /** The object invariant: a well-linked chain whose length is `count`. */
    ghost predicate Valid()
      reads this, Repr
    {
      Linked() && count == |Nodes|
    }

    /** `list_alloc`: an empty list, `head` NULL and `count` zero. */
    constructor ()
      ensures Valid() && fresh(Repr)
      ensures Contents == [] && head == null && count == 0
    {
      head := null;
      count := 0;
      Contents := [];
      Nodes := [];
      Repr := {this};
    }

    /** `list_get`: the element at `index` and its size, or NULL and size 0 past the end. */
    method Get(index: nat) returns (data: Option<T>, dataSize: nat)
      requires Valid()
      ensures index >= |Contents| ==> data == None && dataSize == 0
      ensures index < |Contents| ==>
        data == Some(Contents[index].data) && dataSize == Contents[index].size
    {
      dataSize := 0;
      if index >= count {
        return None, 0;
      }
      var node := head;
      var it := 0;
      while it < index
        invariant Linked()
        invariant 0 <= it <= index < |Nodes|
        invariant node == Nodes[it]
      {
        node := node.next;
        it := it + 1;
      }
      dataSize := node.dataSize;
      data := Some(node.data);
    }

    /** `list_set`: replaces the payload of the element at `index`; out of range, nothing changes. */
    method Set(index: nat, data: T, dataSize: nat)
      requires Valid()
      modifies Repr
      ensures Valid() && Repr == old(Repr) && Nodes == old(Nodes)
      ensures head == old(head) && count == old(count)
      ensures Contents ==
        if index < |old(Contents)| then old(Contents)[index := Blob(data, dataSize)]
        else old(Contents)
    {
      if index >= count {
        return;
      }
      var node := head;
      var it := 0;
      while it < index
        invariant Linked()
        invariant 0 <= it <= index < |Nodes|
        invariant node == Nodes[it]
        modifies {}
      {
        node := node.next;
        it := it + 1;
      }
      node.dataSize := dataSize;
      node.data := data;
      Contents := Contents[index := Blob(data, dataSize)];
    }

    /** `list_add`: walks to the last node and links a new node holding a copy of the data after it. */
    method Add(data: T, dataSize: nat)
      requires Valid()
      modifies Repr
      ensures Valid() && fresh(Repr - old(Repr))
      ensures Contents == old(Contents) + [Blob(data, dataSize)]
      ensures count == old(count) + 1
    {
      var node := head;
      ghost var i := 0;
      assert Nodes != [] && i < |Nodes| - 1 ==> node.next == Nodes[i + 1];
      while node != null && node.next != null
        invariant Linked()
        invariant Nodes == [] ==> node == null
        invariant Nodes != [] ==> i < |Nodes| && node == Nodes[i]
        invariant Nodes != [] ==> (node.next == null <==> i == |Nodes| - 1)
        decreases |Nodes| - i
        modifies {}
      {
        node := node.next;
        i := i + 1;
        assert i < |Nodes| - 1 ==> Nodes[i].next == Nodes[i + 1];
      }
      count := count + 1;
      var newNode := new Node(data, dataSize);
      if node != null {
        node.next := newNode;
      } else {
        head := newNode;
      }
      Nodes := Nodes + [newNode];
      Contents := Contents + [Blob(data, dataSize)];
      Repr := Repr + {newNode};
    }

    /** `list_pop`: unlinks the last node and returns a copy of its payload; on an empty list, NULL and size 0. */
    method Pop() returns (data: Option<T>, dataSize: nat)
      requires Valid()
      modifies Repr
      ensures Valid() && Repr == old(Repr)
      ensures old(Contents) == [] ==> data == None && dataSize == 0 && Contents == []
      ensures old(Contents) != [] ==>
        && data == Some(old(Contents)[|old(Contents)| - 1].data)
        && dataSize == old(Contents)[|old(Contents)| - 1].size
        && Contents == old(Contents)[..|old(Contents)| - 1]
      ensures count == |Contents|
    {
      dataSize := 0;
      if count == 0 {
        return None, 0;
      }
      count := count - 1;
      var newEnd: Node?<T> := null;
      var node := head;
      ghost var i := 0;
      assert i < |Nodes| - 1 ==> node.next == Nodes[i + 1];
      while node.next != null
        invariant Linked()
        invariant 0 <= i < |Nodes| && node == Nodes[i]
        invariant node.next == null <==> i == |Nodes| - 1
        invariant newEnd == if i == 0 then null else Nodes[i - 1]
        decreases |Nodes| - i
        modifies {}
      {
        newEnd := node;
        node := node.next;
        i := i + 1;
        assert i < |Nodes| - 1 ==> Nodes[i].next == Nodes[i + 1];
      }
      data := Some(node.data);
      dataSize := node.dataSize;
      if newEnd != null {
        newEnd.next := null;
      } else {
        head := null;
      }
      Nodes := Nodes[..|Nodes| - 1];
      Contents := Contents[..|Contents| - 1];
    }

    /**
      Reads the whole chain in order, as a client does by calling `list_get`
      for every index below `count`.
    */
    method Elements() returns (items: seq<Blob<T>>)
      requires Valid()
      ensures items == Contents
    {
      items := [];
      var node := head;
      ghost var i := 0;
      while node != null
        invariant Linked()
        invariant 0 <= i <= |Nodes|
        invariant items == Contents[..i]
        invariant i < |Nodes| ==> node == Nodes[i]
        invariant i == |Nodes| ==> node == null
        decreases |Nodes| - i
      {
        items := items + [Blob(node.data, node.dataSize)];
        node := node.next;
        i := i + 1;
      }
    }
  }

  /** `list_add` followed by `list_pop` hands back the added payload and restores the contents. */
  method AddThenPop<T>(l: List<T>, data: T, dataSize: nat) returns (got: Option<T>, gotSize: nat)
    requires l.Valid()
    modifies l.Repr
    ensures l.Valid() && l.Contents == old(l.Contents) && l.count == old(l.count)
    ensures got == Some(data) && gotSize == dataSize
  {
    l.Add(data, dataSize);
    got, gotSize := l.Pop();
  }
}
