/** The generic queue of lib/queue.c. QState is its meaning, a sequence with a cursor; Queue is
    the linked list, every operation of which is proved to act on that meaning. */
module Queues {

  /** An address; NULL is 0. */
  type Ptr = nat
  const NULL: Ptr := 0
  type Item = p: Ptr | p != 0 witness 1
  const NOERROR := 0
  const ERROR := -1

  /** The first position of x, or the length when it is absent. */
  function IndexOf(s: seq<Ptr>, x: Ptr): (i: nat)
    ensures i <= |s| && (i < |s| ==> s[i] == x)
    ensures forall k :: 0 <= k < i ==> s[k] != x
    ensures i == |s| <==> x !in s
  {
    if |s| == 0 then 0
    else if s[0] == x then 0
    else
      var rest := IndexOf(s[1..], x);
      1 + rest
  }

  /** The sequence with position i taken out. */
  function Without<T>(s: seq<T>, i: nat): (r: seq<T>)
    requires i < |s|
    ensures |r| == |s| - 1 && forall k {:trigger r[k]} :: 0 <= k < |r| ==> r[k] == s[if k < i then k else k + 1]
  {
    seq(|s| - 1, k requires 0 <= k < |s| - 1 => s[if k < i then k else k + 1])
  }

  ghost predicate Distinct<T>(s: seq<T>) {
    forall i, j :: 0 <= i < j < |s| ==> s[i] != s[j]
  }

  lemma WithoutDistinct<T>(s: seq<T>, i: nat)
    requires i < |s| && Distinct(s)
    ensures Distinct(Without(s, i))
    ensures s[i] !in Without(s, i)
  {
  }

  /** A cursor equal to the length stands for a NULL iterator. */
  datatype QState = QState(items: seq<Ptr>, cursor: nat) {
    ghost predicate Valid() {
      cursor <= |items| && NULL !in items
    }

    /** An iterator past the end stays there when the queue grows, except when it was empty. */
    function Add(x: Ptr): QState {
      if x == NULL then this
      else QState(items + [x], if 0 < |items| == cursor then cursor + 1 else cursor)
    }

    function Del(x: Ptr): QState {
      var i := IndexOf(items, x);
      if i == |items| then this
      else QState(Without(items, i), if cursor > i then cursor - 1 else cursor)
    }

    function Head(): QState {
      QState(items, 0)
    }

    function Next(): QState {
      QState(items, if cursor < |items| then cursor + 1 else cursor)
    }

    function Item(): Ptr {
      if cursor < |items| then items[cursor] else NULL
    }
  }

  function EmptyQueue(): QState {
    QState([], 0)
  }

  /** The sequence without the first occurrence of x. */
  function Remove(s: seq<Ptr>, x: Ptr): seq<Ptr> {
    if x in s then Without(s, IndexOf(s, x)) else s
  }

  /** Without duplicates, removal takes away x and nothing else. */
  lemma RemoveMembers(s: seq<Ptr>, x: Ptr)
    requires Distinct(s)
    ensures Distinct(Remove(s, x))
    ensures forall y :: y in Remove(s, x) <==> y in s && y != x
  {
    if x in s {
      var i := IndexOf(s, x);
      WithoutDistinct(s, i);
      forall y | y in s && y != x
        ensures y in Without(s, i)
      {
        var j := IndexOf(s, y);
        assert Without(s, i)[if j < i then j else j - 1] == y;
      }
    }
  }

  lemma AppendMembers(s: seq<Ptr>, x: Ptr)
    requires Distinct(s) && x !in s
    ensures Distinct(s + [x]) && forall y :: y in s + [x] <==> y in s || y == x
  {
  }

  lemma WithoutBag(s: seq<Ptr>, i: nat)
    requires i < |s|
    ensures multiset(s) == multiset(Without(s, i)) + multiset{s[i]}
  {
    assert s == s[..i] + [s[i]] + s[i + 1..];
    assert Without(s, i) == s[..i] + s[i + 1..];
  }

  // ----- what the operations mean -----

  /** Deleting the head. */
  lemma DelHead(q: QState)
    requires q.items != [] && q.cursor == 0
    ensures q.Del(q.items[0]) == QState(q.items[1..], 0)
  {
    assert IndexOf(q.items, q.items[0]) == 0;
    assert Without(q.items, 0) == q.items[1..];
  }

  /** Deletion takes out the first occurrence and no other; the item under the cursor changes
      only when it is that occurrence, and then it is the one that followed. */
  lemma DelFirstOccurrence(q: QState, x: Ptr)
    requires q.Valid() && x in q.items
    ensures q.Del(x).Valid()
    ensures multiset(q.items) == multiset(q.Del(x).items) + multiset{x}
    ensures q.cursor != IndexOf(q.items, x) ==> q.Del(x).Item() == q.Item()
    ensures q.cursor == IndexOf(q.items, x) ==> q.Del(x).Item() == q.Next().Item()
    ensures forall k :: 0 <= k < IndexOf(q.items, x) ==> q.Del(x).items[k] == q.items[k] != x
    ensures forall k :: IndexOf(q.items, x) < k < |q.items| ==> q.Del(x).items[k - 1] == q.items[k]
  {
    WithoutBag(q.items, IndexOf(q.items, x));
    forall k | 0 <= k < |q.Del(x).items|
      ensures q.Del(x).items[k] != NULL
    {
      assert q.Del(x).items[k] in q.items;
    }
  }

  /** Adding keeps FIFO order and never moves the cursor off the item it stands on. */
  lemma AddAtEnd(q: QState, x: Ptr)
    requires q.Valid() && x != NULL
    ensures q.Add(x).Valid() && q.Add(x).items == q.items + [x]
    ensures q.items != [] ==> q.Add(x).Item() == q.Item()
    ensures q.items == [] ==> q.Add(x).Item() == x
  {
    forall k | 0 <= k < |q.Add(x).items|
      ensures q.Add(x).items[k] != NULL
    {
      assert k < |q.items| ==> q.items[k] in q.items;
    }
  }

  function Advance(q: QState, n: nat): QState {
    if n == 0 then q else Advance(q, n - 1).Next()
  }

  /** Head followed by repeated Next lists the queue in order and then answers NULL for ever. */
  lemma {:induction false} IterationListsQueue(q: QState, n: nat)
    requires q.Valid()
    ensures Advance(q.Head(), n).items == q.items
    ensures Advance(q.Head(), n).cursor == if n <= |q.items| then n else |q.items|
    ensures Advance(q.Head(), n).Item() == NULL <==> n >= |q.items|
    ensures n < |q.items| ==> Advance(q.Head(), n).Item() == q.items[n]
  {
    if n > 0 {
      IterationListsQueue(q, n - 1);
    }
    assert n < |q.items| ==> q.items[n] in q.items;
  }

  // ----- the linked list -----

  class Node {
    var next: Node?
    const content: Item

    constructor (content: Item)
      ensures next == null && this.content == content
    {
      this.next := null;
      this.content := content;
    }
  }

  /** A node's content never changes, so this does not depend on the heap. */
  ghost function Contents(nodes: seq<Node>): (s: seq<Ptr>)
    ensures |s| == |nodes| && forall i :: 0 <= i < |s| ==> s[i] == nodes[i].content
  {
    seq(|nodes|, i requires 0 <= i < |nodes| => nodes[i].content)
  }

  ghost function At(nodes: seq<Node>, i: nat): Node? {
    if i < |nodes| then nodes[i] else null
  }

  ghost predicate Chained(nodes: seq<Node>)
    reads nodes
  {
    forall i {:trigger nodes[i].next} :: 0 <= i < |nodes| ==> nodes[i].next == At(nodes, i + 1)
  }

  /** Where the two ends and a cursor are when the node at position j is gone. */
  lemma EndsWithout(nodes: seq<Node>, j: nat, c: nat)
    requires Distinct(nodes) && 0 < j < |nodes| && c <= |nodes|
    ensures var left, n := Without(nodes, j), |nodes|;
      && At(left, 0) == nodes[0]
      && left[n - 2] == (if nodes[j] == nodes[n - 1] then nodes[j - 1] else nodes[n - 1])
      && At(left, if c > j then c - 1 else c) == (if At(nodes, c) == nodes[j] then At(nodes, j + 1) else At(nodes, c))
  {
  }

  /** Linking node i past its successor chains the nodes without that successor. */
  lemma UnlinkedChain(nodes: seq<Node>, i: nat)
    requires i + 1 < |nodes|
    requires forall k {:trigger nodes[k].next} :: 0 <= k < |nodes| ==>
      nodes[k].next == At(nodes, if k == i then i + 2 else k + 1)
    ensures Chained(Without(nodes, i + 1))
  {
    var left := Without(nodes, i + 1);
    forall k | 0 <= k < |left|
      ensures left[k].next == At(left, k + 1)
    {
      var w := if k <= i then k else k + 1;
      assert left[k] == nodes[w];
      assert k + 1 < |left| ==> left[k + 1] == nodes[if k + 1 <= i then k + 1 else k + 2];
    }
  }

  class Queue {
    var first: Node?
    var last: Node?
    var iterator_: Node?
    var size: int
    ghost var nodes: seq<Node>
    ghost var cursor: nat

    ghost predicate Valid()
      reads this, nodes
    {
      && size == |nodes|
      && Distinct(nodes)
      && Chained(nodes)
      && first == At(nodes, 0)
      && last == (if |nodes| == 0 then null else nodes[|nodes| - 1])
      && cursor <= |nodes|
      && iterator_ == At(nodes, cursor)
    }

    ghost function Items(): (s: seq<Ptr>)
      reads this
    {
      Contents(nodes)
    }

    ghost function State(): QState
      reads this
    {
      QState(Items(), cursor)
    }

    constructor ()
      ensures Valid() && State() == EmptyQueue() && nodes == []
    {
      first, last, iterator_, size := null, null, null, 0;
      nodes, cursor := [], 0;
    }

    /** malloc may fail, which the caller sees as ERROR and an unchanged queue. */
    method Add(item: Ptr, memoryLeft: bool) returns (ret: int)
      requires Valid()
      modifies this, nodes
      ensures Valid() && forall n :: n in nodes && n !in old(nodes) ==> fresh(n)
      ensures ret == if item == NULL || !memoryLeft then ERROR else NOERROR
      ensures State() == if ret == ERROR then old(State()) else old(State()).Add(item)
    {
      if item == NULL || !memoryLeft {
        return ERROR;
      }
      var node := new Node(item);
      LinkLast(node);
      ret := NOERROR;
      assert Items() == old(Items()) + [item];
    }

    /** Puts a new node behind the last one. */
    method LinkLast(node: Node)
      requires Valid() && node !in nodes && node.next == null
      modifies this, nodes
      ensures Valid() && nodes == old(nodes) + [node]
      ensures cursor == if 0 < |old(nodes)| == old(cursor) then old(cursor) + 1 else old(cursor)
    {
      if size == 0 {
        first, last := node, node;
        iterator_ := node;
      } else {
        last.next := node;
        last := node;
        if cursor == |nodes| {
          cursor := cursor + 1;
        }
      }
      nodes := nodes + [node];
      size := size + 1;
    }

    method Del(item: Ptr) returns (ret: int)
      requires Valid()
      modifies this, nodes
      ensures Valid() && forall n :: n in nodes ==> n in old(nodes)
      ensures ret == if item != NULL && item in old(Items()) then NOERROR else ERROR
      ensures State() == if item == NULL then old(State()) else old(State()).Del(item)
    {
      if item == NULL {
        return ERROR;
      }
      ghost var was := Items();
      if size == 0 {
        return ERROR;
      }
      var aux := first;
      if size == 1 {
        if aux.content == item {
          first, last := null, null;
          size := 0;
          iterator_ := null;
          nodes, cursor := [], 0;
          return NOERROR;
        }
        return ERROR;
      }
      if aux.content == item {
        assert IndexOf(was, item) == 0;
        UnlinkFirst();
        assert Items() == Without(was, 0);
        return NOERROR;
      }
      ret := DelLater(item);
    }

    /** The search of queue_del, which starts after the first node. */
    method DelLater(item: Ptr) returns (ret: int)
      requires Valid() && |nodes| >= 2 && first.content != item
      modifies this, nodes
      ensures Valid() && forall n :: n in nodes ==> n in old(nodes)
      ensures ret == if item in old(Items()) then NOERROR else ERROR
      ensures State() == old(State()).Del(item)
    {
      var aux := first;
      ghost var i := 0;
      ghost var was := Items();
      while aux.next != null && aux.next.content != item
        invariant 0 <= i < |nodes| && aux == nodes[i]
        invariant forall k :: 0 <= k <= i ==> was[k] != item
        invariant Valid() && nodes == old(nodes) && State() == old(State())
        decreases |nodes| - i
      {
        aux := aux.next;
        i := i + 1;
      }
      if aux.next == null {
        return ERROR;
      }
      assert IndexOf(was, item) == i + 1;
      UnlinkAfter(aux, i);
      assert Items() == Without(was, i + 1);
      ret := NOERROR;
    }

    /** Takes out the first of at least two nodes. */
    method UnlinkFirst()
      requires Valid() && |nodes| >= 2
      modifies this
      ensures Valid() && nodes == Without(old(nodes), 0)
      ensures cursor == if old(cursor) > 0 then old(cursor) - 1 else 0
    {
      var aux := first;
      if iterator_ == aux {
        iterator_ := iterator_.next;
      } else {
        cursor := cursor - 1;
      }
      first := aux.next;
      size := size - 1;
      nodes := Without(nodes, 0);
    }

    /** Takes out the node that follows aux, the one at position i. */
    method UnlinkAfter(aux: Node, ghost i: nat)
      requires Valid() && i + 1 < |nodes| && aux == nodes[i]
      modifies this, aux
      ensures Valid() && nodes == Without(old(nodes), i + 1)
      ensures cursor == if old(cursor) > i + 1 then old(cursor) - 1 else old(cursor)
    {
      ghost var was := nodes;
      var deleted := aux.next;
      assert deleted == was[i + 1] && deleted.next == At(was, i + 2);
      WithoutDistinct(was, i + 1);
      EndsWithout(was, i + 1, cursor);
      iterator_ := if iterator_ == deleted then iterator_.next else iterator_;
      cursor := if cursor > i + 1 then cursor - 1 else cursor;
      Bypass(aux, i);
      last := if deleted == last then aux else last;
      size := size - 1;
      nodes := Without(was, i + 1);
    }

    /** Links aux past its successor. */
    method Bypass(aux: Node, ghost i: nat)
      requires Distinct(nodes) && Chained(nodes) && i + 1 < |nodes| && aux == nodes[i]
      modifies aux
      ensures Chained(Without(nodes, i + 1))
    {
      assert aux.next == nodes[i + 1] && nodes[i + 1].next == At(nodes, i + 2);
      aux.next := aux.next.next;
      UnlinkedChain(nodes, i);
    }

    method Has(item: Ptr) returns (found: bool)
      requires Valid()
      ensures found <==> item in Items()
    {
      assert NULL !in Items();
      if item == NULL {
        return false;
      }
      var aux := first;
      ghost var i := 0;
      while aux != null
        invariant 0 <= i <= |nodes| && aux == At(nodes, i)
        invariant forall k :: 0 <= k < i ==> Items()[k] != item
        decreases |nodes| - i
      {
        if aux.content == item {
          assert Items()[i] == item;
          return true;
        }
        aux := aux.next;
        i := i + 1;
      }
      found := false;
    }

    method Head() returns (item: Ptr)
      requires Valid()
      modifies this
      ensures Valid() && nodes == old(nodes)
      ensures State() == old(State()).Head() && item == State().Item()
    {
      iterator_ := first;
      cursor := 0;
      assert Items() == old(Items());
      item := if iterator_ != null then iterator_.content else NULL;
    }

    method Next() returns (item: Ptr)
      requires Valid()
      modifies this
      ensures Valid() && nodes == old(nodes)
      ensures State() == old(State()).Next() && item == State().Item()
    {
      assert old(Items()) == Items();
      if iterator_ != null {
        iterator_ := iterator_.next;
        cursor := cursor + 1;
        assert Items() == old(Items());
        if iterator_ != null {
          return iterator_.content;
        }
      }
      item := NULL;
    }

    method Item() returns (item: Ptr)
      requires Valid()
      ensures item == State().Item()
    {
      item := if iterator_ != null then iterator_.content else NULL;
    }

    method Size() returns (n: int)
      requires Valid()
      ensures n == |Items()|
    {
      n := size;
    }
  }
}
