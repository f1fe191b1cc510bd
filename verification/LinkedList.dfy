/**
 * The doubly linked list every table of the program is built on, with the
 * iterator that caches its neighbours and may remove the node it stands on.
 */
module LinkedLists {
  import opened Common

  class Node<T> {
    var next: Node?<T>
    var prev: Node?<T>
    const data: T

    constructor (data: T, prev: Node?<T>, next: Node?<T>)
      ensures this.data == data && this.prev == prev && this.next == next
    {
      this.data := data;
      this.prev := prev;
      this.next := next;
    }
  }

  /** The cursor of a traversal: three cached pointers. */
  class Iterator<T> {
    var next: Node?<T>
    var prev: Node?<T>
    var current: Node?<T>

    constructor ()
      ensures next == null && prev == null && current == null
    {
      next, prev, current := null, null, null;
    }
  }

  class LinkedList<T> {
    var count: int
    const cmp: Option<(T, T) -> int>
    var headerPtr: Node?<T>
    var footerPtr: Node?<T>
    /** The nodes from header to footer. */
    ghost var nodes: seq<Node<T>>
    /** Every node that was ever linked in. */
    ghost var repr: set<Node<T>>

    ghost predicate Valid()
      reads this, repr
    {
      && count == |nodes|
      && (forall i :: 0 <= i < |nodes| ==> nodes[i] in repr)
      && headerPtr == At(nodes, 0)
      && footerPtr == At(nodes, |nodes| - 1)
      && Chain(nodes)
    }

    /** The node at position `i`, null outside the list. */
    static ghost function At(ns: seq<Node<T>>, i: int): Node?<T> {
      if 0 <= i < |ns| then ns[i] else null
    }

    /** `next` and `prev` are mutually inverse along distinct nodes. */
    static ghost predicate Chain(ns: seq<Node<T>>)
      reads ns
    {
      && Distinct(ns)
      && (forall i {:trigger ns[i].prev} :: 0 <= i < |ns| ==> ns[i].prev == At(ns, i - 1))
      && (forall i {:trigger ns[i].next} :: 0 <= i < |ns| ==> ns[i].next == At(ns, i + 1))
    }

    static ghost predicate Distinct(ns: seq<Node<T>>) {
      forall n {:trigger multiset(ns)[n]} :: n in ns ==> multiset(ns)[n] == 1
    }

    static lemma DistinctPositions(ns: seq<Node<T>>)
      requires Distinct(ns)
      ensures forall i, j :: 0 <= i < j < |ns| ==> ns[i] != ns[j]
    {
      forall i, j | 0 <= i < j < |ns|
        ensures ns[i] != ns[j]
      {
        assert ns == ns[..j] + [ns[j]] + ns[j + 1..];
        assert ns[i] in ns[..j];
        assert multiset(ns)[ns[j]] == 1;
      }
    }

    static lemma DistinctWithout(ns: seq<Node<T>>, k: int)
      requires Distinct(ns) && 0 <= k < |ns|
      ensures Distinct(Without(ns, k))
    {
      assert ns == ns[..k] + [ns[k]] + ns[k + 1..];
      forall n | n in Without(ns, k)
        ensures multiset(Without(ns, k))[n] == 1
      {
        assert multiset(ns)[n] == 1;
      }
    }

    static ghost function Without<U>(s: seq<U>, k: int): (r: seq<U>)
      requires 0 <= k < |s|
      ensures |r| == |s| - 1
      ensures forall i {:trigger r[i]} :: 0 <= i < |r| ==> r[i] == if i < k then s[i] else s[i + 1]
    {
      s[..k] + s[k + 1..]
    }

    static ghost function Data(ns: seq<Node<T>>): (r: seq<T>)
      ensures |r| == |ns|
      ensures forall i :: 0 <= i < |r| ==> r[i] == ns[i].data
    {
      if ns == [] then [] else Data(ns[..|ns| - 1]) + [ns[|ns| - 1].data]
    }

    /** The abstract value of the list. */
    ghost function Items(): (r: seq<T>)
      reads this
    {
      Data(nodes)
    }

    /** `itr` stands on node `k`, and its cached neighbours are the real ones;
        past the end all three pointers are null. */
    ghost predicate StandsAt(itr: Iterator<T>, k: int)
      reads this, itr
    {
      && 0 <= k <= |nodes|
      && if k == |nodes| then
           itr.current == null && itr.next == null && itr.prev == null
         else
           itr.current == nodes[k] && itr.next == At(nodes, k + 1) && itr.prev == At(nodes, k - 1)
    }

    constructor (cmp: Option<(T, T) -> int>)
      ensures Valid() && nodes == [] && Items() == [] && this.cmp == cmp
    {
      this.cmp := cmp;
      headerPtr, footerPtr, count := null, null, 0;
      nodes, repr := [], {};
    }

    method CreateIterator(itr: Iterator<T>) returns (r: Option<T>)
      requires Valid()
      modifies itr
      ensures Valid() && StandsAt(itr, 0)
      ensures r == if Items() == [] then None else Some(Items()[0])
    {
      var item := headerPtr;
      if item != null {
        itr.next := item.next;
      } else {
        itr.next := null;
      }
      itr.prev := null;
      itr.current := headerPtr;
      if item != null {
        return Some(item.data);
      }
      return None;
    }

    /** Advances; at the end the iterator stays on the last node. */
    method Iterate(itr: Iterator<T>, ghost k: int) returns (r: Option<T>)
      requires Valid() && StandsAt(itr, k)
      modifies itr
      ensures Valid()
      ensures if k + 1 < |nodes|
              then StandsAt(itr, k + 1) && r == Some(Items()[k + 1])
              else StandsAt(itr, k) && r == None
    {
      if itr.next == null {
        return None;
      }
      var next := itr.next;
      itr.current := next;
      itr.prev := next.prev;
      itr.next := next.next;
      return Some(next.data);
    }

    /** Links that bypass node `k` form the chain without it. */
    static lemma ChainWithout(ns: seq<Node<T>>, k: int)
      requires 0 <= k < |ns|
      requires Distinct(ns)
      requires forall i {:trigger ns[i].prev} :: 0 <= i < |ns| && i != k ==>
                 ns[i].prev == At(ns, if i == k + 1 then k - 1 else i - 1)
      requires forall i {:trigger ns[i].next} :: 0 <= i < |ns| && i != k ==>
                 ns[i].next == At(ns, if i == k - 1 then k + 1 else i + 1)
      ensures Chain(Without(ns, k))
    {
      DistinctWithout(ns, k);
      var w := Without(ns, k);
      forall i | 0 <= i < |w|
        ensures w[i].prev == At(w, i - 1) && w[i].next == At(w, i + 1)
      {
        var j := if i < k then i else i + 1;
        assert w[i] == ns[j];
      }
    }

    static lemma DataWithout(ns: seq<Node<T>>, k: int)
      requires 0 <= k < |ns|
      ensures Data(Without(ns, k)) == Without(Data(ns), k)
    {
    }

    /** The list half of a removal: bypasses `current`, which is node `k`. */
    method Unlink(current: Node<T>, prev: Node?<T>, next: Node?<T>, ghost k: int)
      requires Valid() && 0 <= k < |nodes|
      requires current == nodes[k] && prev == At(nodes, k - 1) && next == At(nodes, k + 1)
      modifies this, repr
      ensures Valid() && repr == old(repr) && nodes == Without(old(nodes), k)
    {
      ghost var ns := nodes;
      DistinctPositions(ns);
      if current == headerPtr {
        headerPtr := current.next;
        if current.next != null {
          next.prev := null;
        }
      }
      assert k > 0 ==> prev != null && current != headerPtr;
      if current == footerPtr {
        footerPtr := current.prev;
        if current.prev != null {
          prev.next := null;
        }
      }
      count := count - 1;
      if next != null && prev != null {
        next.prev := prev;
        prev.next := next;
      }
      assert next != null ==> next.prev == prev;
      assert prev != null ==> prev.next == next;
      assert forall i {:trigger ns[i].prev} :: 0 <= i < |ns| && i != k && i != k + 1 ==>
          ns[i].prev == old(ns[i].prev);
      assert forall i {:trigger ns[i].next} :: 0 <= i < |ns| && i != k && i != k - 1 ==>
          ns[i].next == old(ns[i].next);
      ChainWithout(ns, k);
      nodes := Without(ns, k);
    }

    /** The iterator half of a removal: step over node `k` before it goes. */
    method StepOver(itr: Iterator<T>, ghost k: int)
      requires Valid() && StandsAt(itr, k) && k < |nodes|
      modifies itr
      ensures Valid()
      ensures itr.current == At(nodes, k + 1) && itr.next == At(nodes, k + 2) && itr.prev == At(nodes, k - 1)
    {
      var current, next := itr.current, itr.next;
      assert current.prev == itr.prev && nodes[0].prev == null;
      assert current.next == itr.next && nodes[|nodes| - 1].next == null;
      itr.next := if next != null then next.next else null;
      itr.current := current.next;
      if current == headerPtr {
        itr.prev := null;
      }
      if current == footerPtr {
        itr.next := null;
      }
    }

    /** Unlinks the node under the iterator, which ends up on its successor. */
    method IteratorRemove(itr: Iterator<T>, ghost k: int) returns (r: Option<T>)
      requires Valid() && StandsAt(itr, k)
      modifies this, repr, itr
      ensures Valid() && StandsAt(itr, k) && repr == old(repr)
      ensures k == |old(nodes)| ==> nodes == old(nodes)
      ensures k < |old(nodes)| ==>
                nodes == Without(old(nodes), k) && Items() == Without(old(Items()), k)
      ensures r == if k < |Items()| then Some(Items()[k]) else None
    {
      if itr.current == null {
        return None;
      }
      var current, prev, next := itr.current, itr.prev, itr.next;
      StepOver(itr, k);
      DataWithout(nodes, k);
      Unlink(current, prev, next, k);
      assert next == At(nodes, k);
      if headerPtr == null && footerPtr == null {
        return None;
      }
      if itr.current == null {
        itr.prev := null;
      }
      if next != null {
        return Some(next.data);
      }
      return None;
    }

    /** Position of the first item the comparison function equates with `x`. */
    static ghost function FirstMatch(s: seq<T>, cmp: (T, T) -> int, x: T): (i: nat)
      ensures i <= |s| && (i < |s| ==> cmp(s[i], x) == 0)
      ensures forall j :: 0 <= j < i ==> cmp(s[j], x) != 0
    {
      if s == [] || cmp(s[0], x) == 0 then 0 else 1 + FirstMatch(s[1..], cmp, x)
    }

    /** 0 exactly when some item compares equal; no comparison function never does. */
    method ScanInternal(inData: T) returns (cmpRet: int)
      requires Valid()
      ensures cmpRet == 0 <==> cmp.Some? && FirstMatch(Items(), cmp.value, inData) < |Items()|
    {
      hide Chain, Data;
      cmpRet := -1;
      if cmp == None {
        return -1;
      }
      var itr := new Iterator<T>();
      var ret := CreateIterator(itr);
      ghost var k := 0;
      while ret.Some?
        invariant Valid() && fresh(itr) && 0 <= k <= |nodes| && cmp.Some?
        invariant forall j :: 0 <= j < k ==> cmp.value(Items()[j], inData) != 0
        invariant if ret.None? then k == |nodes| && cmpRet != 0
                  else k < |nodes| && StandsAt(itr, k) && ret.value == Items()[k]
        decreases |nodes| - k, ret.Some?
      {
        cmpRet := cmp.value(ret.value, inData);
        if cmpRet == 0 {
          return;
        }
        ret := Iterate(itr, k);
        k := k + 1;
      }
    }

    /** The first item that compares equal, if there is one. */
    method FindInternal(inData: T) returns (r: Option<T>)
      requires Valid()
      ensures cmp.None? ==> r == None
      ensures cmp.Some? ==>
                var i := FirstMatch(Items(), cmp.value, inData);
                r == if i < |Items()| then Some(Items()[i]) else None
    {
      hide Chain, Data;
      if cmp == None {
        return None;
      }
      var itr := new Iterator<T>();
      r := CreateIterator(itr);
      ghost var k := 0;
      while r.Some?
        invariant Valid() && fresh(itr) && 0 <= k <= |nodes| && cmp.Some?
        invariant forall j :: 0 <= j < k ==> cmp.value(Items()[j], inData) != 0
        invariant if r.None? then k == |nodes|
                  else k < |nodes| && StandsAt(itr, k) && r.value == Items()[k]
        decreases |nodes| - k, r.Some?
      {
        if cmp.value(r.value, inData) == 0 {
          return;
        }
        r := Iterate(itr, k);
        k := k + 1;
      }
    }

    /** Whether `x` would be refused as a duplicate. */
    ghost predicate IsDuplicate(x: T)
      reads this
    {
      cmp.Some? && FirstMatch(Items(), cmp.value, x) < |Items()|
    }

    static lemma DistinctExtended(ns: seq<Node<T>>, n: Node<T>)
      requires Distinct(ns) && n !in ns
      ensures Distinct(ns + [n]) && Distinct([n] + ns)
    {
      forall m | m == n || m in ns
        ensures multiset(ns)[m] + (if m == n then 1 else 0) == 1
      {
        assert m in ns ==> multiset(ns)[m] == 1;
      }
    }

    static lemma ChainAppended(ns: seq<Node<T>>, n: Node<T>)
      requires Distinct(ns) && n !in ns && n.prev == At(ns, |ns| - 1) && n.next == null
      requires forall i {:trigger ns[i].prev} :: 0 <= i < |ns| ==> ns[i].prev == At(ns, i - 1)
      requires forall i {:trigger ns[i].next} :: 0 <= i < |ns| ==>
                 ns[i].next == if i == |ns| - 1 then n else At(ns, i + 1)
      ensures Chain(ns + [n])
    {
      DistinctExtended(ns, n);
      assert forall i :: 0 <= i < |ns| ==> (ns + [n])[i] == ns[i];
    }

    static lemma ChainPrepended(ns: seq<Node<T>>, n: Node<T>)
      requires Distinct(ns) && n !in ns && n.prev == null && n.next == At(ns, 0)
      requires forall i {:trigger ns[i].prev} :: 0 <= i < |ns| ==>
                 ns[i].prev == if i == 0 then n else At(ns, i - 1)
      requires forall i {:trigger ns[i].next} :: 0 <= i < |ns| ==> ns[i].next == At(ns, i + 1)
      ensures Chain([n] + ns)
    {
      DistinctExtended(ns, n);
      var w := [n] + ns;
      forall i | 0 <= i < |w|
        ensures w[i].prev == At(w, i - 1) && w[i].next == At(w, i + 1)
      {
        if i > 0 {
          assert w[i] == ns[i - 1];
        }
      }
    }

    static lemma DataExtended(ns: seq<Node<T>>, n: Node<T>)
      ensures Data(ns + [n]) == Data(ns) + [n.data]
      ensures Data([n] + ns) == [n.data] + Data(ns)
    {
    }

    method AppendInternal(item: T) returns (rc: int)
      requires Valid()
      modifies this, repr
      ensures Valid() && fresh(repr - old(repr))
      ensures old(IsDuplicate(item)) ==> rc == -1 && nodes == old(nodes)
      ensures !old(IsDuplicate(item)) ==> rc == 1 && Items() == old(Items()) + [item]
    {
      hide FirstMatch, Data, Distinct;
      if headerPtr != null && footerPtr != null {
        var scan := ScanInternal(item);
        if scan == 0 {
          return -1;
        }
      }
      var newItem := new Node(item, footerPtr, null);
      ghost var ns := nodes;
      DistinctPositions(ns);
      if headerPtr == null {
        headerPtr := newItem;
        footerPtr := newItem;
      } else {
        var endItem := footerPtr;
        endItem.next := newItem;
        footerPtr := newItem;
      }
      count := count + 1;
      ChainAppended(ns, newItem);
      DataExtended(ns, newItem);
      nodes, repr := ns + [newItem], repr + {newItem};
      return 1;
    }

    method InsertInternal(item: T) returns (rc: int)
      requires Valid()
      modifies this, repr
      ensures Valid() && fresh(repr - old(repr))
      ensures old(IsDuplicate(item)) ==> rc == -1 && nodes == old(nodes)
      ensures !old(IsDuplicate(item)) ==> rc == 1 && Items() == [item] + old(Items())
    {
      hide FirstMatch, Data, Distinct;
      if headerPtr != null && footerPtr != null {
        var scan := ScanInternal(item);
        if scan == 0 {
          return -1;
        }
      }
      var newItem := new Node(item, null, headerPtr);
      ghost var ns := nodes;
      DistinctPositions(ns);
      if headerPtr == null {
        headerPtr := newItem;
        footerPtr := newItem;
      } else {
        var firstItem := headerPtr;
        firstItem.prev := newItem;
        headerPtr := newItem;
      }
      count := count + 1;
      ChainPrepended(ns, newItem);
      DataExtended(ns, newItem);
      nodes, repr := [newItem] + ns, repr + {newItem};
      return 1;
    }

    /** Part way through a removing pass: `visited` has been looked at, its
        survivors are the first `k` items, and the rest is still to come. */
    static ghost predicate Progress(was: seq<T>, visited: seq<T>, items: seq<T>, k: int, keep: T -> bool) {
      && |visited| <= |was| && visited == was[..|visited|]
      && k == |Filter(visited, keep)|
      && items == Filter(visited, keep) + was[|visited|..]
    }

    static lemma ProgressStart(was: seq<T>, keep: T -> bool)
      ensures Progress(was, [], was, 0, keep)
    {
    }

    static lemma ProgressMore(was: seq<T>, visited: seq<T>, items: seq<T>, k: int, keep: T -> bool)
      requires Progress(was, visited, items, k, keep) && k < |items|
      ensures 0 <= k && |visited| < |was|
      ensures if keep(items[k]) then Progress(was, visited + [items[k]], items, k + 1, keep)
              else Progress(was, visited + [items[k]], Without(items, k), k, keep)
    {
      var x, m := items[k], |visited|;
      assert (visited + [x])[..m] == visited;
      assert was[m..] == [was[m]] + was[m + 1..];
      if !keep(x) {
        assert Without(items, k) == Filter(visited, keep) + was[m + 1..];
      } else {
        assert items == (Filter(visited, keep) + [x]) + was[m + 1..];
      }
    }

    static lemma ProgressEnd(was: seq<T>, visited: seq<T>, items: seq<T>, k: int, keep: T -> bool)
      requires Progress(was, visited, items, k, keep) && k == |items|
      ensures visited == was && items == Filter(was, keep)
    {
    }

    /** Removes every item the comparison function equates with `inData`, in one
        pass that looks at each node exactly once. */
    method RemoveInternal(inData: T) returns (ghost visited: seq<T>)
      requires Valid()
      modifies this, repr
      ensures Valid() && repr == old(repr)
      ensures cmp.None? ==> nodes == old(nodes)
      ensures cmp.Some? ==> visited == old(Items())
      ensures cmp.Some? ==> Items() == Filter(old(Items()), x => cmp.value(x, inData) != 0)
    {
      hide Chain, Data, Progress, Filter;
      visited := [];
      if cmp == None {
        return;
      }
      ghost var was, items, k := Items(), Items(), 0;
      ghost var keep := (x: T) => cmp.value(x, inData) != 0;
      var itr := new Iterator<T>();
      var ret := CreateIterator(itr);
      ProgressStart(was, keep);
      while ret.Some?
        invariant Valid() && fresh(itr) && repr == old(repr) && Items() == items
        invariant Progress(was, visited, items, k, keep)
        invariant if ret.None? then k == |items| else StandsAt(itr, k) && k < |items| && ret.value == items[k]
        decreases |was| - |visited|
      {
        ProgressMore(was, visited, items, k, keep);
        visited := visited + [items[k]];
        var cmpRet := cmp.value(ret.value, inData);
        if cmpRet == 0 {
          items := Without(items, k);
          ret := IteratorRemove(itr, k);
        } else {
          ret := Iterate(itr, k);
          k := k + 1;
        }
      }
      ProgressEnd(was, visited, items, k, keep);
    }
  }
}
