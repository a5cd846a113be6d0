/**
 The cache as written: a doubly linked list of heap nodes, relinked in place.  Every operation is
 proved to do to the nodes what `LruSpec` does to the recency list.
 */
module LruCache {
  import opened LruSpec

  class Item {
    const key: string
    var data: Pointer
    var size: nat
    var prev: Item?
    var next: Item?

    constructor (key: string, data: Pointer, size: nat)
      ensures this.key == key && this.data == data && this.size == size
    {
      this.key := key;
      this.data, this.size := data, size;
      prev, next := null, null;
    }

    function Value(): Entry
      reads this
    {
      Entry(key, data, size)
    }
  }

  class Cache {
    var head: Item?
    var tail: Item?
    const capacity: nat
    var size: nat
    var totalSize: nat
    // The nodes in list order.
    ghost var spine: seq<Item>

    ghost predicate Linked()
      reads this`head, this`tail, this`spine, spine
    {
      && (forall i, j :: 0 <= i < j < |spine| ==> spine[i] != spine[j])
      && (spine == [] ==> head == null && tail == null)
      && (spine != [] ==> head == spine[0] && head.prev == null && tail == spine[|spine| - 1] && tail.next == null)
      && (forall i, j :: 0 <= i < j < |spine| && j == i + 1 ==> spine[i].next == spine[j] && spine[j].prev == spine[i])
    }

    ghost function Contents(): (r: seq<Entry>)
      reads this`spine, spine
      ensures |r| == |spine|
    {
      Values(spine)
    }

    ghost predicate Valid()
      reads this, spine
    {
      && Linked() && DistinctKeys(Contents())
      && size == |spine| && totalSize == Total(Contents())
    }

    // `cache_init`
    constructor (capacity: nat)
      ensures Valid() && Contents() == [] && spine == [] && this.capacity == capacity
    {
      this.capacity := capacity;
      head, tail, size, totalSize := null, null, 0, 0;
      spine := [];
    }

    // Takes the node at position `i` out of the chain: the first half of `move_to_head`, and the
    // body of `cache_delete`.
    method Unlink(item: Item, ghost i: nat)
      requires Linked() && i < |spine| && spine[i] == item
      modifies this`head, this`tail, this`spine, spine
      ensures Linked() && spine == Without(old(spine), i)
      ensures DataKept(old(spine)) && Contents() == Without(old(Contents()), i)
      ensures item !in spine && forall k :: 0 <= k < |spine| ==> spine[k] in old(spine)
    {
      assert if i == 0 then item.prev == null else item.prev == spine[i - 1];
      assert if i + 1 == |spine| then item.next == null else item.next == spine[i + 1];
      if item.prev != null {
        item.prev.next := item.next;
      }
      if item.next != null {
        item.next.prev := item.prev;
      }
      if item == head {
        head := item.next;
      }
      if item == tail {
        tail := item.prev;
      }
      spine := Without(spine, i);
      StillLinked(i);
      ContentsWithout(i);
    }

    // The chain is intact once the neighbours of the node at `i` point to each other.
    twostate lemma StillLinked(i: nat)
      requires old(Linked()) && i < old(|spine|) && spine == Without(old(spine), i)
      requires var was := old(spine);
        && (forall k :: 0 <= k < |was| && k != i - 1 ==> was[k].next == old(was[k].next))
        && (forall k :: 0 <= k < |was| && k != i + 1 ==> was[k].prev == old(was[k].prev))
        && (i > 0 ==> was[i - 1].next == old(was[i].next))
        && (i + 1 < |was| ==> was[i + 1].prev == old(was[i].prev))
        && head == (if i == 0 then old(was[i].next) else old(head))
        && tail == (if i + 1 == |was| then old(was[i].prev) else old(tail))
      ensures Linked()
    {
      var was := old(spine);
      assert i > 0 ==> old(was[i].prev) == was[i - 1];
      assert i + 1 < |was| ==> old(was[i].next) == was[i + 1];
      forall a, b | 0 <= a < b < |spine| && b == a + 1
        ensures spine[a].next == spine[b] && spine[b].prev == spine[a]
      {
        var a', b' := if a < i then a else a + 1, if b < i then b else b + 1;
        assert spine[a] == was[a'] && spine[b] == was[b'];
        if b' == a' + 1 { assert old(was[a'].next == was[b'] && was[b'].prev == was[a']); }
      }
    }

    twostate lemma ContentsWithout(i: nat)
      requires i < old(|spine|) && spine == Without(old(spine), i) && DataKept(old(spine))
      ensures Contents() == Without(old(Contents()), i)
    {
      var values := old(Contents());
      forall k | 0 <= k < |spine| ensures spine[k].Value() == Without(values, i)[k] {
        var was := if k < i then k else k + 1;
        assert spine[k] == old(spine)[was] && old(spine)[was] in old(spine);
      }
    }

    // Puts a node that is not in the chain in front of it: the second half of `move_to_head`, and
    // the insertion of `cache_set`.
    method LinkFront(item: Item)
      requires Linked() && item !in spine
      modifies this`head, this`tail, this`spine, spine, item
      ensures Linked() && spine == [item] + old(spine)
      ensures DataKept(old([item] + spine)) && Contents() == [item.Value()] + old(Contents())
    {
      ghost var values := Contents();
      item.next := head;
      item.prev := null;
      if head != null {
        head.prev := item;
      }
      head := item;
      if tail == null {
        tail := item;
      }
      spine := [item] + spine;
      FrontLinked(item);
      FrontContents(item);
    }

    twostate lemma FrontLinked(item: Item)
      requires old(Linked()) && item !in old(spine) && spine == [item] + old(spine)
      requires head == item && item.prev == null && item.next == old(head)
      requires tail == if old(spine) == [] then item else old(tail)
      requires var was := old(spine);
        && (forall k :: 0 <= k < |was| ==> was[k].next == old(was[k].next))
        && (forall k :: 0 < k < |was| ==> was[k].prev == old(was[k].prev))
        && (was != [] ==> was[0].prev == item)
      ensures Linked()
    {
      var was := old(spine);
      assert forall k :: 0 < k < |spine| ==> spine[k] == was[k - 1];
      forall a, b | 0 <= a < b < |spine| && b == a + 1
        ensures spine[a].next == spine[b] && spine[b].prev == spine[a]
      {
        if a > 0 { assert old(was[a - 1].next == was[b - 1] && was[b - 1].prev == was[a - 1]); }
      }
    }

    twostate lemma FrontContents(item: Item)
      requires spine == [item] + old(spine) && DataKept(old(spine))
      ensures Contents() == [item.Value()] + old(Contents())
    {
      var values := old(Contents());
      forall k | 0 < k < |spine| ensures spine[k].Value() == values[k - 1] {
        assert spine[k] == old(spine)[k - 1] && old(spine)[k - 1] in old(spine);
      }
    }

    // No operation on the links touches what a node stores.
    twostate predicate DataKept(nodes: seq<Item>)
      reads nodes
    {
      forall o :: o in nodes ==> o.data == old(o.data) && o.size == old(o.size)
    }

    // `move_to_head`
    method MoveToHead(item: Item, ghost i: nat)
      requires Linked() && i < |spine| && spine[i] == item
      modifies this`head, this`tail, this`spine, spine
      ensures Linked() && spine == ToFront(old(spine), i)
      ensures DataKept(old(spine)) && Contents() == ToFront(old(Contents()), i)
      ensures forall k :: 0 <= k < |spine| ==> spine[k] in old(spine)
    {
      hide Without, ToFront, Values;
      FrontMembers(spine, i);
      FrontMembers(Contents(), i);
      if item == head {
        assert i == 0;
        return;
      }
      UnlinkAndLink(item, i);
    }

    method UnlinkAndLink(item: Item, ghost i: nat)
      requires Linked() && i < |spine| && spine[i] == item
      modifies this`head, this`tail, this`spine, spine
      ensures Linked() && spine == ToFront(old(spine), i)
      ensures DataKept(old(spine)) && Contents() == ToFront(old(Contents()), i)
    {
      hide Linked, Without, ToFront, Values;
      ghost var before, values := spine, Contents();
      FrontMembers(before, i);
      FrontMembers(values, i);
      ItemAt(item, i);
      Unlink(item, i);
      LinkFront(item);
    }

    // The scan every operation starts with.
    method FindItem(key: string) returns (item: Item?, ghost i: nat)
      requires Linked()
      ensures i == Find(Contents(), key)
      ensures item == if i < |spine| then spine[i] else null
    {
      item, i := head, 0;
      while item != null && item.key != key
        invariant i <= |spine| && item == if i < |spine| then spine[i] else null
        invariant forall j :: 0 <= j < i ==> Contents()[j].key != key
        decreases |spine| - i
      {
        assert i + 1 < |spine| ==> item.next == spine[i + 1];
        item, i := item.next, i + 1;
      }
      assert i < |spine| ==> Contents()[i].key == key;
    }

    /** `cache_get` */
    method Get(key: string) returns (data: Pointer)
      requires Valid()
      modifies this, spine
      ensures Valid() && Contents() == LruSpec.Get(old(Contents()), key)
      ensures data == GetResult(old(Contents()), key)
      ensures forall e :: e in old(Contents()) && e.key == key ==> data == e.data
      ensures (forall e :: e in old(Contents()) ==> e.key != key) ==> data == NULL
      ensures forall k :: 0 <= k < |spine| ==> spine[k] in old(spine)
    {
      hide Linked, ToFront, Total, DistinctKeys, Find, Values;
      ghost var before := Contents();
      Answers(before, key);
      var item, i := FindItem(key);
      if item != null {
        ItemAt(item, i);
        MoveToHead(item, i);
        MovedValues(before, i);
        return item.data;
      }
      return NULL;
    }

    /** `cache_evict` */
    method Evict()
      requires Valid()
      modifies this, spine
      ensures Valid()
      ensures old(spine) == [] ==> spine == []
      ensures old(spine) != [] ==>
        spine == old(spine[..|spine| - 1]) && Contents() == old(Contents()[..|spine| - 1])
    {
      TailIsLast();
      hide Linked, Total, DistinctKeys, Values;
      if tail == null {
        return;
      }
      ghost var n := |spine| - 1;
      var item := tail;
      TotalWithoutLast(Contents());
      DistinctTaken(Contents(), n);
      ItemAt(item, n);
      CutTail(item);
      totalSize := totalSize - item.size;
      size := size - 1;
    }

    lemma TailIsLast()
      requires Linked()
      ensures tail == null <==> spine == []
      ensures spine != [] ==> tail == spine[|spine| - 1]
    {
    }

    // The links of `cache_evict`.
    method CutTail(item: Item)
      requires Linked() && tail == item && spine != []
      modifies this`head, this`tail, this`spine, spine
      ensures Linked() && spine == old(spine[..|spine| - 1])
      ensures DataKept(old(spine)) && Contents() == old(Contents()[..|spine| - 1])
    {
      ghost var n := |spine| - 1;
      assert n > 0 ==> spine[n].prev == spine[n - 1];
      assert n > 0 ==> spine[n - 1].next == spine[n];
      if item.prev != null {
        item.prev.next := null;
      }
      tail := item.prev;
      if item == head {
        head := null;
      }
      spine := spine[..n];
      ContentsTaken(n);
    }

    twostate lemma ContentsTaken(n: nat)
      requires n <= old(|spine|) && spine == old(spine[..n]) && DataKept(old(spine))
      ensures Contents() == old(Contents()[..n])
    {
      forall k | 0 <= k < n ensures spine[k].Value() == old(spine[k].Value()) {
        assert old(spine)[k] in old(spine);
      }
    }

    lemma ItemAt(item: Item, i: nat)
      requires i < |spine| && spine[i] == item
      ensures Contents()[i] == item.Value()
    {
    }

    /** `cache_set` */
    method Set(key: string, data: Pointer, size: nat)
      requires Valid()
      modifies this, spine
      ensures Valid() && Contents() == LruSpec.Set(old(Contents()), capacity, Entry(key, data, size))
      ensures forall k :: 0 <= k < |spine| ==> spine[k] in old(spine) || fresh(spine[k])
    {
      hide Linked, ToFront, Total, DistinctKeys, Find, Values, Fit;
      ghost var before, e := Contents(), Entry(key, data, size);
      var item, i := FindItem(key);
      if item != null {
        ItemAt(item, i);
        Update(item, i, data, size);
        return;
      }
      Insert(key, data, size);
      while totalSize > capacity
        invariant Valid() && Fit(Contents(), capacity) == Fit([e] + before, capacity)
        invariant forall k :: 0 <= k < |spine| ==> spine[k] in old(spine) || fresh(spine[k])
        decreases |spine|
      {
        FitShorter(Contents(), capacity);
        Evict();
      }
      FitDone(Contents(), capacity);
    }

    // The branch of `cache_set` for a key that is there: no eviction.
    method Update(item: Item, ghost i: nat, data: Pointer, size: nat)
      requires Valid() && i < |spine| && spine[i] == item && i == Find(Contents(), item.key)
      modifies this, spine
      ensures Valid() && Contents() == LruSpec.Set(old(Contents()), capacity, Entry(item.key, data, size))
      ensures forall k :: 0 <= k < |spine| ==> spine[k] in old(spine)
    {
      hide Linked, ToFront, Total, DistinctKeys, Find, Values, Fit;
      ghost var before, e := Contents(), Entry(item.key, data, size);
      ItemAt(item, i);
      TotalMove(before, i);
      TotalReplace(before, i, e);
      totalSize := totalSize - item.size;
      Store(item, i, data, size);
      totalSize := totalSize + size;
      MoveToHead(item, i);
      MovedValues(before[i := e], i);
    }

    // `item->data = data; item->size = size`
    method Store(item: Item, ghost i: nat, data: Pointer, size: nat)
      requires Linked() && i < |spine| && spine[i] == item
      modifies item`data, item`size
      ensures Linked() && Contents() == old(Contents())[i := Entry(item.key, data, size)]
    {
      item.data := data;
      item.size := size;
    }

    // The part of `cache_set` that makes a node for a new key.
    method Insert(key: string, data: Pointer, size: nat)
      requires Valid() && Find(Contents(), key) == |spine|
      modifies this, spine
      ensures Valid() && Contents() == [Entry(key, data, size)] + old(Contents())
      ensures forall k :: 0 <= k < |spine| ==> spine[k] in old(spine) || fresh(spine[k])
    {
      hide Linked, Total, Values;
      ghost var before := Contents();
      var item := new Item(key, data, size);
      LinkFront(item);
      this.size := this.size + 1;
      totalSize := totalSize + size;
      TotalInsert(Entry(key, data, size), before);
      InsertDistinct(Entry(key, data, size), before);
    }

    /** `cache_delete` */
    method Delete(key: string)
      requires Valid()
      modifies this, spine
      ensures Valid() && Contents() == LruSpec.Delete(old(Contents()), key)
      ensures forall k :: 0 <= k < |spine| ==> spine[k] in old(spine)
    {
      hide Linked, Total, DistinctKeys, Find, Values;
      ghost var before := Contents();
      var item, i := FindItem(key);
      if item != null {
        ItemAt(item, i);
        TotalMove(before, i);
        DeleteMembers(before, key);
        Unlink(item, i);
        totalSize := totalSize - item.size;
        size := size - 1;
      }
    }
  }

  lemma Answers(list: seq<Entry>, key: string)
    requires DistinctKeys(list)
    ensures forall e :: e in list && e.key == key ==> GetResult(list, key) == e.data
    ensures (forall e :: e in list ==> e.key != key) ==> GetResult(list, key) == NULL
  {
    GetIsExact(list, key);
  }

  lemma TotalWithoutLast(list: seq<Entry>)
    requires list != []
    ensures Total(list) == Total(list[..|list| - 1]) + list[|list| - 1].size
  {
  }

  lemma DistinctTaken(list: seq<Entry>, n: nat)
    requires n <= |list| && DistinctKeys(list)
    ensures DistinctKeys(list[..n])
  {
  }

  lemma InsertDistinct(e: Entry, list: seq<Entry>)
    requires DistinctKeys(list) && Find(list, e.key) == |list|
    ensures DistinctKeys([e] + list)
  {
  }

  lemma FitShorter(list: seq<Entry>, capacity: nat)
    requires Total(list) > capacity
    ensures list != [] && Fit(list, capacity) == Fit(list[..|list| - 1], capacity)
  {
  }

  lemma FitDone(list: seq<Entry>, capacity: nat)
    requires Total(list) <= capacity
    ensures Fit(list, capacity) == list
  {
  }

  // What moving an entry to the front keeps.
  lemma MovedValues(list: seq<Entry>, i: nat)
    requires i < |list| && DistinctKeys(list)
    ensures DistinctKeys(ToFront(list, i)) && Total(ToFront(list, i)) == Total(list)
  {
    hide Total, DistinctKeys;
    ToFrontKeepsDistinct(list, i);
    TotalMove(list, i);
    TotalInsert(list[i], list[..i] + list[i + 1..]);
    assert [list[i]] + (list[..i] + list[i + 1..]) == ToFront(list, i);
  }

  lemma TotalReplace(list: seq<Entry>, i: nat, e: Entry)
    requires i < |list| && DistinctKeys(list) && list[i].key == e.key
    ensures Total(list[i := e]) == Total(list) - list[i].size + e.size && DistinctKeys(list[i := e])
  {
    TotalMove(list, i);
    TotalMove(list[i := e], i);
    assert list[i := e][..i] == list[..i] && list[i := e][i + 1..] == list[i + 1..];
  }

  ghost function Without<T>(s: seq<T>, i: nat): seq<T>
    requires i < |s|
  {
    s[..i] + s[i + 1..]
  }

  // Taking an element out and putting it in front moves it to the front.
  lemma FrontMembers<T>(s: seq<T>, i: nat)
    requires i < |s|
    ensures [s[i]] + Without(s, i) == ToFront(s, i)
    ensures i == 0 ==> ToFront(s, i) == s
    ensures forall k :: 0 <= k < |s| ==> ToFront(s, i)[k] in s
  {
  }

  ghost function Values(spine: seq<Item>): (r: seq<Entry>)
    reads spine
    ensures |r| == |spine|
  {
    seq(|spine|, i requires 0 <= i < |spine| reads spine => spine[i].Value())
  }
}
