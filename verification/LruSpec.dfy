/**
 The cache as a recency list, most recent first: what every operation does to it, and what holds
 over whole traces of operations.
 */
module LruSpec {

  type Pointer = nat
  const NULL: Pointer := 0

  datatype Entry = Entry(key: string, data: Pointer, size: nat)

  function Total(list: seq<Entry>): nat {
    if list == [] then 0 else Total(list[..|list| - 1]) + list[|list| - 1].size
  }

  // Where `key` is in the list, its length if nowhere.
  function Find(list: seq<Entry>, key: string): (i: nat)
    ensures i <= |list| && (i < |list| ==> list[i].key == key)
    ensures forall j :: 0 <= j < i ==> list[j].key != key
  {
    if list == [] then 0
    else if list[0].key == key then 0
    else 1 + Find(list[1..], key)
  }

  function ToFront<T>(list: seq<T>, i: nat): (r: seq<T>)
    requires i < |list|
    ensures |r| == |list|
  {
    [list[i]] + list[..i] + list[i + 1..]
  }

  // What is left when the tail is dropped until the sizes fit.
  function Fit(list: seq<Entry>, capacity: nat): (r: seq<Entry>)
    ensures |r| <= |list|
  {
    if Total(list) <= capacity then list else Fit(list[..|list| - 1], capacity)
  }

  function Get(list: seq<Entry>, key: string): seq<Entry> {
    var i := Find(list, key);
    if i < |list| then ToFront(list, i) else list
  }

  function GetResult(list: seq<Entry>, key: string): Pointer {
    var i := Find(list, key);
    if i < |list| then list[i].data else NULL
  }

  // Replacing an entry does not evict; inserting one may, and may even evict what it inserted.
  function Set(list: seq<Entry>, capacity: nat, e: Entry): seq<Entry> {
    var i := Find(list, e.key);
    if i < |list| then ToFront(list[i := e], i) else Fit([e] + list, capacity)
  }

  function Delete(list: seq<Entry>, key: string): seq<Entry> {
    var i := Find(list, key);
    if i < |list| then list[..i] + list[i + 1..] else list
  }

  predicate DistinctKeys(list: seq<Entry>) {
    forall i, j :: 0 <= i < j < |list| ==> list[i].key != list[j].key
  }

  // ---------- eviction keeps the longest prefix that fits ----------

  lemma {:induction false} TotalPrefix(list: seq<Entry>, n: nat)
    requires n <= |list|
    ensures Total(list[..n]) <= Total(list)
    ensures n < |list| ==> Total(list[..n]) + list[n].size <= Total(list)
    decreases |list|
  {
    if n < |list| {
      var shorter := list[..|list| - 1];
      TotalPrefix(shorter, n);
      assert shorter[..n] == list[..n];
    } else {
      assert list[..n] == list;
    }
  }

  /** What an insertion leaves is a prefix that fits, and no longer prefix fits. */
  lemma {:induction false} FitIsLongestPrefix(list: seq<Entry>, capacity: nat)
    ensures var r := Fit(list, capacity);
      && r == list[..|r|] && Total(r) <= capacity
      && forall n :: |r| < n <= |list| ==> Total(list[..n]) > capacity
    decreases |list|
  {
    var r := Fit(list, capacity);
    if Total(list) <= capacity {
      assert list[..|r|] == list;
    } else {
      var shorter := list[..|list| - 1];
      FitIsLongestPrefix(shorter, capacity);
      forall n | |r| < n <= |list| ensures Total(list[..n]) > capacity {
        if n < |list| { assert shorter[..n] == list[..n]; } else { assert list[..n] == list; }
      }
    }
  }

  // A prefix that fits and whose next element does not is what `Fit` leaves.
  lemma {:induction false} FitAt(list: seq<Entry>, n: nat, capacity: nat)
    requires n <= |list| && Total(list[..n]) <= capacity
    requires n < |list| ==> Total(list[..n]) + list[n].size > capacity
    ensures Fit(list, capacity) == list[..n]
    decreases |list|
  {
    if n == |list| {
      assert list[..n] == list;
    } else {
      TotalPrefix(list, n);
      var shorter := list[..|list| - 1];
      assert shorter[..n] == list[..n];
      FitAt(shorter, n, capacity);
    }
  }

  // ---------- keys stay distinct ----------

  // Which element of the list ends up at position `k` of `ToFront(list, i)`.
  function Origin(k: nat, i: nat): nat {
    if k == 0 then i else if k <= i then k - 1 else k
  }

  lemma ToFrontAt<T>(list: seq<T>, i: nat)
    requires i < |list|
    ensures forall k :: 0 <= k < |list| ==> Origin(k, i) < |list| && ToFront(list, i)[k] == list[Origin(k, i)]
  {
  }

  lemma ToFrontKeepsDistinct(list: seq<Entry>, i: nat)
    requires i < |list| && DistinctKeys(list)
    ensures DistinctKeys(ToFront(list, i))
  {
    hide ToFront;
    ToFrontAt(list, i);
  }

  lemma GetMembers(list: seq<Entry>, key: string)
    ensures forall e :: e in Get(list, key) ==> e in list
    ensures DistinctKeys(list) ==> DistinctKeys(Get(list, key))
  {
    hide ToFront, DistinctKeys;
    var i := Find(list, key);
    if i < |list| {
      ToFrontAt(list, i);
      if DistinctKeys(list) { ToFrontKeepsDistinct(list, i); }
    }
  }

  lemma DeleteMembers(list: seq<Entry>, key: string)
    requires DistinctKeys(list)
    ensures forall e :: e in Delete(list, key) ==> e in list && e.key != key
    ensures DistinctKeys(Delete(list, key))
  {
    var i, r := Find(list, key), Delete(list, key);
    if i < |list| {
      assert forall k :: 0 <= k < |r| ==> r[k] == list[if k < i then k else k + 1];
    }
  }

  lemma ReplaceMembers(list: seq<Entry>, i: nat, x: Entry)
    requires DistinctKeys(list) && i < |list| && list[i].key == x.key
    ensures forall e :: e in ToFront(list[i := x], i) ==> e == x || (e in list && e.key != x.key)
    ensures DistinctKeys(ToFront(list[i := x], i))
  {
    hide ToFront;
    ToFrontAt(list[i := x], i);
    assert DistinctKeys(list[i := x]);
    ToFrontKeepsDistinct(list[i := x], i);
  }

  lemma InsertMembers(list: seq<Entry>, capacity: nat, x: Entry)
    requires DistinctKeys(list) && Find(list, x.key) == |list|
    ensures forall e :: e in Fit([x] + list, capacity) ==> e == x || (e in list && e.key != x.key)
    ensures DistinctKeys(Fit([x] + list, capacity))
  {
    FitIsLongestPrefix([x] + list, capacity);
    var r := Fit([x] + list, capacity);
    assert forall k :: 0 < k < |r| ==> r[k] == list[k - 1];
  }

  lemma SetMembers(list: seq<Entry>, capacity: nat, x: Entry)
    requires DistinctKeys(list)
    ensures forall e :: e in Set(list, capacity, x) ==> e == x || (e in list && e.key != x.key)
    ensures DistinctKeys(Set(list, capacity, x))
  {
    hide ToFront, Fit, DistinctKeys;
    var i := Find(list, x.key);
    if i < |list| { ReplaceMembers(list, i, x); } else { InsertMembers(list, capacity, x); }
  }

  // ---------- what the operations do, without positions ----------

  // The entries of other keys, in their order.
  function Others(list: seq<Entry>, key: string): seq<Entry> {
    if list == [] then []
    else (if list[0].key == key then [] else [list[0]]) + Others(list[1..], key)
  }

  predicate Holds(list: seq<Entry>, key: string) {
    exists i :: 0 <= i < |list| && list[i].key == key
  }

  // `r` is the longest part of `list`, from its front on, whose sizes fit.
  predicate LongestFitting(r: seq<Entry>, list: seq<Entry>, capacity: nat) {
    && r <= list && Total(r) <= capacity
    && forall n :: |r| < n <= |list| ==> Total(list[..n]) > capacity
  }

  lemma {:induction false} OthersAt(list: seq<Entry>, key: string)
    requires DistinctKeys(list)
    ensures var i := Find(list, key);
      Others(list, key) == if i < |list| then list[..i] + list[i + 1..] else list
    decreases |list|
  {
    if list != [] {
      var rest, i := list[1..], Find(list, key);
      OthersAt(rest, key);
      var j := Find(rest, key);
      if list[0].key == key {
        assert j == |rest|;
        assert list[..0] + list[1..] == rest;
      } else if j < |rest| {
        Shifted(list, j);
      } else {
        assert [list[0]] + rest == list;
      }
    }
  }

  lemma Shifted<T>(list: seq<T>, j: nat)
    requires j + 1 < |list|
    ensures [list[0]] + (list[1..][..j] + list[1..][j + 1..]) == list[..j + 1] + list[j + 2..]
  {
  }

  lemma HoldsAt(list: seq<Entry>, key: string)
    ensures Holds(list, key) <==> Find(list, key) < |list|
  {
    var i := Find(list, key);
    if i < |list| { assert list[i].key == key; }
  }

  /** A look-up returns the data of the key's entry and puts it in front of the others; without an
      entry it returns NULL and changes nothing. */
  lemma GetIsExact(list: seq<Entry>, key: string)
    requires DistinctKeys(list)
    ensures forall e :: e in list && e.key == key ==>
      GetResult(list, key) == e.data && Get(list, key) == [e] + Others(list, key)
    ensures !Holds(list, key) ==> GetResult(list, key) == NULL && Get(list, key) == list
  {
    hide Others, Holds;
    OthersAt(list, key);
    HoldsAt(list, key);
    var i := Find(list, key);
    forall e | e in list && e.key == key ensures i < |list| && list[i] == e {
      var j :| 0 <= j < |list| && list[j] == e;
    }
    if i < |list| { assert ToFront(list, i) == [list[i]] + (list[..i] + list[i + 1..]); }
  }

  /** Setting a key that is there replaces its entry, in front of the others, and evicts nothing;
      setting another inserts in front and keeps the longest prefix that fits. */
  lemma SetIsExact(list: seq<Entry>, capacity: nat, e: Entry)
    requires DistinctKeys(list)
    ensures Holds(list, e.key) ==> Set(list, capacity, e) == [e] + Others(list, e.key)
    ensures !Holds(list, e.key) ==> LongestFitting(Set(list, capacity, e), [e] + list, capacity)
  {
    hide Fit;
    OthersAt(list, e.key);
    HoldsAt(list, e.key);
    FitIsLongestPrefix([e] + list, capacity);
    var i := Find(list, e.key);
    if i < |list| {
      var put := list[i := e];
      assert put[..i] == list[..i] && put[i + 1..] == list[i + 1..];
      assert ToFront(put, i) == [e] + (list[..i] + list[i + 1..]);
    }
  }

  /** Deleting a key leaves the entries of the others. */
  lemma DeleteIsExact(list: seq<Entry>, key: string)
    requires DistinctKeys(list)
    ensures Delete(list, key) == Others(list, key)
  {
    OthersAt(list, key);
  }

  // ---------- a hit returns what was stored last ----------

  datatype Op = DoGet(key: string) | DoSet(e: Entry) | DoDelete(key: string)

  function Apply(list: seq<Entry>, capacity: nat, op: Op): seq<Entry> {
    match op
    case DoGet(key) => Get(list, key)
    case DoSet(e) => Set(list, capacity, e)
    case DoDelete(key) => Delete(list, key)
  }

  function Exec(ops: seq<Op>, capacity: nat): seq<Entry> {
    if ops == [] then [] else Apply(Exec(ops[..|ops| - 1], capacity), capacity, ops[|ops| - 1])
  }

  datatype Stored = Nothing | Stored(data: Pointer, size: nat)

  // The latest value set for `key`, unless it was deleted since.
  function Latest(ops: seq<Op>, key: string): Stored {
    if ops == [] then Nothing
    else
      match ops[|ops| - 1]
      case DoSet(e) => if e.key == key then Stored(e.data, e.size) else Latest(ops[..|ops| - 1], key)
      case DoDelete(k) => if k == key then Nothing else Latest(ops[..|ops| - 1], key)
      case DoGet(_) => Latest(ops[..|ops| - 1], key)
  }

  lemma {:induction false} EntriesAreLatest(ops: seq<Op>, capacity: nat)
    ensures DistinctKeys(Exec(ops, capacity))
    ensures forall e :: e in Exec(ops, capacity) ==> Latest(ops, e.key) == Stored(e.data, e.size)
    decreases |ops|
  {
    if ops != [] {
      var before, op := ops[..|ops| - 1], ops[|ops| - 1];
      var list := Exec(before, capacity);
      EntriesAreLatest(before, capacity);
      hide Get, Set, Delete, DistinctKeys;
      match op
      case DoGet(key) => GetMembers(list, key);
      case DoDelete(key) => DeleteMembers(list, key);
      case DoSet(e) => SetMembers(list, capacity, e);
    }
  }

  /** Whatever came before: a look-up of a key with an entry returns the data of the latest
      insertion of that key, which was not deleted since, and any other look-up returns NULL. */
  lemma LookupReturnsLatest(ops: seq<Op>, capacity: nat, key: string)
    ensures var list := Exec(ops, capacity);
      if Holds(list, key) then Latest(ops, key).Stored? && GetResult(list, key) == Latest(ops, key).data
      else GetResult(list, key) == NULL
  {
    EntriesAreLatest(ops, capacity);
    var list := Exec(ops, capacity);
    GetIsExact(list, key);
    if Holds(list, key) {
      var i :| 0 <= i < |list| && list[i].key == key;
      assert list[i] in list;
    }
  }

  /** What has just been set is found again, exactly if the key was there before or the new entry
      fits into the cache. */
  lemma SetThenGet(ops: seq<Op>, capacity: nat, e: Entry)
    ensures var list := Exec(ops, capacity);
      GetResult(Exec(ops + [DoSet(e)], capacity), e.key)
      == if Holds(list, e.key) || e.size <= capacity then e.data else NULL
  {
    hide Get, GetResult, Set, Fit, Holds, Others;
    var list, next := Exec(ops, capacity), Exec(ops + [DoSet(e)], capacity);
    assert (ops + [DoSet(e)])[..|ops|] == ops;
    assert next == Set(list, capacity, e);
    EntriesAreLatest(ops, capacity);
    EntriesAreLatest(ops + [DoSet(e)], capacity);
    SetIsExact(list, capacity, e);
    GetIsExact(next, e.key);
    if Holds(list, e.key) {
      assert next[0] == e;
    } else {
      assert Total(([e] + list)[..1]) == e.size by { assert ([e] + list)[..1] == [e]; SingleTotal(e); }
      if e.size <= capacity { assert next[0] == e; } else { NothingFits(e, list, next, capacity); }
    }
  }

  lemma SingleTotal(e: Entry)
    ensures Total([e]) == e.size
  {
    assert [e][..0] == [];
  }

  lemma NothingFits(e: Entry, list: seq<Entry>, r: seq<Entry>, capacity: nat)
    requires LongestFitting(r, [e] + list, capacity) && e.size > capacity
    ensures !Holds(r, e.key)
  {
    if r != [] {
      assert r[..1] == [e];
      SingleTotal(e);
      TotalPrefix(r, 1);
    }
  }

  // ---------- caches of different sizes ----------

  // The entry a client stores for a key it missed: always the same size, never NULL.
  type Store = string -> Entry

  ghost predicate Consistent(store: Store) {
    forall key {:trigger store(key)} :: store(key).key == key && store(key).data != NULL
  }

  // One access: look the key up, and store it after a miss.
  function Access(list: seq<Entry>, capacity: nat, key: string, store: Store): seq<Entry> {
    if GetResult(list, key) == NULL then Set(Get(list, key), capacity, store(key)) else Get(list, key)
  }

  function Accesses(keys: seq<string>, capacity: nat, store: Store): seq<Entry> {
    if keys == [] then []
    else Access(Accesses(keys[..|keys| - 1], capacity, store), capacity, keys[|keys| - 1], store)
  }

  // Every key accessed so far, by recency: the list of a cache that never evicts.
  function Stack(keys: seq<string>, store: Store): seq<Entry> {
    if keys == [] then []
    else
      var stack, key := Stack(keys[..|keys| - 1], store), keys[|keys| - 1];
      [store(key)] + Delete(stack, key)
  }

  ghost predicate FromStore(list: seq<Entry>, store: Store) {
    forall i :: 0 <= i < |list| ==> list[i] == store(list[i].key)
  }

  lemma {:induction false} StackIsDistinct(keys: seq<string>, store: Store)
    requires Consistent(store)
    ensures DistinctKeys(Stack(keys, store)) && FromStore(Stack(keys, store), store)
    decreases |keys|
  {
    if keys != [] {
      var before, key := keys[..|keys| - 1], keys[|keys| - 1];
      StackIsDistinct(before, store);
      hide Delete, DistinctKeys, FromStore;
      var stack := Stack(before, store);
      DeleteMembers(stack, key);
      PutInFront(stack, Delete(stack, key), key, store);
    }
  }

  lemma PutInFront(stack: seq<Entry>, rest: seq<Entry>, key: string, store: Store)
    requires Consistent(store) && FromStore(stack, store) && DistinctKeys(rest)
    requires forall e :: e in rest ==> e in stack && e.key != key
    ensures DistinctKeys([store(key)] + rest) && FromStore([store(key)] + rest, store)
  {
    var list := [store(key)] + rest;
    forall k | 0 < k < |list| ensures list[k] == store(list[k].key) && list[k].key != key {
      assert list[k] == rest[k - 1] && rest[k - 1] in rest;
    }
    assert list[0].key == key;
    forall i, j | 0 <= i < j < |list| ensures list[i].key != list[j].key {
      if i > 0 { assert list[i] == rest[i - 1] && list[j] == rest[j - 1]; }
    }
  }

  lemma {:induction false} TotalInsert(e: Entry, list: seq<Entry>)
    ensures Total([e] + list) == e.size + Total(list)
    decreases |list|
  {
    if list != [] {
      TotalInsert(e, list[..|list| - 1]);
      assert ([e] + list)[..|list|] == [e] + list[..|list| - 1];
    }
  }

  lemma {:induction false} TotalMove(list: seq<Entry>, i: nat)
    requires i < |list|
    ensures Total(list[..i] + list[i + 1..]) + list[i].size == Total(list)
    decreases |list|
  {
    var n := |list| - 1;
    var rest := list[..i] + list[i + 1..];
    if i == n {
      assert rest == list[..n];
    } else {
      TotalMove(list[..n], i);
      assert rest[..n - 1] == list[..n][..i] + list[..n][i + 1..];
      assert rest[n - 1] == list[n];
    }
  }

  // An access of a list whose entries the client stored.
  lemma AccessIs(list: seq<Entry>, capacity: nat, key: string, store: Store)
    requires Consistent(store) && FromStore(list, store)
    ensures var i := Find(list, key);
      Access(list, capacity, key, store)
      == if i < |list| then ToFront(list, i) else Fit([store(key)] + list, capacity)
  {
    hide Fit, ToFront, Find;
    assert store(key).key == key;
  }

  /** A cache of any capacity holds, after any trace of accesses, exactly the longest prefix of the
      recency stack that fits. */
  lemma {:induction false} CacheIsStackPrefix(keys: seq<string>, capacity: nat, store: Store)
    requires Consistent(store)
    ensures Accesses(keys, capacity, store) == Fit(Stack(keys, store), capacity)
    decreases |keys|
  {
    if keys != [] {
      hide Fit, ToFront, Find, Access, Delete, Total, DistinctKeys;
      var before, key := keys[..|keys| - 1], keys[|keys| - 1];
      CacheIsStackPrefix(before, capacity, store);
      StackIsDistinct(before, store);
      var stack := Stack(before, store);
      var list := Fit(stack, capacity);
      FitIsLongestPrefix(stack, capacity);
      var i := Find(stack, key);
      FindInPrefix(stack, |list|, key);
      assert store(key).key == key;
      AccessIs(list, capacity, key, store);
      if i < |list| {
        HitKeepsPrefix(stack, |list|, i, capacity, store(key));
      } else {
        MissKeepsPrefix(stack, |list|, capacity, store(key));
      }
    } else {
      assert Fit([], capacity) == [];
    }
  }

  // The key is among the entries of the stack, from the top on, that fit.
  predicate Fitting(stack: seq<Entry>, capacity: nat, key: string) {
    exists n :: 0 <= n < |stack| && stack[n].key == key && Total(stack[..n + 1]) <= capacity
  }

  lemma FittingIsHeld(stack: seq<Entry>, list: seq<Entry>, capacity: nat, key: string)
    requires LongestFitting(list, stack, capacity)
    ensures Fitting(stack, capacity, key) <==> Holds(list, key)
  {
    hide Total;
    if Fitting(stack, capacity, key) {
      var n :| 0 <= n < |stack| && stack[n].key == key && Total(stack[..n + 1]) <= capacity;
      assert n < |list|;
      assert list[n] == stack[n];
    }
    if Holds(list, key) {
      var n :| 0 <= n < |list| && list[n].key == key;
      TotalPrefix(list, n + 1);
      assert stack[n] == list[n] && stack[..n + 1] == list[..n + 1];
    }
  }

  /** After any trace of accesses a look-up hits exactly if the key is among the entries of the
      recency stack that fit, and it returns what the client stores for the key. */
  lemma HitIsExact(keys: seq<string>, capacity: nat, store: Store, key: string)
    requires Consistent(store)
    ensures GetResult(Accesses(keys, capacity, store), key)
         == if Fitting(Stack(keys, store), capacity, key) then store(key).data else NULL
  {
    hide Get, GetResult, Fit, Others, Total, Fitting, Holds, DistinctKeys, FromStore;
    var stack, list := Stack(keys, store), Accesses(keys, capacity, store);
    CacheIsStackPrefix(keys, capacity, store);
    StackIsDistinct(keys, store);
    FitIsLongestPrefix(stack, capacity);
    FittingIsHeld(stack, list, capacity, key);
    HeldIsStored(stack, list, store, key);
  }

  lemma HeldIsStored(stack: seq<Entry>, list: seq<Entry>, store: Store, key: string)
    requires list <= stack && DistinctKeys(stack) && FromStore(stack, store)
    ensures GetResult(list, key) == if Holds(list, key) then store(key).data else NULL
  {
    hide GetResult, Get, Others;
    assert DistinctKeys(list);
    GetIsExact(list, key);
    if Holds(list, key) {
      var n :| 0 <= n < |list| && list[n].key == key;
      assert list[n] == stack[n] && list[n] in list;
    }
  }

  lemma FindInPrefix(list: seq<Entry>, n: nat, key: string)
    requires n <= |list|
    ensures Find(list[..n], key) == if Find(list, key) < n then Find(list, key) else n
  {
  }

  lemma HitKeepsPrefix(stack: seq<Entry>, n: nat, i: nat, capacity: nat, e: Entry)
    requires i < n <= |stack| && stack[i] == e && Find(stack, e.key) == i
    requires Total(stack[..n]) <= capacity
    requires n < |stack| ==> Total(stack[..n + 1]) > capacity
    ensures ToFront(stack[..n], i) == Fit([e] + Delete(stack, e.key), capacity)
  {
    hide Total, Fit, Find;
    var next := [e] + Delete(stack, e.key);
    MovedPrefix(stack, n, i, e);
    if n < |stack| {
      TotalLast(stack, n);
      assert next[n] == stack[n];
    }
    FitAt(next, n, capacity);
  }

  lemma TotalLast(list: seq<Entry>, n: nat)
    requires n < |list|
    ensures Total(list[..n + 1]) == Total(list[..n]) + list[n].size
  {
    assert list[..n + 1][..n] == list[..n];
  }

  // Moving an element of a prefix to the front permutes the prefix.
  lemma MovedPrefix(stack: seq<Entry>, n: nat, i: nat, e: Entry)
    requires i < n <= |stack| && stack[i] == e && Find(stack, e.key) == i
    ensures var next := [e] + Delete(stack, e.key);
      |next| == |stack| && next[..n] == ToFront(stack[..n], i) && Total(next[..n]) == Total(stack[..n])
  {
    hide Total, Find, ToFront;
    var list := stack[..n];
    var rest := list[..i] + list[i + 1..];
    TotalMove(list, i);
    TotalInsert(e, rest);
    MovedPieces(stack, n, i);
  }

  lemma MovedPieces<T>(stack: seq<T>, n: nat, i: nat)
    requires i < n <= |stack|
    ensures var rest := stack[..n][..i] + stack[..n][i + 1..];
      && ([stack[i]] + (stack[..i] + stack[i + 1..]))[..n] == [stack[i]] + rest
      && ToFront(stack[..n], i) == [stack[i]] + rest
  {
    var rest := stack[..n][..i] + stack[..n][i + 1..];
    assert stack[..n][..i] == stack[..i] && stack[..n][i + 1..] == stack[i + 1..n];
    assert [stack[i]] + stack[..i] + stack[i + 1..n] == [stack[i]] + rest;
    var a, b := ([stack[i]] + (stack[..i] + stack[i + 1..]))[..n], [stack[i]] + rest;
    assert |a| == |b| && forall k :: 0 <= k < n ==> a[k] == b[k];
  }

  lemma MissKeepsPrefix(stack: seq<Entry>, n: nat, capacity: nat, e: Entry)
    requires n <= |stack| && n <= Find(stack, e.key) && Total(stack[..n]) <= capacity
    requires n < |stack| ==> Total(stack[..n + 1]) > capacity
    requires var i := Find(stack, e.key); i < |stack| ==> stack[i] == e
    ensures Fit([e] + stack[..n], capacity) == Fit([e] + Delete(stack, e.key), capacity)
  {
    hide Total, Fit, Find;
    var inserted, next := [e] + stack[..n], [e] + Delete(stack, e.key);
    var r := Fit(inserted, capacity);
    FitIsLongestPrefix(inserted, capacity);
    assert next[..n + 1] == inserted;
    if |r| < n + 1 {
      TotalLast(inserted, |r|);
    } else if |r| < |next| {
      assert r == inserted;
      NothingMoreFits(stack, n, capacity, e);
    }
    assert next[..|r|] == r;
    FitAt(next, |r|, capacity);
  }

  // If the stored entry is the one that did not fit before, nothing fits behind it now.
  lemma NothingMoreFits(stack: seq<Entry>, n: nat, capacity: nat, e: Entry)
    requires n <= |stack| && n <= Find(stack, e.key) && n + 1 < |[e] + Delete(stack, e.key)|
    requires n < |stack| ==> Total(stack[..n + 1]) > capacity
    requires var i := Find(stack, e.key); i < |stack| ==> stack[i] == e
    requires Total([e] + stack[..n]) <= capacity
    ensures Total([e] + stack[..n]) + ([e] + Delete(stack, e.key))[n + 1].size > capacity
  {
    hide Total, Find;
    TotalInsert(e, stack[..n]);
    TotalLast(stack, n);
    var next := [e] + Delete(stack, e.key);
    if Find(stack, e.key) != n { assert next[n + 1] == stack[n]; }
  }

  lemma {:induction false} FitOfLarger(list: seq<Entry>, small: nat, large: nat)
    requires small <= large
    ensures |Fit(list, small)| <= |Fit(list, large)|
  {
    FitIsLongestPrefix(list, small);
    FitIsLongestPrefix(list, large);
    var n := |Fit(list, small)|;
    assert list[..n] == Fit(list, small);
  }

  /** LRU inclusion: the smaller cache's list is a prefix of the larger one's at every point. */
  lemma Inclusion(keys: seq<string>, small: nat, large: nat, store: Store)
    requires Consistent(store) && small <= large
    ensures Accesses(keys, small, store) <= Accesses(keys, large, store)
  {
    CacheIsStackPrefix(keys, small, store);
    CacheIsStackPrefix(keys, large, store);
    var stack := Stack(keys, store);
    FitIsLongestPrefix(stack, small);
    FitIsLongestPrefix(stack, large);
    FitOfLarger(stack, small, large);
  }
}
