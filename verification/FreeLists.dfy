/** Bucketed doubly linked lists, as kernel/Heap.cpp and kernel/VirtualMemoryManager.cpp keep
    their free blocks: one list head per power of two, nodes linked through words in memory.
    The `prev` word of the first node of a list is stale and never read. */
module FreeLists {

  const NULL := 0

  /** floor(log2(n)): `cpuLastOneBitIndex`. */
  function Log2(n: nat): (k: nat)
  {
    if n < 2 then 0 else 1 + Log2(n / 2)
  }

  function Pow2(k: nat): (p: nat)
    ensures p >= 1
  {
    if k == 0 then 1 else 2 * Pow2(k - 1)
  }

  lemma {:induction false} Log2Bounds(n: nat)
    requires n >= 1
    ensures Pow2(Log2(n)) <= n < 2 * Pow2(Log2(n))
  {
    if n >= 2 { Log2Bounds(n / 2); }
  }

  lemma {:induction false} Pow2Monotone(j: nat, k: nat)
    requires j <= k
    ensures Pow2(j) <= Pow2(k)
  {
    if j < k { Pow2Monotone(j, k - 1); }
  }

  /** A larger bucket index means a larger size. */
  lemma Log2Order(m: nat, n: nat)
    requires m >= 1 && n >= 1
    ensures Log2(m) < Log2(n) ==> m < n
    ensures m <= n ==> Log2(m) <= Log2(n)
  {
    Log2Bounds(m);
    Log2Bounds(n);
    if Log2(m) < Log2(n) { Pow2Monotone(Log2(m) + 1, Log2(n)); }
    if Log2(n) < Log2(m) { Pow2Monotone(Log2(n) + 1, Log2(m)); }
  }

  lemma Log2Below(n: nat, k: nat)
    requires 1 <= n < Pow2(k)
    ensures Log2(n) < k
  {
    Log2Bounds(n);
    if Log2(n) >= k { Pow2Monotone(k, Log2(n)); }
  }

  /** A word of memory; what was never written reads as 0. */
  function Get(f: map<int, int>, x: int): int { if x in f then f[x] else 0 }

  function First(list: seq<int>): int
  {
    if list == [] then NULL else list[0]
  }

  /** Node i of the list is linked to its neighbours. */
  ghost predicate NodeOk(nx: map<int, int>, pv: map<int, int>, list: seq<int>, i: nat)
    requires i < |list|
  {
    var x := list[i];
    && x != NULL
    && Get(nx, x) == (if i + 1 < |list| then list[i + 1] else NULL)
    && (i > 0 ==> Get(pv, x) == list[i - 1])
  }

  ghost predicate ListOk(nx: map<int, int>, pv: map<int, int>, head: int, list: seq<int>)
  {
    && head == First(list)
    && (forall i: nat :: i < |list| ==> NodeOk(nx, pv, list, i))
    && Distinct(list)
  }

  ghost predicate Distinct(list: seq<int>)
  {
    forall i, j :: 0 <= i < j < |list| ==> list[i] != list[j]
  }

  /** The nodes of list k are exactly the nodes of class k. */
  ghost predicate ClassOk(list: seq<int>, k: nat, cls: map<int, nat>)
  {
    && (forall i: nat :: i < |list| ==> list[i] in cls && cls[list[i]] == k)
    && (forall x :: x in cls && cls[x] == k ==> x in list)
  }

  /** The heads and links spell out the lists, which sort the nodes by class. */
  ghost predicate BucketOk(nx: map<int, int>, pv: map<int, int>, heads: seq<int>, lists: seq<seq<int>>,
                           cls: map<int, nat>, k: nat)
    requires |heads| == |lists| && k < |heads|
  {
    ListOk(nx, pv, heads[k], lists[k]) && ClassOk(lists[k], k, cls)
  }

  ghost predicate Buckets(nx: map<int, int>, pv: map<int, int>, heads: seq<int>, lists: seq<seq<int>>, cls: map<int,
                          nat>)
  {
    && |heads| == |lists|
    && (forall k: nat :: k < |heads| ==> BucketOk(nx, pv, heads, lists, cls, k))
    && (forall x :: x in cls ==> cls[x] < |heads|)
  }

  // ---------------------------------------------------------------------------------
  // Inserting at the front
  // ---------------------------------------------------------------------------------

  function InsertNext(nx: map<int, int>, head: int, n: int): map<int, int> { nx[n := head] }

  function InsertPrev(pv: map<int, int>, head: int, n: int): map<int, int>
  {
    if head != NULL then pv[head := n] else pv
  }

  lemma InsertList(nx: map<int, int>, pv: map<int, int>, head: int, list: seq<int>, n: int)
    requires ListOk(nx, pv, head, list) && n != NULL && n !in list
    ensures ListOk(InsertNext(nx, head, n), InsertPrev(pv, head, n), n, [n] + list) == true
  {
    var nx', pv', list' := InsertNext(nx, head, n), InsertPrev(pv, head, n), [n] + list;
    forall i: nat | i < |list'| ensures NodeOk(nx', pv', list', i) == true {
      if i > 0 { assert NodeOk(nx, pv, list, i - 1) == true; }
    }
  }

  /** Words of nodes of other lists are not touched. */
  lemma ListFrame(nx: map<int, int>, pv: map<int, int>, nx': map<int, int>, pv': map<int, int>, head: int,
                  list: seq<int>)
    requires ListOk(nx, pv, head, list)
    requires forall i: nat :: i < |list| ==> Agree(nx, nx', list[i]) && Agree(pv, pv', list[i])
    ensures ListOk(nx', pv', head, list) == true
  {
    forall i: nat | i < |list| ensures NodeOk(nx', pv', list, i) == true { assert NodeOk(nx, pv, list, i) == true; }
  }

  ghost predicate Agree(f: map<int, int>, g: map<int, int>, x: int)
  {
    Get(f, x) == Get(g, x)
  }

  /** Nothing but the words of the nodes matters. */
  lemma BucketsFrame(nx: map<int, int>, pv: map<int, int>, nx': map<int, int>, pv': map<int, int>,
                     heads: seq<int>, lists: seq<seq<int>>, cls: map<int, nat>)
    requires Buckets(nx, pv, heads, lists, cls)
    requires forall x :: x in cls ==> Agree(nx, nx', x) && Agree(pv, pv', x)
    ensures Buckets(nx', pv', heads, lists, cls) == true
  {
    forall k: nat | k < |heads| ensures BucketOk(nx', pv', heads, lists, cls, k) == true {
      assert BucketOk(nx, pv, heads, lists, cls, k) == true;
      ListFrame(nx, pv, nx', pv', heads[k], lists[k]);
    }
  }

  lemma Insert(nx: map<int, int>, pv: map<int, int>, heads: seq<int>, lists: seq<seq<int>>, cls: map<int, nat>,
               n: int, k: nat)
    requires Buckets(nx, pv, heads, lists, cls) && k < |heads| && n != NULL && n !in cls
    ensures Buckets(InsertNext(nx, heads[k], n), InsertPrev(pv, heads[k], n), heads[k := n],
                    lists[k := [n] + lists[k]], cls[n := k])
  {
    var nx', pv' := InsertNext(nx, heads[k], n), InsertPrev(pv, heads[k], n);
    var heads', lists', cls' := heads[k := n], lists[k := [n] + lists[k]], cls[n := k];
    assert BucketOk(nx, pv, heads, lists, cls, k) == true;
    InsertList(nx, pv, heads[k], lists[k], n);
    forall j: nat | j < |heads'| ensures BucketOk(nx', pv', heads', lists', cls', j) == true {
      if j != k {
        assert BucketOk(nx, pv, heads, lists, cls, j) == true;
        ListFrame(nx, pv, nx', pv', heads[j], lists[j]);
      }
    }
  }

  // ---------------------------------------------------------------------------------
  // Unlinking
  // ---------------------------------------------------------------------------------

  function DeleteHead(nx: map<int, int>, head: int, x: int): int
  {
    if x == head then Get(nx, x) else head
  }

  function DeleteNext(nx: map<int, int>, pv: map<int, int>, head: int, x: int): map<int, int>
  {
    if x == head then nx else nx[Get(pv, x) := Get(nx, x)]
  }

  function DeletePrev(nx: map<int, int>, pv: map<int, int>, head: int, x: int): map<int, int>
  {
    if x == head || Get(nx, x) == NULL then pv else pv[Get(nx, x) := Get(pv, x)]
  }

  function Without(list: seq<int>, x: int): (r: seq<int>)
  {
    if list == [] then [] else if list[0] == x then list[1..] else [list[0]] + Without(list[1..], x)
  }

  lemma {:induction false} WithoutAt(list: seq<int>, i: nat)
    requires i < |list| && forall j :: 0 <= j < i ==> list[j] != list[i]
    ensures Without(list, list[i]) == list[..i] + list[i + 1..]
  {
    if i > 0 {
      WithoutAt(list[1..], i - 1);
      assert list[1..][..i - 1] == list[1..i] && list[1..][i..] == list[i + 1..];
      assert [list[0]] + list[1..i] == list[..i];
    }
  }

  lemma DeleteList(nx: map<int, int>, pv: map<int, int>, head: int, list: seq<int>, i: nat)
    requires ListOk(nx, pv, head, list) && i < |list|
    ensures var x := list[i];
            ListOk(DeleteNext(nx, pv, head, x), DeletePrev(nx, pv, head, x), DeleteHead(nx, head, x),
                   list[..i] + list[i + 1..])
  {
    var x := list[i];
    var nx', pv', list' := DeleteNext(nx, pv, head, x), DeletePrev(nx, pv, head, x), list[..i] + list[i + 1..];
    assert NodeOk(nx, pv, list, i) == true && NodeOk(nx, pv, list, 0) == true;
    if i + 1 < |list| { assert NodeOk(nx, pv, list, i + 1) == true; }
    forall j: nat | j < |list'| ensures NodeOk(nx', pv', list', j) == true {
      DeleteNode(nx, pv, head, list, i, j);
    }
  }

  lemma DeleteNode(nx: map<int, int>, pv: map<int, int>, head: int, list: seq<int>, i: nat, j: nat)
    requires ListOk(nx, pv, head, list) && i < |list| && j + 1 < |list|
    ensures var x := list[i];
            NodeOk(DeleteNext(nx, pv, head, x), DeletePrev(nx, pv, head, x), list[..i] + list[i + 1..], j)
  {
    var list' := list[..i] + list[i + 1..];
    assert NodeOk(nx, pv, list, i) == true;
    assert NodeOk(nx, pv, list, j) == true && NodeOk(nx, pv, list, j + 1) == true;
    assert list'[j] == if j < i then list[j] else list[j + 1];
    assert j + 1 < |list'| ==> list'[j + 1] == if j + 1 < i then list[j + 1] else list[j + 2];
    assert j > 0 ==> list'[j - 1] == if j - 1 < i then list[j - 1] else list[j];
  }

  /** Where a member of a class sits in its list. */
  lemma Position(nx: map<int, int>, pv: map<int, int>, heads: seq<int>, lists: seq<seq<int>>, cls: map<int, nat>,
                 x: int)
    returns (i: nat)
    requires Buckets(nx, pv, heads, lists, cls) && x in cls
    ensures cls[x] < |heads| && i < |lists[cls[x]]| && lists[cls[x]][i] == x
    ensures BucketOk(nx, pv, heads, lists, cls, cls[x]) == true && NodeOk(nx, pv, lists[cls[x]], i) == true
    ensures x == heads[cls[x]] <==> i == 0
    ensures Without(lists[cls[x]], x) == lists[cls[x]][..i] + lists[cls[x]][i + 1..]
  {
    var k := cls[x];
    assert BucketOk(nx, pv, heads, lists, cls, k) == true;
    i :| 0 <= i < |lists[k]| && lists[k][i] == x;
    assert NodeOk(nx, pv, lists[k], i) == true;
    WithoutAt(lists[k], i);
  }

  lemma DeleteClass(list: seq<int>, k: nat, cls: map<int, nat>, i: nat)
    requires ClassOk(list, k, cls) && Distinct(list) && i < |list|
    ensures ClassOk(list[..i] + list[i + 1..], k, cls - {list[i]}) == true
  {
    var list', cls' := list[..i] + list[i + 1..], cls - {list[i]};
    forall j: nat | j < |list'| ensures list'[j] in cls' && cls'[list'[j]] == k {
      assert list'[j] == if j < i then list[j] else list[j + 1];
    }
    forall y | y in cls' && cls'[y] == k ensures y in list' {
      var j :| 0 <= j < |list| && list[j] == y;
      assert list'[if j < i then j else j - 1] == y;
    }
  }

  lemma Delete(nx: map<int, int>, pv: map<int, int>, heads: seq<int>, lists: seq<seq<int>>, cls: map<int, nat>, x: int)
    requires Buckets(nx, pv, heads, lists, cls) && x in cls && cls[x] < |heads|
    ensures var k := cls[x];
            k < |lists| &&
            Buckets(DeleteNext(nx, pv, heads[k], x), DeletePrev(nx, pv, heads[k], x),
                    heads[k := DeleteHead(nx, heads[k], x)], lists[k := Without(lists[k], x)], cls - {x})
  {
    var k := cls[x];
    var i := Position(nx, pv, heads, lists, cls, x);
    var nx', pv' := DeleteNext(nx, pv, heads[k], x), DeletePrev(nx, pv, heads[k], x);
    var heads', lists', cls' := heads[k := DeleteHead(nx, heads[k], x)], lists[k := Without(lists[k], x)], cls - {x};
    DeleteList(nx, pv, heads[k], lists[k], i);
    DeleteClass(lists[k], k, cls, i);
    DeleteTouches(nx, pv, heads, lists, cls, x, i);
    forall j: nat | j < |heads'| ensures BucketOk(nx', pv', heads', lists', cls', j) == true {
      if j != k {
        assert BucketOk(nx, pv, heads, lists, cls, j) == true;
        ListFrame(nx, pv, nx', pv', heads[j], lists[j]);
      }
    }
  }

  /** Unlinking writes only words of nodes of the same list. */
  lemma DeleteTouches(nx: map<int, int>, pv: map<int, int>, heads: seq<int>, lists: seq<seq<int>>, cls: map<int, nat>,
                      x: int, i: nat)
    requires Buckets(nx, pv, heads, lists, cls) && x in cls && cls[x] < |heads|
    requires i < |lists[cls[x]]| && lists[cls[x]][i] == x
    ensures var k := cls[x];
            forall y :: !(y in cls && cls[y] == k) ==>
              Agree(nx, DeleteNext(nx, pv, heads[k], x), y) && Agree(pv, DeletePrev(nx, pv, heads[k], x), y)
  {
    var k := cls[x];
    assert BucketOk(nx, pv, heads, lists, cls, k) == true;
    assert NodeOk(nx, pv, lists[k], i) == true;
    if x != heads[k] {
      assert lists[k][i - 1] in cls;
    }
    if i + 1 < |lists[k]| { assert lists[k][i + 1] in cls; }
  }
}
