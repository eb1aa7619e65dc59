/** The Kernighan and Ritchie allocator of umalloc.c.

    Addresses count headers (8 bytes). The free list is circular and starts at the
    static header `base`, which lies below the heap; `free` is the list in address
    order, `live` the blocks handed out.
 */
module Umalloc {

  // ---- sums over sets of blocks ----

  ghost function Pick<T>(s: set<T>): (x: T)
    requires s != {}
    ensures x in s
  {
    var x :| x in s;
    x
  }

  ghost function Sum(s: set<int>, size: map<int, int>): int
    requires forall x :: x in s ==> x in size
  {
    if s == {} then 0 else
      var x := Pick(s);
      size[x] + Sum(s - {x}, size)
  }

  /** Any element can be taken out first. */
  lemma {:induction false} SumRemove(s: set<int>, size: map<int, int>, y: int)
    requires y in s && forall x :: x in s ==> x in size
    ensures Sum(s, size) == size[y] + Sum(s - {y}, size)
    decreases s
  {
    var z := Pick(s);
    if z != y {
      SumRemove(s - {z}, size, y);
      SumRemove(s - {y}, size, z);
      assert s - {z} - {y} == s - {y} - {z};
    }
  }

  lemma SumAdd(s: set<int>, size: map<int, int>, x: int)
    requires x !in s && x in size && forall y :: y in s ==> y in size
    ensures Sum(s + {x}, size) == Sum(s, size) + size[x]
  {
    SumRemove(s + {x}, size, x);
    assert s + {x} - {x} == s;
  }

  lemma {:induction false} SumFrame(s: set<int>, size: map<int, int>, size': map<int, int>)
    requires forall y :: y in s ==> y in size && y in size' && size[y] == size'[y]
    ensures Sum(s, size) == Sum(s, size')
    decreases s
  {
    if s != {} {
      SumFrame(s - {Pick(s)}, size, size');
    }
  }

  /** Changing the size of one block changes the sum by as much. */
  lemma SumUpdate(s: set<int>, size: map<int, int>, x: int, v: int)
    requires x in s && forall y :: y in s ==> y in size
    ensures Sum(s, size[x := v]) == Sum(s, size) - size[x] + v
  {
    var r := s - {x};
    assert s == r + {x};
    SumAdd(r, size, x);
    SumAdd(r, size[x := v], x);
    SumFrame(r, size, size[x := v]);
  }

  // ---- the free list ----

  function Next(i: nat, n: nat): nat
    requires i < n
    ensures Next(i, n) < n
  {
    if i + 1 == n then 0 else i + 1
  }

  ghost predicate LinkAt(ptr: map<int, int>, free: seq<int>, i: nat)
    requires i < |free|
  {
    free[i] in ptr && ptr[free[i]] == free[Next(i, |free|)]
  }

  /** The pointers run through `free` in order and back to its start. */
  ghost predicate Linked(ptr: map<int, int>, free: seq<int>) {
    forall i :: 0 <= i < |free| ==> LinkAt(ptr, free, i)
  }

  ghost predicate Ascending(free: seq<int>) {
    forall i, j :: 0 <= i < j < |free| ==> free[i] < free[j]
  }

  ghost function Elements(free: seq<int>): (s: set<int>)
    ensures forall x :: x in s <==> exists i :: 1 <= i < |free| && free[i] == x
  {
    set i | 1 <= i < |free| :: free[i]
  }

  /** Headers, sizes and ghost bookkeeping of a heap. */
  datatype Heap = Heap(
    base: int,
    ptr: map<int, int>,
    size: map<int, int>,
    free: seq<int>,       // the free list in address order, base first
    live: set<int>,       // blocks handed out
    top: int,             // end of the memory obtained from sbrk
    obtained: int)        // units obtained from sbrk
  {
    ghost function Blocks(): set<int> {
      live + Elements(free)
    }

    /** The list: circular, in address order with one wrap, at base. */
    ghost predicate ListOk() {
      && |free| >= 1 && free[0] == base
      && Ascending(free) && Linked(ptr, free)
      && base in size && size[base] == 0
    }

    /** Blocks lie in the heap, one after the other without overlap. */
    ghost predicate LayoutOk() {
      && base < top
      && live !! Elements(free)
      && (forall x :: x in Blocks() ==> x in size && base < x && size[x] >= 1 && x + size[x] <= top)
      && (forall x, y :: x in Blocks() && y in Blocks() && x < y ==> x + size[x] <= y)
    }

    /** No two free blocks touch. */
    ghost predicate Coalesced() {
      forall i :: 1 <= i < |free| - 1 ==> free[i] in size && free[i] + size[free[i]] < free[i + 1]
    }

    ghost predicate Ok() {
      ListOk() && LayoutOk() && Coalesced() && Sum(Blocks(), size) == obtained
    }
  }

  // ---- inserting and merging ----

  /** Where a block belongs in the list: after free[t]. */
  ghost predicate Place(free: seq<int>, b: int, t: nat) {
    t < |free| && free[t] < b && (t + 1 < |free| ==> b < free[t + 1])
  }

  /** A live block put on the list, not yet merged with its neighbours. */
  ghost function Insert(h: Heap, b: int, t: nat): Heap
    requires h.ListOk() && Place(h.free, b, t)
  {
    assert LinkAt(h.ptr, h.free, t);
    h.(ptr := h.ptr[b := h.ptr[h.free[t]]][h.free[t] := b],
       free := h.free[..t + 1] + [b] + h.free[t + 1..],
       live := h.live - {b})
  }

  /** Free block i swallows free block i + 1, which it touches. */
  ghost function Merge(h: Heap, i: nat): Heap
    requires h.ListOk() && i + 1 < |h.free| && h.free[i] in h.size && h.free[i + 1] in h.size
  {
    assert LinkAt(h.ptr, h.free, i + 1);
    var x, y := h.free[i], h.free[i + 1];
    h.(size := h.size[x := h.size[x] + h.size[y]],
       ptr := h.ptr[x := h.ptr[y]],
       free := h.free[..i + 1] + h.free[i + 2..])
  }

  /** Free block i does not touch the next one. */
  ghost predicate Gap(h: Heap, i: nat)
    requires i + 1 < |h.free|
  {
    h.free[i] in h.size && h.free[i] + h.size[h.free[i]] < h.free[i + 1]
  }

  ghost predicate Sound(h: Heap) {
    h.ListOk() && h.LayoutOk() && Sum(h.Blocks(), h.size) == h.obtained
  }

  lemma InsertAscending(free: seq<int>, b: int, t: nat)
    requires Ascending(free) && Place(free, b, t)
    ensures Ascending(free[..t + 1] + [b] + free[t + 1..])
  {
    var g := free[..t + 1] + [b] + free[t + 1..];
    forall i, j | 0 <= i < j < |g|
      ensures g[i] < g[j]
    {
      assert g[i] == if i <= t then free[i] else if i == t + 1 then b else free[i - 1];
      assert g[j] == if j <= t then free[j] else if j == t + 1 then b else free[j - 1];
    }
  }

  lemma InsertLink(ptr: map<int, int>, free: seq<int>, b: int, t: nat, i: nat)
    requires Ascending(free) && Place(free, b, t) && Linked(ptr, free) && i < |free| + 1
    requires free[t] in ptr
    ensures LinkAt(ptr[b := ptr[free[t]]][free[t] := b], free[..t + 1] + [b] + free[t + 1..], i)
  {
    var g := free[..t + 1] + [b] + free[t + 1..];
    var n := |free|;
    assert g[t + 1] == b;
    if i <= t {
      assert g[i] == free[i] && free[i] != b;
      assert LinkAt(ptr, free, i);
    } else if i == t + 1 {
      assert LinkAt(ptr, free, t);
    } else {
      assert g[i] == free[i - 1];
      assert free[t] < free[i - 1];
      assert b < free[i - 1];
      assert LinkAt(ptr, free, i - 1);
    }
  }

  lemma InsertList(h: Heap, b: int, t: nat)
    requires h.ListOk() && Place(h.free, b, t)
    ensures Insert(h, b, t).ListOk()
  {
    hide Ascending;
    var g := Insert(h, b, t);
    InsertAscending(h.free, b, t);
    assert h.free[t] in h.ptr by {
      assert LinkAt(h.ptr, h.free, t);
    }
    forall i | 0 <= i < |h.free| + 1
      ensures LinkAt(g.ptr, g.free, i)
    {
      InsertLink(h.ptr, h.free, b, t, i);
    }
  }

  lemma InsertElements(free: seq<int>, b: int, t: nat)
    requires t < |free|
    ensures Elements(free[..t + 1] + [b] + free[t + 1..]) == Elements(free) + {b}
  {
    var g := free[..t + 1] + [b] + free[t + 1..];
    forall x
      ensures x in Elements(g) <==> x in Elements(free) + {b}
    {
      if x in Elements(free) {
        var i :| 1 <= i < |free| && free[i] == x;
        assert g[if i <= t then i else i + 1] == x;
      }
      if x == b {
        assert g[t + 1] == b;
      }
      if x in Elements(g) {
        var i :| 1 <= i < |g| && g[i] == x;
        if i != t + 1 {
          assert free[if i <= t then i else i - 1] == x;
        }
      }
    }
  }

  /** Putting a live block on the list keeps the heap sound and moves no block. */
  lemma InsertSound(h: Heap, b: int, t: nat)
    requires Sound(h) && b in h.live && Place(h.free, b, t)
    ensures Sound(Insert(h, b, t)) && Insert(h, b, t).Blocks() == h.Blocks()
  {
    hide Linked, Ascending, Elements, Sum;
    InsertList(h, b, t);
    InsertElements(h.free, b, t);
    assert Insert(h, b, t).Blocks() == h.Blocks();
  }

  lemma BaseApart(free: seq<int>, i: nat)
    requires Ascending(free) && 1 <= i < |free|
    ensures free[i] != free[0]
  {
  }

  lemma RemoveAscending(free: seq<int>, i: nat)
    requires Ascending(free) && i < |free|
    ensures Ascending(free[..i] + free[i + 1..])
  {
    var g := free[..i] + free[i + 1..];
    assert forall j :: 0 <= j < |g| ==> g[j] == if j < i then free[j] else free[j + 1];
  }

  /** Bypassing one element of the list. */
  lemma RemoveLink(ptr: map<int, int>, free: seq<int>, i: nat, j: nat)
    requires Ascending(free) && Linked(ptr, free) && 1 <= i < |free| && j < |free| - 1
    requires free[i] in ptr
    ensures LinkAt(ptr[free[i - 1] := ptr[free[i]]], free[..i] + free[i + 1..], j)
  {
    var g := free[..i] + free[i + 1..];
    var n := |free|;
    assert LinkAt(ptr, free, i);
    if j < i {
      assert LinkAt(ptr, free, j);
    } else {
      assert free[i - 1] < free[j + 1];
      assert LinkAt(ptr, free, j + 1);
    }
  }

  lemma MergeList(h: Heap, i: nat)
    requires h.ListOk() && 1 <= i && i + 1 < |h.free| && h.free[i] in h.size && h.free[i + 1] in h.size
    ensures Merge(h, i).ListOk()
  {
    hide Ascending;
    var g := Merge(h, i);
    RemoveAscending(h.free, i + 1);
    assert h.free[i + 1] in h.ptr by {
      assert LinkAt(h.ptr, h.free, i + 1);
    }
    forall j | 0 <= j < |h.free| - 1
      ensures LinkAt(g.ptr, g.free, j)
    {
      RemoveLink(h.ptr, h.free, i + 1, j);
    }
    BaseApart(h.free, i);
  }

  lemma RemoveElements(free: seq<int>, i: nat)
    requires Ascending(free) && 1 <= i < |free|
    ensures Elements(free[..i] + free[i + 1..]) == Elements(free) - {free[i]} && free[i] in Elements(free)
  {
    var g := free[..i] + free[i + 1..];
    forall x
      ensures x in Elements(g) <==> x in Elements(free) - {free[i]}
    {
      if x in Elements(free) - {free[i]} {
        var j :| 1 <= j < |free| && free[j] == x;
        assert g[if j < i then j else j - 1] == x;
      }
      if x in Elements(g) {
        var j :| 1 <= j < |g| && g[j] == x;
        assert free[if j < i then j else j + 1] == x;
      }
    }
  }

  /** Merging two neighbours keeps the heap sound and loses no unit. */
  lemma MergeSound(h: Heap, i: nat)
    requires Sound(h) && 1 <= i && i + 1 < |h.free| && h.free[i] in h.size && h.free[i + 1] in h.size
    requires h.free[i] + h.size[h.free[i]] == h.free[i + 1]
    ensures Sound(Merge(h, i))
  {
    hide Linked, Elements, Sum;
    var g := Merge(h, i);
    var x, y := h.free[i], h.free[i + 1];
    MergeList(h, i);
    RemoveElements(h.free, i + 1);
    RemoveElements(h.free, i);
    assert g.free == h.free[..i + 1] + h.free[i + 2..];
    assert g.Blocks() == h.Blocks() - {y};
    SumRemove(h.Blocks(), h.size, y);
    SumUpdate(g.Blocks(), h.size, x, h.size[x] + h.size[y]);
  }

  // ---- freeing a block ----

  lemma FreeInSize(h: Heap, t: nat)
    requires h.ListOk() && h.LayoutOk() && t < |h.free|
    ensures h.free[t] in h.size && (t > 0 ==> h.free[t] in h.Blocks())
  {
    if t > 0 {
      assert h.free[t] in Elements(h.free);
    }
  }

  /** A block inserted after free[t] and merged with the block above it, if they touch. */
  ghost function Raised(h: Heap, b: int, t: nat): (g: Heap)
    requires h.ListOk() && h.LayoutOk() && b in h.live && Place(h.free, b, t)
    ensures g.ListOk() && t + 1 < |g.free| && g.free[t] == h.free[t] && g.free[t + 1] == b
    ensures h.free[t] in g.size && g.size[h.free[t]] == h.size[h.free[t]] && b in g.size
  {
    InsertList(h, b, t);
    FreeInSize(h, t);
    var g := Insert(h, b, t);
    assert g.free[t] == h.free[t] && g.free[t + 1] == b;
    if t + 1 < |h.free| && b + h.size[b] == h.free[t + 1] then
      FreeInSize(h, t + 1);
      assert g.free[t + 2] == h.free[t + 1];
      MergeList(g, t + 1);
      Merge(g, t + 1)
    else g
  }

  /** What free() makes of the heap: insert, then merge upwards, then downwards. */
  ghost function Freed(h: Heap, b: int, t: nat): Heap
    requires h.ListOk() && h.LayoutOk() && b in h.live && Place(h.free, b, t)
  {
    var g := Raised(h, b, t);
    if h.free[t] + h.size[h.free[t]] == b then Merge(g, t) else g
  }

  lemma CoalescedAt(h: Heap, i: nat)
    requires h.Coalesced() && 1 <= i < |h.free| - 1
    ensures Gap(h, i)
  {
  }

  lemma InsertedAt(free: seq<int>, b: int, t: nat, i: nat)
    requires t < |free| && i <= |free|
    ensures var g := free[..t + 1] + [b] + free[t + 1..];
            |g| == |free| + 1 && g[i] == if i <= t then free[i] else if i == t + 1 then b else free[i - 1]
  {
  }

  /** After insertion only the new block can touch a neighbour. */
  lemma InsertGaps(h: Heap, b: int, t: nat, i: nat)
    requires Sound(h) && h.Coalesced() && b in h.live && Place(h.free, b, t)
    requires 1 <= i < |h.free| && i != t && i != t + 1
    ensures Gap(Insert(h, b, t), i)
  {
    hide Linked, Sum, Elements, Ascending, Heap.LayoutOk, Heap.Coalesced;
    InsertedAt(h.free, b, t, i);
    InsertedAt(h.free, b, t, i + 1);
    CoalescedAt(h, if i < t then i else i - 1);
  }

  /** The neighbours of the new block end, at the latest, where it begins. */
  lemma InsertNeighbours(h: Heap, b: int, t: nat)
    requires Sound(h) && b in h.live && Place(h.free, b, t)
    ensures h.free[t] in h.size && h.free[t] + h.size[h.free[t]] <= b
    ensures t + 1 < |h.free| ==> b + h.size[b] <= h.free[t + 1]
    ensures t == 0 ==> h.free[t] + h.size[h.free[t]] < b
  {
    FreeInSize(h, t);
    assert b in h.Blocks();
    if t + 1 < |h.free| {
      FreeInSize(h, t + 1);
    }
  }

  /** Merging block i with the next leaves the gaps of the others, and gives block i the gap of
      the block it swallowed. */
  lemma MergeGaps(h: Heap, i: nat, skip: nat)
    requires Sound(h) && 1 <= i && i + 1 < |h.free| && h.free[i] in h.size && h.free[i + 1] in h.size
    requires h.free[i] + h.size[h.free[i]] == h.free[i + 1]
    requires forall j :: 1 <= j < |h.free| - 1 && j != i && j != skip ==> Gap(h, j)
    requires skip <= i
    ensures forall j :: 1 <= j < |h.free| - 2 && (j != skip || j == i) ==> Gap(Merge(h, i), j)
  {
    hide Linked, Sum, Elements;
    var g := Merge(h, i);
    forall j | 1 <= j < |h.free| - 2 && (j != skip || j == i)
      ensures Gap(g, j)
    {
      assert g.free[j] == if j <= i then h.free[j] else h.free[j + 1];
      assert g.free[j + 1] == if j < i then h.free[j + 1] else h.free[j + 2];
      if j == i {
        assert Gap(h, i + 1);
      } else if j < i {
        assert Gap(h, j);
      } else {
        assert Gap(h, j + 1);
      }
    }
  }

  /** After the upward merge only the block below may touch. */
  lemma RaisedOk(h: Heap, b: int, t: nat)
    requires h.Ok() && b in h.live && Place(h.free, b, t)
    ensures Sound(Raised(h, b, t)) && Raised(h, b, t).live == h.live - {b}
    ensures forall i :: 1 <= i < |Raised(h, b, t).free| - 1 && i != t ==> Gap(Raised(h, b, t), i)
  {
    hide Linked, Sum, Elements, Ascending, Heap.LayoutOk, Heap.Blocks;
    InsertSound(h, b, t);
    InsertNeighbours(h, b, t);
    var g := Insert(h, b, t);
    var n := |h.free|;
    assert g.free[t] == h.free[t] && g.free[t + 1] == b && (t + 1 < n ==> g.free[t + 2] == h.free[t + 1]);
    forall i | 1 <= i < n && i != t && i != t + 1
      ensures Gap(g, i)
    {
      InsertGaps(h, b, t, i);
    }
    FreeInSize(g, t + 1);
    if t + 1 < n && b + h.size[b] == h.free[t + 1] {
      FreeInSize(g, t + 2);
      MergeSound(g, t + 1);
      MergeGaps(g, t + 1, t);
    }
  }

  lemma GapsCoalesced(h: Heap)
    requires forall i :: 1 <= i < |h.free| - 1 ==> Gap(h, i)
    ensures h.Coalesced()
  {
    forall i | 1 <= i < |h.free| - 1
      ensures h.free[i] in h.size && h.free[i] + h.size[h.free[i]] < h.free[i + 1]
    {
      assert Gap(h, i);
    }
  }

  /** free() keeps the heap in order: sound, nothing lost, and fully coalesced again. */
  lemma FreedOk(h: Heap, b: int, t: nat)
    requires h.Ok() && b in h.live && Place(h.free, b, t)
    ensures Freed(h, b, t).Ok() && Freed(h, b, t).live == h.live - {b}
  {
    hide Raised, Linked, Elements;
    RaisedOk(h, b, t);
    InsertNeighbours(h, b, t);
    var g := Raised(h, b, t);
    if h.free[t] + h.size[h.free[t]] == b {
      MergeSound(g, t);
      MergeGaps(g, t, t);
      GapsCoalesced(Merge(g, t));
    } else {
      assert t >= 1 ==> Gap(g, t);
      GapsCoalesced(g);
    }
  }

  // ---- handing out a block ----

  /** Free block j leaves the list whole. */
  ghost function Taken(h: Heap, j: nat): Heap
    requires h.ListOk() && 1 <= j < |h.free|
  {
    assert LinkAt(h.ptr, h.free, j);
    h.(ptr := h.ptr[h.free[j - 1] := h.ptr[h.free[j]]],
       free := h.free[..j] + h.free[j + 1..],
       live := h.live + {h.free[j]})
  }

  lemma TakenGaps(h: Heap, j: nat)
    requires h.Ok() && 1 <= j < |h.free|
    ensures Taken(h, j).Coalesced()
  {
    hide Elements, Sum, Linked, Heap.LayoutOk;
    var g := Taken(h, j);
    forall i | 1 <= i < |g.free| - 1
      ensures g.free[i] in g.size && g.free[i] + g.size[g.free[i]] < g.free[i + 1]
    {
      assert g.free[i] == if i < j then h.free[i] else h.free[i + 1];
      assert g.free[i + 1] == if i + 1 < j then h.free[i + 1] else h.free[i + 2];
      if i == j - 1 {
        assert h.free[i] + h.size[h.free[i]] < h.free[i + 1] < h.free[i + 2];
      }
    }
  }

  lemma TakenOk(h: Heap, j: nat)
    requires h.Ok() && 1 <= j < |h.free|
    ensures Taken(h, j).Ok()
  {
    hide Elements, Sum, Ascending;
    var g := Taken(h, j);
    RemoveAscending(h.free, j);
    RemoveElements(h.free, j);
    assert LinkAt(h.ptr, h.free, j);
    forall i | 0 <= i < |h.free| - 1
      ensures LinkAt(g.ptr, g.free, i)
    {
      RemoveLink(h.ptr, h.free, j, i);
    }
    assert g.Blocks() == h.Blocks();
    TakenGaps(h, j);
  }

  /** The tail of free block j is cut off. */
  ghost function Cut(h: Heap, j: nat, n: int): Heap
    requires j < |h.free| && h.free[j] in h.size
  {
    var x := h.free[j];
    var q := x + h.size[x] - n;
    h.(size := h.size[x := h.size[x] - n][q := n], live := h.live + {q})
  }

  lemma CutGaps(h: Heap, j: nat, n: int)
    requires h.ListOk() && h.Coalesced() && 1 <= j < |h.free| && h.free[j] in h.size && 1 <= n < h.size[h.free[j]]
    requires forall i :: 0 <= i < |h.free| ==> h.free[i] != h.free[j] + h.size[h.free[j]] - n
    ensures Cut(h, j, n).Coalesced()
  {
  }

  lemma CutOk(h: Heap, j: nat, n: int)
    requires h.Ok() && 1 <= j < |h.free| && h.free[j] in h.size && 1 <= n < h.size[h.free[j]]
    ensures Cut(h, j, n).Ok()
    ensures h.free[j] + h.size[h.free[j]] - n !in h.Blocks() && h.free[j] + h.size[h.free[j]] - n != h.base
  {
    hide Elements, Sum, Linked;
    var g := Cut(h, j, n);
    var x := h.free[j];
    var q := x + h.size[x] - n;
    FreeInSize(h, j);
    assert q !in h.Blocks();
    assert g.Blocks() == h.Blocks() + {q};
    var size1 := h.size[x := h.size[x] - n];
    SumUpdate(h.Blocks(), h.size, x, h.size[x] - n);
    SumFrame(h.Blocks(), size1, g.size);
    SumAdd(h.Blocks(), g.size, q);
    CutGaps(h, j, n);
  }

  /** Fresh memory from sbrk, as a block handed out. */
  ghost function Grown(h: Heap, core: int, nu: int): Heap {
    h.(size := h.size[core := nu], live := h.live + {core}, top := core + nu, obtained := h.obtained + nu)
  }

  lemma GrownLayout(h: Heap, core: int, nu: int)
    requires h.LayoutOk() && core >= h.top && nu >= 1
    ensures Grown(h, core, nu).LayoutOk() && core !in h.Blocks() && core != h.base
    ensures Grown(h, core, nu).Blocks() == h.Blocks() + {core}
    ensures forall y :: y in h.Blocks() ==>
              y in h.size && y in Grown(h, core, nu).size && Grown(h, core, nu).size[y] == h.size[y]
  {
    hide Elements;
    var g := Grown(h, core, nu);
    assert core !in h.Blocks();
    assert g.Blocks() == h.Blocks() + {core};
  }

  lemma GrownOk(h: Heap, core: int, nu: int)
    requires h.Ok() && core >= h.top && nu >= 1
    ensures Grown(h, core, nu).Ok()
  {
    hide Elements, Sum, Linked, Ascending;
    var g := Grown(h, core, nu);
    GrownLayout(h, core, nu);
    hide Heap.LayoutOk, Heap.Blocks;
    SumFrame(h.Blocks(), h.size, g.size);
    SumAdd(h.Blocks(), g.size, core);
    forall i | 1 <= i < |h.free| - 1
      ensures h.free[i] in g.size && h.free[i] + g.size[h.free[i]] < h.free[i + 1]
    {
      FreeInSize(h, i);
    }
  }

  /** The units malloc asks for: the bytes rounded up, and a header. The sum is formed in 32 bits. */
  function Units(nbytes: nat): (n: nat)
    ensures 1 <= n <= 0x2000_0000
  {
    (nbytes + 7) % 0x1_0000_0000 / 8 + 1
  }

  /** A block of that many units has room for the request, without a unit to spare, exactly when the
      sum does not wrap; when it does the block is a bare header. */
  lemma UnitsSuffice(nbytes: nat)
    requires nbytes < 0x1_0000_0000
    ensures nbytes <= 8 * (Units(nbytes) - 1) < nbytes + 8 <==> nbytes + 7 < 0x1_0000_0000
    ensures nbytes + 7 >= 0x1_0000_0000 ==> Units(nbytes) == 1
  {
  }

  /** The units morecore asks sbrk for. */
  function Core(nunits: nat): (nu: nat)
    ensures nu >= 4096 && nu >= nunits && (nu == 4096 || nu == nunits)
  {
    if nunits < 4096 then 4096 else nunits
  }

  /** Its argument: a number of bytes formed in 32 bits and passed as an int. */
  function SbrkArg(nu: nat): int {
    var x := 8 * nu % 0x1_0000_0000;
    if x < 0x8000_0000 then x else x - 0x1_0000_0000
  }

  /** sbrk is asked for the memory that malloc goes on to use exactly when the request stays below 2^28 units;
      for any larger one it is asked for less than nothing, or nothing. */
  lemma SbrkAskedIff(nbytes: nat)
    ensures SbrkArg(Core(Units(nbytes))) == 8 * Core(Units(nbytes)) <==> Units(nbytes) < 0x1000_0000
    ensures Units(nbytes) >= 0x1000_0000 ==> SbrkArg(Core(Units(nbytes))) <= 0
  {
    hide Units;
    var nu := Core(Units(nbytes));
    assert 8 * nu <= 0x1_0000_0000;
  }

  /** Some free block has n units or more. */
  ghost predicate Fits(h: Heap, n: int) {
    exists i :: 0 <= i < |h.free| && h.free[i] in h.size && h.size[h.free[i]] >= n
  }

  /** The blocks that are out keep their sizes. */
  ghost predicate SameSizes(live: set<int>, size: map<int, int>, size': map<int, int>) {
    forall x :: x in live ==> x in size && x in size' && size'[x] == size[x]
  }

  lemma SameTwice(live: set<int>, size: map<int, int>, size1: map<int, int>, size2: map<int, int>)
    requires SameSizes(live, size, size1) && SameSizes(live, size1, size2)
    ensures SameSizes(live, size, size2)
  {
  }

  lemma LiveSizes(h: Heap)
    requires h.Ok()
    ensures forall x :: x in h.live ==> x in h.size && h.base < x < h.top
  {
    hide Sum;
    assert forall x :: x in h.live ==> x in h.Blocks();
  }

  lemma SameSelf(h: Heap)
    requires h.Ok()
    ensures SameSizes(h.live, h.size, h.size)
  {
    LiveSizes(h);
  }

  /** None of them overlaps the n units at b. */
  ghost predicate Apart(live: set<int>, size: map<int, int>, b: int, n: int) {
    forall x :: x in live ==> x in size && (x + size[x] <= b || b + n <= x)
  }

  lemma Parts(h: Heap)
    requires h.Ok()
    ensures h.ListOk() && h.LayoutOk()
  {
  }

  lemma FitsAt(h: Heap, i: nat, n: int)
    requires i < |h.free| && h.free[i] in h.size && h.size[h.free[i]] >= n
    ensures Fits(h, n)
  {
  }

  /** The list positions the search has been through: after f, up to and including k. */
  predicate Through(f: nat, k: nat, i: nat) {
    if f <= k then f < i <= k else i > f || i <= k
  }

  ghost predicate Passed(h: Heap, f: nat, k: nat, n: int) {
    forall i :: 0 <= i < |h.free| && Through(f, k, i) ==> h.free[i] in h.size && h.size[h.free[i]] < n
  }

  /** How many positions are left before the search is back at f. */
  function Remaining(f: nat, k: nat, n: nat): int {
    if k >= f then n - k + f else f - k
  }

  /** What next fit takes: the search goes once round the list, from the block after `from`, and the
      first block of n units or more gives its last n; it would go on next time from `next`, the
      block before. */
  ghost predicate NextFit(h: Heap, from: int, b: int, n: int, next: int) {
    exists f: nat, k: nat ::
      && f < |h.free| && h.free[f] == from && k < |h.free| && h.free[k] == next && Passed(h, f, k, n)
      && var p := h.free[Next(k, |h.free|)];
         p in h.size && h.size[p] >= n && b == p + h.size[p] - n
  }

  lemma PassedNone(h: Heap, f: nat, n: int)
    requires f < |h.free|
    ensures Passed(h, f, f, n)
  {
  }

  lemma PassNext(h: Heap, f: nat, k: nat, n: int)
    requires f < |h.free| && k < |h.free| && Passed(h, f, k, n)
    requires h.free[Next(k, |h.free|)] in h.size && h.size[h.free[Next(k, |h.free|)]] < n
    ensures Next(k, |h.free|) != f ==>
              && Passed(h, f, Next(k, |h.free|), n)
              && Remaining(f, Next(k, |h.free|), |h.free|) < Remaining(f, k, |h.free|)
  {
  }

  lemma OneIndex(free: seq<int>, i: nat, j: nat)
    requires Ascending(free) && i < |free| && j < |free| && free[i] == free[j]
    ensures i == j
  {
  }

  /** Back at the start without a find: nothing fits. */
  lemma AllPassed(h: Heap, f: nat, k: nat, n: int)
    requires h.ListOk() && f < |h.free| && k < |h.free| && Passed(h, f, k, n) && h.free[Next(k, |h.free|)] == h.free[f]
    requires h.free[f] in h.size && h.size[h.free[f]] < n
    ensures !Fits(h, n)
  {
    var j := Next(k, |h.free|);
    OneIndex(h.free, j, f);
    forall i | 0 <= i < |h.free| && h.free[i] in h.size
      ensures h.size[h.free[i]] < n
    {
      if i != f {
        assert Through(f, k, i);
      }
    }
  }

  lemma AtLeastBase(h: Heap, k: nat)
    requires h.ListOk() && k < |h.free|
    ensures h.free[k] >= h.base
  {
  }

  lemma LiveBlocks(h: Heap)
    ensures h.live <= h.Blocks()
  {
  }

  lemma FreeNotLive(h: Heap, j: nat)
    requires h.ListOk() && h.LayoutOk() && j < |h.free|
    ensures h.free[j] !in h.live
  {
    if j == 0 {
      assert h.base !in h.Blocks();
    } else {
      assert h.free[j] in Elements(h.free);
    }
  }

  lemma CoreIsNew(h: Heap, core: int)
    requires h.Ok() && core >= h.top
    ensures core !in h.live
  {
    LiveSizes(h);
  }

  lemma LiveApart(h: Heap, b: int)
    requires h.Ok() && b in h.live
    ensures b in h.size && b > h.base
    ensures forall x :: x in h.live && x != b ==> x in h.size && (x + h.size[x] <= b || b + h.size[b] <= x)
  {
    hide Sum;
    assert forall x :: x in h.live ==> x in h.Blocks();
  }

  lemma PSize(h: Heap, t: nat)
    requires h.Ok() && t < |h.free|
    ensures h.free[t] in h.size && h.size[h.free[t]] >= 0
  {
    FreeInSize(h, t);
  }

  lemma StoreOrder(ptr: map<int, int>, b: int, p: int, v: int, w: int)
    requires b != p
    ensures ptr[b := v][p := b][b := w] == ptr[b := w][p := b]
  {
  }

  lemma Link(h: Heap, k: nat)
    requires h.ListOk() && k < |h.free|
    ensures h.free[k] in h.ptr && h.ptr[h.free[k]] == h.free[Next(k, |h.free|)]
  {
    assert LinkAt(h.ptr, h.free, k);
  }

  /** The blocks on either side of a live block. */
  lemma Neighbours(h: Heap, b: int, t: nat)
    requires h.Ok() && b in h.live && Place(h.free, b, t)
    ensures var p, q := h.free[t], h.free[Next(t, |h.free|)];
            && b in h.size && p in h.size && q in h.size && p in h.ptr && q in h.ptr && h.ptr[p] == q
            && h.base <= p < b && q != b && (t + 1 == |h.free| ==> q < b) && (t + 1 < |h.free| ==> q != p)
            && h.size[b] >= 1
  {
    hide Linked, Sum, Elements;
    assert b in h.Blocks();
    FreeInSize(h, t);
    FreeInSize(h, Next(t, |h.free|));
    Link(h, t);
    Link(h, Next(t, |h.free|));
  }

  lemma RaisedCode(h: Heap, b: int, t: nat)
    requires h.Ok() && b in h.live && Place(h.free, b, t)
    ensures var g := Raised(h, b, t);
            var p, q := h.free[t], h.free[Next(t, |h.free|)];
            && b in h.size && p in h.size && q in h.size && q in h.ptr && p != b && p >= h.base
            && var up := b + h.size[b] == q;
               && g.size == (if up then h.size[b := h.size[b] + h.size[q]] else h.size)
               && g.ptr == h.ptr[b := if up then h.ptr[q] else q][p := b]
               && g.base == h.base && g.top == h.top && g.obtained == h.obtained
  {
    Neighbours(h, b, t);
    hide Linked, Sum, Elements, Ascending, Heap.LayoutOk, Heap.Coalesced, Place;
    InsertList(h, b, t);
    var g0 := Insert(h, b, t);
    var p, q := h.free[t], h.free[Next(t, |h.free|)];
    if t + 1 < |h.free| && b + h.size[b] == q {
      assert g0.free[t + 1] == b && g0.free[t + 2] == q;
      StoreOrder(h.ptr, b, p, q, h.ptr[q]);
    }
  }

  /** The stores of free() produce exactly the heap `Freed`. */
  lemma FreedCode(h: Heap, b: int, t: nat)
    requires h.Ok() && b in h.live && Place(h.free, b, t)
    ensures var g := Freed(h, b, t);
            var p, q := h.free[t], h.free[Next(t, |h.free|)];
            && b in h.size && p in h.size && q in h.size && q in h.ptr && p in g.free && p != b && p >= h.base
            && var up := b + h.size[b] == q;
               var size1 := if up then h.size[b := h.size[b] + h.size[q]] else h.size;
               var ptr1 := h.ptr[b := if up then h.ptr[q] else q];
               && g.size == (if p + h.size[p] == b then size1[p := size1[p] + size1[b]] else size1)
               && g.ptr == (if p + h.size[p] == b then ptr1[p := ptr1[b]] else ptr1[p := b])
               && g.base == h.base && g.top == h.top && g.obtained == h.obtained
  {
    hide Linked, Sum, Elements, Raised;
    RaisedCode(h, b, t);
    var g, p := Raised(h, b, t), h.free[t];
    assert p in Freed(h, b, t).free by {
      assert Freed(h, b, t).free[t] == p;
    }
  }

  /** The freed block is on the list, by itself or as part of a larger one. */
  lemma FreedFits(h: Heap, b: int, t: nat)
    requires h.Ok() && b in h.live && Place(h.free, b, t)
    ensures b in h.size && Fits(Freed(h, b, t), h.size[b])
  {
    hide Linked, Sum, Elements, Raised;
    Neighbours(h, b, t);
    FreedCode(h, b, t);
    var g, p := Freed(h, b, t), h.free[t];
    FreeInSize(h, Next(t, |h.free|));
    if p + h.size[p] == b {
      assert g.free[t] == p;
      PSize(h, t);
    } else {
      assert g.free[t + 1] == b;
    }
  }

  /** The two tests of the search stop exactly at the place of the block. */
  lemma Search(h: Heap, b: int, k: nat, t: nat)
    requires h.ListOk() && h.LayoutOk() && b in h.live && k < |h.free| && Place(h.free, b, t)
    ensures var p, q := h.free[k], h.free[Next(k, |h.free|)];
            (p < b < q || (p >= q && (b > p || b < q))) <==> k == t
  {
    assert b in h.Blocks();
    if k != t {
      assert k < t ==> h.free[k] < h.free[k + 1] <= h.free[t];
      assert k > t ==> h.free[t + 1] <= h.free[k];
    }
  }

  /** The blocks that stay live keep their sizes. */
  lemma FreedSizes(h: Heap, b: int, t: nat)
    requires h.Ok() && b in h.live && Place(h.free, b, t)
    ensures forall x :: x in h.live && x != b ==>
              x in h.size && x in Freed(h, b, t).size && Freed(h, b, t).size[x] == h.size[x]
  {
    hide Linked, Sum, Elements, Freed;
    FreedCode(h, b, t);
    FreeInSize(h, t);
    assert forall x :: x in h.live ==> x in h.Blocks();
  }

  /** Every live block has its place in the list. */
  lemma PlaceExists(h: Heap, b: int) returns (t: nat)
    requires h.ListOk() && h.LayoutOk() && b in h.live
    ensures Place(h.free, b, t)
  {
    assert b in h.Blocks() && b !in Elements(h.free);
    t := 0;
    while t + 1 < |h.free| && h.free[t + 1] < b
      invariant t < |h.free| && h.free[t] < b
    {
      t := t + 1;
    }
  }

  class Allocator {
    const base: int
    var ptr: map<int, int>
    var size: map<int, int>
    var freep: int                 // 0 before the first call
    ghost var free: seq<int>
    ghost var live: set<int>
    ghost var top: int
    ghost var obtained: int
    ghost var granted: int         // bytes by which sbrk has moved the break

    ghost function H(): Heap
      reads this
    {
      Heap(base, ptr, size, free, live, top, obtained)
    }

    ghost predicate Valid()
      reads this
    {
      && 0 < base < top
      && if freep == 0 then live == {} && obtained == 0 else H().Ok() && freep in free
    }

    /** Before the first call, with the static base header below the break. */
    constructor (base: int, top: int)
      requires 0 < base < top
      ensures Valid() && this.base == base && this.top == top && freep == 0 && granted == 0
    {
      this.base, this.top := base, top;
      ptr, size, freep, free, live, obtained, granted := map[], map[], 0, [], {}, 0, 0;
    }

    /** The search loop of free(). */
    method FindPlace(bp: int) returns (p: int, ghost k: nat)
      requires Valid() && freep != 0 && bp in live
      ensures Place(free, bp, k) && p == free[k] && p in ptr && ptr[p] == free[Next(k, |free|)]
    {
      hide Linked, Sum, Elements, Ascending, Place, Heap.ListOk, Heap.LayoutOk, Heap.Coalesced;
      p := freep;
      k :| k < |free| && free[k] == freep;
      ghost var t := PlaceExists(H(), bp);
      Link(H(), k);
      while !(bp > p && bp < ptr[p])
        invariant k < |free| && p == free[k] && p in ptr && ptr[p] == free[Next(k, |free|)]
        decreases if k <= t then t - k else |free| - k + t
      {
        Search(H(), bp, k, t);
        if p >= ptr[p] && (bp > p || bp < ptr[p]) {
          break;
        }
        p := ptr[p];
        k := Next(k, |free|);
        Link(H(), k);
      }
      Search(H(), bp, k, t);
    }

    /** The list has a block of n units or more. */
    ghost predicate Has(n: int)
      reads this
    {
      freep != 0 && Fits(H(), n)
    }

    /** Give a block back. The search for its place ends, its neighbours are merged with it if they
        touch, and the heap stays in order; no other block is affected. */
    method Free(ap: int)
      requires Valid() && freep != 0 && ap - 1 in live
      modifies this`ptr, this`size, this`freep, this`free, this`live
      ensures Valid() && freep != 0 && live == old(live) - {ap - 1}
      ensures SameSizes(live, old(size), size)
      ensures ap - 1 in old(size) && Fits(H(), old(size)[ap - 1])
      ensures exists k: nat :: Place(old(free), ap - 1, k) && freep == old(free)[k]
    {
      hide Linked, Sum, Elements, Ascending, Freed, Place, Heap.ListOk, Heap.LayoutOk, Heap.Coalesced;
      var bp := ap - 1;
      ghost var h := H();
      var p;
      ghost var k;
      p, k := FindPlace(bp);
      FreedCode(h, bp, k);
      FreedOk(h, bp, k);
      FreedSizes(h, bp, k);
      FreedFits(h, bp, k);
      if bp + size[bp] == ptr[p] {
        size := size[bp := size[bp] + size[ptr[p]]];
        ptr := ptr[bp := ptr[ptr[p]]];
      } else {
        ptr := ptr[bp := ptr[p]];
      }
      if p + size[p] == bp {
        size := size[p := size[p] + size[bp]];
        ptr := ptr[p := ptr[bp]];
      } else {
        ptr := ptr[p := bp];
      }
      freep := p;
      free, live := Freed(h, bp, k).free, live - {bp};
      assert H() == Freed(h, bp, k);
    }

    /** Get memory from sbrk and free it into the heap; 0 when there is none. `core` is what sbrk
        returns: -1, or an address above everything obtained before. */
    method Morecore(nunits: int, core: int) returns (p: int)
      requires Valid() && freep != 0 && nunits >= 1 && (core == -1 || core >= top)
      modifies this`ptr, this`size, this`freep, this`free, this`live, this`top, this`obtained, this`granted
      ensures Valid() && freep != 0 && live == old(live)
      ensures p == 0 <==> core == -1
      ensures p == 0 ==> H() == old(H()) && freep == old(freep) && granted == old(granted)
      ensures p != 0 ==>
                && p == freep && Fits(H(), nunits) && obtained == old(obtained) + Core(nunits)
                && granted == old(granted) + SbrkArg(Core(nunits))
      ensures SameSizes(live, old(size), size)
    {
      hide Linked, Sum, Elements, Ascending, Heap.ListOk, Heap.Coalesced;
      LiveSizes(H());
      var nu := Core(nunits);
      if core == -1 {
        return 0;
      }
      GrownOk(H(), core, nu);
      CoreIsNew(H(), core);
      size := size[core := nu];
      live, top, obtained, granted := live + {core}, core + nu, obtained + nu, granted + SbrkArg(nu);
      Free(core + 1);
      assert live == old(live);
      return freep;
    }

    /** The first call sets up an empty list. */
    method Start()
      requires Valid()
      modifies this`ptr, this`size, this`freep, this`free
      ensures Valid() && freep != 0
      ensures old(freep) != 0 ==> H() == old(H()) && freep == old(freep)
      ensures old(freep) == 0 ==> forall n :: n >= 1 ==> !Fits(H(), n)
      ensures obtained == old(obtained) && granted == old(granted)
      ensures SameSizes(live, old(size), size)
    {
      if freep == 0 {
        ptr := ptr[base := base];
        freep := base;
        size := size[base := 0];
        free := [base];
        assert LinkAt(ptr, free, 0);
        assert H().Blocks() == {};
      } else {
        LiveSizes(H());
      }
    }

    /** Take a large enough block off the list, or cut the tail off it. */
    method HandOut(prevp: int, p: int, nunits: int, ghost k: nat) returns (r: int)
      requires Valid() && freep != 0 && k < |free| && prevp == free[k] && p == free[Next(k, |free|)]
      requires p in size && size[p] >= nunits >= 1
      modifies this`ptr, this`size, this`freep, this`free, this`live
      ensures Valid() && freep != 0 && r != 0
      ensures r - 1 !in old(live) && live == old(live) + {r - 1} && r - 1 in size && size[r - 1] == nunits
      ensures SameSizes(old(live), old(size), size) && Apart(old(live), size, r - 1, nunits)
      ensures r - 1 == p + old(size)[p] - nunits && freep == prevp
    {
      hide Linked, Sum, Elements, Ascending, Heap.LayoutOk, Heap.Coalesced;
      ghost var h := H();
      ghost var j := Next(k, |free|);
      FreeInSize(h, j);
      FreeNotLive(h, j);
      AtLeastBase(h, k);
      LiveSizes(h);
      Link(h, k);
      Link(h, j);
      assert j == k + 1;
      if size[p] == nunits {
        TakenOk(h, j);
        ptr := ptr[prevp := ptr[p]];
        free, live := free[..j] + free[j + 1..], live + {p};
        freep := prevp;
        assert free[k] == prevp;
        assert H() == Taken(h, j);
        LiveApart(H(), p);
        return p + 1;
      } else {
        CutOk(h, j, nunits);
        LiveBlocks(h);
        size := size[p := size[p] - nunits];
        var q := p + size[p];
        size := size[q := nunits];
        live := live + {q};
        freep := prevp;
        assert H() == Cut(h, j, nunits);
        LiveApart(H(), q);
        return q + 1;
      }
    }

    /** The search of malloc, which goes round the list at most twice: once memory has been obtained a block is
        found. It goes to sbrk exactly when nothing on the list is large enough, and finds nothing exactly when sbrk
        then has none. */
    method GoRound(nunits: nat, core: int) returns (ok: bool, prevp: int, p: int, ghost k: nat)
      requires Valid() && freep != 0 && nunits >= 1 && (core == -1 || core >= top)
      modifies this`ptr, this`size, this`freep, this`free, this`live, this`top, this`obtained, this`granted
      ensures Valid() && freep != 0 && live == old(live) && SameSizes(live, old(size), size)
      ensures ok ==>
                && k < |free| && prevp == free[k] && p == free[Next(k, |free|)]
                && p in size && size[p] >= nunits
                && exists f: nat :: f < |free| && free[f] == freep && Passed(H(), f, k, nunits)
      ensures ok && old(Fits(H(), nunits)) ==> freep == old(freep)
      ensures !ok ==> core == -1 && !Fits(H(), nunits)
      ensures if ok && !old(Fits(H(), nunits))
              then core != -1 && obtained == old(obtained) + Core(nunits)
                   && granted == old(granted) + SbrkArg(Core(nunits))
              else H() == old(H()) && granted == old(granted)
    {
      hide Heap.Ok, Heap.ListOk, Heap.LayoutOk, Fits, SbrkArg, Core, Next, Passed, SameSizes;
      ghost var h := H();
      prevp := freep;
      ghost var f: nat :| f < |free| && free[f] == freep;
      k := f;
      ghost var grown := false;
      PassedNone(H(), f, nunits);
      Parts(H());
      SameSelf(H());
      Link(H(), k);
      p := ptr[prevp];
      while true
        invariant Valid() && freep != 0 && live == old(live)
        invariant !grown ==> H() == h && granted == old(granted) && freep == old(freep)
        invariant grown ==> !Fits(h, nunits)
        invariant grown ==> obtained == old(obtained) + Core(nunits) && granted == old(granted) + SbrkArg(Core(nunits))
        invariant f < |free| && k < |free| && freep == free[f] && prevp == free[k] && p == free[Next(k, |free|)]
        invariant Passed(H(), f, k, nunits)
        invariant grown ==> core != -1 && Fits(H(), nunits)
        invariant SameSizes(live, old(size), size)
        decreases !grown, Remaining(f, k, |free|)
      {
        Parts(H());
        FreeInSize(H(), Next(k, |free|));
        if size[p] >= nunits {
          FitsAt(H(), Next(k, |free|), nunits);
          return true, prevp, p, k;
        }
        PassNext(H(), f, k, nunits);
        if p == freep {
          AllPassed(H(), f, k, nunits);
          if grown {
            assert false;
          }
          ghost var sizes := size;
          p := Morecore(nunits, core);
          SameTwice(live, old(size), sizes, size);
          if p == 0 {
            return false, prevp, p, k;
          }
          grown := true;
          f :| 0 <= f < |free| && free[f] == freep;
          k := f;
          PassedNone(H(), f, nunits);
        } else {
          k := Next(k, |free|);
        }
        prevp := p;
        Parts(H());
        Link(H(), k);
        p := ptr[p];
      }
    }

    /** malloc for a number of units. */
    method Find(nunits: nat, core: int) returns (r: int)
      requires Valid() && nunits >= 1 && (core == -1 || core >= top)
      modifies this`ptr, this`size, this`freep, this`free, this`live, this`top, this`obtained, this`granted
      ensures Valid() && freep != 0
      ensures r == 0 <==> core == -1 && !old(Has(nunits))
      ensures r == 0 ==> live == old(live) && !Fits(H(), nunits)
      ensures r != 0 ==>
                && r - 1 !in old(live) && live == old(live) + {r - 1} && r - 1 in size && size[r - 1] == nunits
                && Apart(old(live), size, r - 1, nunits)
      ensures old(Has(nunits)) ==> NextFit(old(H()), old(freep), r - 1, nunits, freep)
      ensures SameSizes(old(live), old(size), size)
      ensures core == -1 || old(Has(nunits)) ==> obtained == old(obtained) && granted == old(granted)
      ensures core != -1 && !old(Has(nunits)) ==>
                obtained == old(obtained) + Core(nunits) && granted == old(granted) + SbrkArg(Core(nunits))
    {
      hide Heap.Ok, Fits, SbrkArg, Core, Next, SameSizes, Apart;
      Start();
      ghost var sizes := size;
      var ok, prevp, p;
      ghost var k;
      ok, prevp, p, k := GoRound(nunits, core);
      SameTwice(live, old(size), sizes, size);
      if !ok {
        return 0;
      }
      sizes := size;
      r := HandOut(prevp, p, nunits, k);
      SameTwice(old(live), old(size), sizes, size);
    }

    /** Hand out a block of the units asked for. It overlaps no block that is out already, those keep
        their sizes, and the heap stays in order. The search goes round the list at most twice: once
        memory has been obtained a block is found. It goes to sbrk exactly when nothing on the list is
        large enough, and fails exactly when sbrk then does; otherwise it takes the end of the next block
        that fits. Units taken into the heap are matched by
        bytes from sbrk exactly when sbrk has none, the list has a block, or the request is below 2^28
        units. */
    method Malloc(nbytes: nat, core: int) returns (r: int)
      requires Valid() && (core == -1 || core >= top)
      modifies this`ptr, this`size, this`freep, this`free, this`live, this`top, this`obtained, this`granted
      ensures Valid() && freep != 0
      ensures r == 0 <==> core == -1 && !old(Has(Units(nbytes)))
      ensures r == 0 ==> live == old(live) && !Fits(H(), Units(nbytes))
      ensures r != 0 ==>
                && r - 1 !in old(live) && live == old(live) + {r - 1}
                && r - 1 in size && size[r - 1] == Units(nbytes)
                && Apart(old(live), size, r - 1, Units(nbytes))
      ensures old(Has(Units(nbytes))) ==> NextFit(old(H()), old(freep), r - 1, Units(nbytes), freep)
      ensures SameSizes(old(live), old(size), size)
      ensures obtained
              == old(obtained) + if core == -1 || old(Has(Units(nbytes))) then 0 else Core(Units(nbytes))
      ensures granted - old(granted) == 8 * (obtained - old(obtained)) <==>
              core == -1 || old(Has(Units(nbytes))) || Units(nbytes) < 0x1000_0000
    {
      hide Units, SbrkArg, Heap.ListOk, Heap.LayoutOk, Heap.Coalesced, Fits;
      SbrkAskedIff(nbytes);
      r := Find(Units(nbytes), core);
    }
  }
}
