/** The buffer cache of bio.c: NBUF buffers on a doubly linked list in order of last
    release, in front of a disk (memide.c).

    Each method is one atomic step: a critical section of bcache.lock, or an access by
    the process that holds the buffer's sleep lock. Processes may interleave the steps
    in any way the preconditions allow; `Valid` is what every interleaving keeps.
 */
module Bio {
  import opened Blocks
  import opened Sets

  const NBUF: nat := 30
  const HEAD: nat := 30        // the list head, next to buffers 0 to NBUF - 1

  datatype Key = Key(dev: nat, blockno: nat)

  datatype Buf = Buf(key: Key, valid: bool, dirty: bool, refcnt: nat, data: Block)

  // ---- the linked list ----

  /** The i-th node of the ring that runs from the head through lru and back. */
  function Ring(lru: seq<nat>, i: int): nat {
    if 0 <= i < |lru| then lru[i] else HEAD
  }

  /** Nodes i - 1 and i of the ring point at each other. */
  ghost predicate Joined(next: seq<nat>, prev: seq<nat>, lru: seq<nat>, i: nat) {
    var a, b := Ring(lru, i - 1), Ring(lru, i);
    a < |next| && b < |prev| && next[a] == b && prev[b] == a
  }

  /** The pointers form the ring of lru, which lists distinct buffers. */
  ghost predicate Threaded(next: seq<nat>, prev: seq<nat>, lru: seq<nat>) {
    && |next| == NBUF + 1 && |prev| == NBUF + 1
    && Distinct(lru)
    && (forall i :: 0 <= i < |lru| ==> lru[i] < NBUF)
    && forall i :: 0 <= i <= |lru| ==> Joined(next, prev, lru, i)
  }

  /** A node taken out of the ring: its neighbours point past it. */
  ghost function Without(lru: seq<nat>, k: nat): seq<nat>
    requires k < |lru|
  {
    lru[..k] + lru[k + 1..]
  }

  lemma UnlinkThreaded(next: seq<nat>, prev: seq<nat>, lru: seq<nat>, k: nat)
    requires Threaded(next, prev, lru) && k < |lru|
    ensures var b := lru[k];
            next[b] <= NBUF && prev[b] <= NBUF
            && Threaded(next[prev[b] := next[b]], prev[next[b] := prev[b]], Without(lru, k))
  {
    var b, rest := lru[k], Without(lru, k);
    assert Joined(next, prev, lru, k) && Joined(next, prev, lru, k + 1);
    var next', prev' := next[prev[b] := next[b]], prev[next[b] := prev[b]];
    assert forall i :: 0 <= i < |rest| ==> rest[i] == if i < k then lru[i] else lru[i + 1];
    forall i | 0 <= i <= |rest|
      ensures Joined(next', prev', rest, i)
    {
      assert Ring(rest, i - 1) == if i - 1 < k then Ring(lru, i - 1) else Ring(lru, i);
      assert Ring(rest, i) == if i < k then Ring(lru, i) else Ring(lru, i + 1);
      if i < k {
        assert Joined(next, prev, lru, i);
      } else if i > k {
        assert Joined(next, prev, lru, i + 1);
      }
    }
  }

  lemma PushThreaded(next: seq<nat>, prev: seq<nat>, lru: seq<nat>, b: nat)
    requires Threaded(next, prev, lru) && b < NBUF && b !in lru
    ensures var first := next[HEAD];
            first <= NBUF
            && Threaded(next[b := first][HEAD := b], prev[b := HEAD][first := b], [b] + lru)
  {
    assert Joined(next, prev, lru, 0);
    var first, lru' := next[HEAD], [b] + lru;
    var next', prev' := next[b := first][HEAD := b], prev[b := HEAD][first := b];
    forall i | 0 <= i <= |lru'|
      ensures Joined(next', prev', lru', i)
    {
      assert Ring(lru', i) == if i == 0 then b else Ring(lru, i - 1);
      if i >= 2 {
        assert Joined(next, prev, lru, i - 1);
      }
    }
  }

  // ---- what the cache means ----

  /** The buffer that caches block n of device 1, or -1. */
  ghost function Cached(bufs: seq<Buf>, n: nat): (c: int)
    ensures -1 <= c < |bufs| && (c >= 0 ==> bufs[c].valid && bufs[c].key == Key(1, n))
    ensures c == -1 ==> forall b :: 0 <= b < |bufs| ==> !(bufs[b].valid && bufs[b].key == Key(1, n))
  {
    if bufs == [] then -1
    else
      var m := |bufs| - 1;
      if bufs[m].valid && bufs[m].key == Key(1, n) then m else Cached(bufs[..m], n)
  }

  /** Block n as the file system sees it. */
  ghost function Seen(bufs: seq<Buf>, disk: Disk, n: nat): Block
    requires n < |disk|
  {
    var c := Cached(bufs, n);
    if c >= 0 then bufs[c].data else disk[n]
  }

  /** At most one buffer holds a given block; all of them start out with key (0, 0). */
  ghost predicate Unique(bufs: seq<Buf>) {
    forall a, b :: 0 <= a < b < |bufs| && bufs[a].key == bufs[b].key ==> bufs[a].key == Key(0, 0)
  }

  lemma SeenCached(bufs: seq<Buf>, disk: Disk, b: nat)
    requires Unique(bufs) && b < |bufs| && bufs[b].valid && bufs[b].key.dev == 1 && bufs[b].key.blockno < |disk|
    ensures Seen(bufs, disk, bufs[b].key.blockno) == bufs[b].data
  {
  }

  /** Changing one buffer matters only for the blocks it holds before and after. */
  lemma SeenOther(bufs: seq<Buf>, disk: Disk, b: nat, x: Buf, n: nat)
    requires b < |bufs| && Unique(bufs) && Unique(bufs[b := x]) && n < |disk|
    requires !(bufs[b].valid && bufs[b].key == Key(1, n)) && !(x.valid && x.key == Key(1, n))
    ensures Seen(bufs[b := x], disk, n) == Seen(bufs, disk, n)
  {
    var c, c' := Cached(bufs, n), Cached(bufs[b := x], n);
    if c >= 0 {
      assert bufs[b := x][c] == bufs[c];
    }
    if c' >= 0 {
      assert bufs[b := x][c'] == bufs[c'];
    }
  }

  predicate Eligible(x: Buf) {
    x.refcnt == 0 && !x.dirty
  }

  /** `touched`: changed since it was locked or written, whichever came last. */
  ghost predicate BufOk(x: Buf, holder: nat, touched: bool, refs: multiset<nat>, disk: Disk) {
    && x.refcnt == |refs|
    && (holder != 0 ==> holder in refs)
    && (x.dirty ==> x.valid)
    && (x.valid ==> x.key.dev == 1 && x.key.blockno < |disk|)
    && (x.valid && !x.dirty && (holder == 0 || !touched) ==> x.data == disk[x.key.blockno])
  }

  lemma RefMore(x: Buf, holder: nat, touched: bool, refs: multiset<nat>, disk: Disk, pid: nat)
    requires BufOk(x, holder, touched, refs, disk)
    ensures BufOk(x.(refcnt := x.refcnt + 1), holder, touched, refs + multiset{pid}, disk)
  {
  }

  datatype Got = Got(b: nat) | NoBuffers

  /** How bread ends: with a locked buffer, still waiting for its lock, or in a panic of bget or of iderw. */
  datatype Reading = Have(b: nat) | Waiting | NoRoom | BadBlock

  /** What a process does to a buffer it refers to. */
  datatype Do = Take | Read | Change(data: Block) | LogIt | WriteIt | Leave | Forget

  /** A step of a process: bget, or one of those. */
  datatype Act = Look(pid: nat, dev: nat, blockno: nat) | On(pid: nat, b: nat, do: Do)

  /** The step changes the data of buffer b. */
  predicate Alters(a: Act, b: nat) {
    a.On? && a.b == b && a.do.Change?
  }

  ghost predicate NoneAlters(acts: seq<Act>, b: nat) {
    forall i :: 0 <= i < |acts| ==> !Alters(acts[i], b)
  }

  /** What the buffer holds is still there. */
  ghost predicate Intact(x: Buf, y: Buf) {
    x.valid ==> y.valid && y.data == x.data
  }

  lemma IntactSelf(bufs: seq<Buf>)
    ensures forall x :: 0 <= x < |bufs| ==> Intact(bufs[x], bufs[x])
  {
  }

  /** A buffer that somebody holds: only its reference count has changed, and its block on disk has not. */
  ghost predicate Kept(x: Buf, y: Buf, tx: bool, ty: bool, d: Disk, e: Disk) {
    && y == x.(refcnt := y.refcnt) && tx == ty
    && (x.key.blockno < |d| && |d| == |e| && x.valid ==> e[x.key.blockno] == d[x.key.blockno])
  }

  /** A new stamp at the front keeps the order of release. */
  lemma StampsFront(lru: seq<nat>, stamp: seq<int>, clock: int, k: nat)
    requires |lru| == NBUF && |stamp| == NBUF && k < NBUF && Distinct(lru)
             && (forall i :: 0 <= i < NBUF ==> lru[i] < NBUF)
    requires forall i, j :: 0 <= i < j < NBUF ==> stamp[lru[i]] > stamp[lru[j]]
    requires forall b :: 0 <= b < NBUF ==> stamp[b] < clock
    ensures var lru', stamp' := [lru[k]] + Without(lru, k), stamp[lru[k] := clock];
            forall i, j :: 0 <= i < j < NBUF ==> stamp'[lru'[i]] > stamp'[lru'[j]]
  {
    var lru' := [lru[k]] + Without(lru, k);
    assert forall i :: 0 <= i < NBUF ==> lru'[i] == if i == 0 then lru[k] else if i <= k then lru[i - 1] else lru[i];
  }

  /** Every buffer is somewhere on a list of NBUF distinct ones. */
  lemma Position(lru: seq<nat>, b: nat) returns (k: nat)
    requires |lru| == NBUF && Distinct(lru) && (forall i :: 0 <= i < NBUF ==> lru[i] < NBUF) && b < NBUF
    ensures k < NBUF && lru[k] == b
  {
    if forall i :: 0 <= i < NBUF ==> lru[i] != b {
      Pigeons(lru, NBUF, b);
    }
    k :| k < NBUF && lru[k] == b;
  }

  /** What is seen depends on keys, validity and data only. */
  lemma SeenSame(bufs: seq<Buf>, bufs': seq<Buf>, disk: Disk, n: nat)
    requires |bufs| == |bufs'| && Unique(bufs) && n < |disk|
    requires forall b :: 0 <= b < |bufs| ==>
               bufs'[b].key == bufs[b].key && bufs'[b].valid == bufs[b].valid && bufs'[b].data == bufs[b].data
    ensures Seen(bufs', disk, n) == Seen(bufs, disk, n)
  {
  }

  lemma SeenRefcnt(bufs: seq<Buf>, disk: Disk, b: nat, r: nat)
    requires b < |bufs| && Unique(bufs)
    ensures Unique(bufs[b := bufs[b].(refcnt := r)])
    ensures forall n :: 0 <= n < |disk| ==> Seen(bufs[b := bufs[b].(refcnt := r)], disk, n) == Seen(bufs, disk, n)
  {
    var bufs' := bufs[b := bufs[b].(refcnt := r)];
    forall n | 0 <= n < |disk|
      ensures Seen(bufs', disk, n) == Seen(bufs, disk, n)
    {
      SeenSame(bufs, bufs', disk, n);
    }
  }

  lemma SeenFlags(bufs: seq<Buf>, disk: Disk, b: nat, dirty: bool)
    requires b < |bufs| && Unique(bufs)
    ensures Unique(bufs[b := bufs[b].(dirty := dirty)])
    ensures forall n :: 0 <= n < |disk| ==> Seen(bufs[b := bufs[b].(dirty := dirty)], disk, n) == Seen(bufs, disk, n)
  {
    var bufs' := bufs[b := bufs[b].(dirty := dirty)];
    forall n | 0 <= n < |disk|
      ensures Seen(bufs', disk, n) == Seen(bufs, disk, n)
    {
      SeenSame(bufs, bufs', disk, n);
    }
  }

  /** Recycling a clean buffer hides nothing: the disk has its data. */
  lemma SeenRecycled(bufs: seq<Buf>, disk: Disk, b: nat, x: Buf)
    requires b < |bufs| && Unique(bufs) && !x.valid && forall c :: 0 <= c < |bufs| ==> bufs[c].key != x.key
    requires bufs[b].valid ==>
              bufs[b].key.dev == 1 && bufs[b].key.blockno < |disk| && bufs[b].data == disk[bufs[b].key.blockno]
    ensures Unique(bufs[b := x])
    ensures forall n :: 0 <= n < |disk| ==> Seen(bufs[b := x], disk, n) == Seen(bufs, disk, n)
  {
    forall n | 0 <= n < |disk|
      ensures Seen(bufs[b := x], disk, n) == Seen(bufs, disk, n)
    {
      if bufs[b].valid && bufs[b].key == Key(1, n) {
        SeenCached(bufs, disk, b);
        assert Cached(bufs[b := x], n) == -1;
      } else {
        SeenOther(bufs, disk, b, x, n);
      }
    }
  }

  lemma SeenFilled(bufs: seq<Buf>, disk: Disk, b: nat, x: Buf)
    requires b < |bufs| && Unique(bufs) && !bufs[b].valid && bufs[b].key.dev == 1 && bufs[b].key.blockno < |disk|
    requires x == bufs[b].(valid := true, data := disk[bufs[b].key.blockno])
    ensures Unique(bufs[b := x]) && x.data == Seen(bufs, disk, x.key.blockno)
    ensures forall n :: 0 <= n < |disk| ==> Seen(bufs[b := x], disk, n) == Seen(bufs, disk, n)
  {
    forall n | 0 <= n < |disk|
      ensures Seen(bufs[b := x], disk, n) == Seen(bufs, disk, n)
    {
      if n == x.key.blockno {
        SeenCached(bufs[b := x], disk, b);
        assert Cached(bufs, n) == -1;
      } else {
        SeenOther(bufs, disk, b, x, n);
      }
    }
    assert Cached(bufs, x.key.blockno) == -1;
  }

  lemma SeenModified(bufs: seq<Buf>, disk: Disk, b: nat, data: Block)
    requires b < |bufs| && Unique(bufs) && bufs[b].valid && bufs[b].key.dev == 1 && bufs[b].key.blockno < |disk|
    ensures var bufs' := bufs[b := bufs[b].(data := data)];
            Unique(bufs') && forall n :: 0 <= n < |disk| ==>
              Seen(bufs', disk, n) == if n == bufs[b].key.blockno then data else Seen(bufs, disk, n)
  {
    var x := bufs[b].(data := data);
    forall n | 0 <= n < |disk|
      ensures Seen(bufs[b := x], disk, n) == if n == bufs[b].key.blockno then data else Seen(bufs, disk, n)
    {
      if n == bufs[b].key.blockno {
        SeenCached(bufs[b := x], disk, b);
      } else {
        SeenOther(bufs, disk, b, x, n);
      }
    }
  }

  /** Writing a cached block through changes nothing that is seen. */
  lemma SeenWritten(bufs: seq<Buf>, disk: Disk, b: nat)
    requires b < |bufs| && Unique(bufs) && bufs[b].valid && bufs[b].key.dev == 1 && bufs[b].key.blockno < |disk|
    ensures var disk' := disk[bufs[b].key.blockno := bufs[b].data];
            forall n :: 0 <= n < |disk| ==> Seen(bufs, disk', n) == Seen(bufs, disk, n)
  {
    SeenCached(bufs, disk, b);
  }

  class Cache {
    var bufs: seq<Buf>
    var next: seq<nat>
    var prev: seq<nat>
    var disk: Disk
    var holder: seq<nat>                 // who holds each buffer's sleep lock; 0 for nobody
    var refs: seq<multiset<nat>>         // who has a reference to each buffer
    var touched: seq<bool>               // which the holder has changed since it got the lock or wrote it
    ghost var lru: seq<nat>              // the list from head.next on
    ghost var stamp: seq<int>            // when each buffer was last released by everybody
    ghost var clock: int

    ghost predicate ListOk()
      reads this`next, this`prev, this`lru, this`stamp, this`clock
    {
      && Threaded(next, prev, lru) && |lru| == NBUF && |stamp| == NBUF
      && (forall i, j :: 0 <= i < j < NBUF ==> stamp[lru[i]] > stamp[lru[j]])
      && (forall b :: 0 <= b < NBUF ==> stamp[b] < clock)
    }

    /** The list is a permutation of all buffers in order of last release, no block is cached twice,
        and a valid, clean buffer agrees with the disk unless its holder is changing it. */
    ghost predicate Valid()
      reads this
    {
      && ListOk() && |bufs| == NBUF && |holder| == NBUF && |refs| == NBUF && |touched| == NBUF
      && Unique(bufs)
      && forall b :: 0 <= b < NBUF ==> BufOk(bufs[b], holder[b], touched[b], refs[b], disk)
    }

    /** The whole disk as the file system sees it. */
    ghost predicate SameView(bufs0: seq<Buf>, disk0: Disk)
      reads this
    {
      |disk| == |disk0| && forall n :: 0 <= n < |disk| ==> Seen(bufs, disk, n) == Seen(bufs0, disk0, n)
    }

    /** The last four pointer stores of brelse, which binit makes too. */
    method PushFront(b: nat)
      requires |next| == NBUF + 1 && |prev| == NBUF + 1 && b < NBUF && next[HEAD] <= NBUF
      modifies this`next, this`prev, this`lru
      ensures next == old(next)[b := old(next)[HEAD]][HEAD := b]
      ensures prev == old(prev)[b := HEAD][old(next)[HEAD] := b]
      ensures lru == [b] + old(lru)
    {
      next := next[b := next[HEAD]];
      prev := prev[b := HEAD];
      prev := prev[next[HEAD] := b];
      next := next[HEAD := b];
      lru := [b] + lru;
    }

    /** Link the buffers, the last one first. */
    method Init(d: Disk)
      modifies this
      ensures Valid() && disk == d
      ensures forall b :: 0 <= b < NBUF ==> bufs[b].refcnt == 0 && !bufs[b].valid && !bufs[b].dirty
    {
      next := seq(NBUF + 1, _ => HEAD);
      prev := seq(NBUF + 1, _ => HEAD);
      lru := [];
      assert Joined(next, prev, lru, 0);
      for b := 0 to NBUF
        invariant Threaded(next, prev, lru) && |lru| == b
        invariant forall i :: 0 <= i < b ==> lru[i] == b - 1 - i
      {
        PushThreaded(next, prev, lru, b);
        PushFront(b);
      }
      disk := d;
      bufs := seq(NBUF, _ => Buf(Key(0, 0), false, false, 0, ZeroBlock()));
      holder := seq(NBUF, _ => 0);
      refs := seq(NBUF, _ => multiset{});
      touched := seq(NBUF, _ => false);
      stamp := seq(NBUF, b => b);
      clock := NBUF;
    }

    /** A buffer that holds the block gets one more reference. */
    method Hit(b: nat, pid: nat)
      requires Valid() && b < NBUF
      modifies this`bufs, this`refs
      ensures Valid() && SameView(old(bufs), old(disk)) && refs == old(refs)[b := old(refs)[b] + multiset{pid}]
      ensures bufs == old(bufs)[b := old(bufs)[b].(refcnt := old(bufs)[b].refcnt + 1)]
    {
      hide Cached, Seen, Cache.ListOk, Unique, BufOk;
      SeenRefcnt(bufs, disk, b, bufs[b].refcnt + 1);
      RefMore(bufs[b], holder[b], touched[b], refs[b], disk, pid);
      refs := refs[b := refs[b] + multiset{pid}];
      bufs := bufs[b := bufs[b].(refcnt := bufs[b].refcnt + 1)];
    }

    /** An eligible buffer is given to another block. */
    method Recycle(b: nat, k: Key, pid: nat)
      requires Valid() && b < NBUF && Eligible(bufs[b]) && forall c :: 0 <= c < NBUF ==> bufs[c].key != k
      modifies this`bufs, this`refs
      ensures Valid() && SameView(old(bufs), old(disk)) && refs == old(refs)[b := old(refs)[b] + multiset{pid}]
      ensures bufs == old(bufs)[b := Buf(k, false, false, 1, old(bufs)[b].data)]
    {
      hide Cached, Seen, Cache.ListOk;
      var x := Buf(k, false, false, 1, bufs[b].data);
      SeenRecycled(bufs, disk, b, x);
      refs := refs[b := refs[b] + multiset{pid}];
      bufs := bufs[b := x];
    }

    /** The first scan of bget, from the most recently released buffer. */
    method Lookup(k: Key) returns (b: nat)
      requires Valid()
      ensures b != HEAD ==> b < NBUF && bufs[b].key == k
      ensures b == HEAD ==> forall c :: 0 <= c < NBUF ==> bufs[c].key != k
    {
      assert Joined(next, prev, lru, 0);
      b := next[HEAD];
      ghost var i: nat := 0;
      while b != HEAD
        invariant i <= NBUF && b == Ring(lru, i)
        invariant forall j :: 0 <= j < i ==> bufs[lru[j]].key != k
        decreases NBUF - i
      {
        if bufs[b].key == k {
          return;
        }
        assert Joined(next, prev, lru, i + 1);
        b := next[b];
        i := i + 1;
      }
      assert i == NBUF;
      forall c | 0 <= c < NBUF
        ensures bufs[c].key != k
      {
        var j := Position(lru, c);
      }
    }

    /** The second scan of bget, from the buffer released longest ago. */
    method Victim() returns (b: nat)
      requires Valid()
      ensures b != HEAD ==> b < NBUF && Eligible(bufs[b])
      ensures b != HEAD ==> forall c :: 0 <= c < NBUF && Eligible(bufs[c]) ==> stamp[b] <= stamp[c]
      ensures b == HEAD ==> forall c :: 0 <= c < NBUF ==> !Eligible(bufs[c])
    {
      assert Joined(next, prev, lru, NBUF);
      b := prev[HEAD];
      ghost var i: int := NBUF - 1;
      while b != HEAD
        invariant -1 <= i < NBUF && b == Ring(lru, i)
        invariant forall j :: i < j < NBUF ==> !Eligible(bufs[lru[j]])
        decreases i + 1
      {
        if Eligible(bufs[b]) {
          forall c | 0 <= c < NBUF && Eligible(bufs[c])
            ensures stamp[b] <= stamp[c]
          {
            var j := Position(lru, c);
          }
          return;
        }
        assert Joined(next, prev, lru, i);
        b := prev[b];
        i := i - 1;
      }
      assert i == -1;
      forall c | 0 <= c < NBUF
        ensures !Eligible(bufs[c])
      {
        var j := Position(lru, c);
      }
    }

    /** bget up to the sleep lock: find the block or recycle a buffer for it. A block that is cached
        is found. Otherwise the buffer taken is the one released longest ago among those that nobody
        refers to and that are not dirty; the file system sees no change; and every other buffer
        stays as it is. */
    method Get(dev: nat, blockno: nat, pid: nat) returns (r: Got)
      requires Valid()
      modifies this`bufs, this`refs
      ensures r == NoBuffers <==>
                forall b :: 0 <= b < NBUF ==>
                              old(bufs)[b].key != Key(dev, blockno) && (old(bufs)[b].refcnt > 0 || old(bufs)[b].dirty)
      ensures r == NoBuffers ==> bufs == old(bufs) && refs == old(refs)
      ensures r.Got? ==>
                && Valid() && r.b < NBUF && SameView(old(bufs), old(disk))
                && bufs[r.b].key == Key(dev, blockno) && refs == old(refs)[r.b := old(refs)[r.b] + multiset{pid}]
                && (forall b :: 0 <= b < NBUF && b != r.b ==> bufs[b] == old(bufs)[b])
      ensures r.Got? && (exists b :: 0 <= b < NBUF && old(bufs)[b].key == Key(dev, blockno)) ==>
                && old(bufs)[r.b].key == Key(dev, blockno)
                && bufs[r.b] == old(bufs)[r.b].(refcnt := old(bufs)[r.b].refcnt + 1)
      ensures r.Got? && (forall b :: 0 <= b < NBUF ==> old(bufs)[b].key != Key(dev, blockno)) ==>
                && old(bufs)[r.b].refcnt == 0 && !old(bufs)[r.b].dirty
                && bufs[r.b] == Buf(Key(dev, blockno), false, false, 1, old(bufs)[r.b].data)
                && (forall b :: 0 <= b < NBUF && old(bufs)[b].refcnt == 0 && !old(bufs)[b].dirty ==>
                      stamp[r.b] <= stamp[b])
    {
      hide Cached, Seen, Cache.ListOk, BufOk, Unique;
      var k := Key(dev, blockno);
      var b := Lookup(k);
      if b != HEAD {
        Hit(b, pid);
        return Got(b);
      }
      b := Victim();
      if b != HEAD {
        Recycle(b, k, pid);
        return Got(b);
      }
      return NoBuffers;
    }

    /** A process with a reference gets the sleep lock. */
    method Lock(b: nat, pid: nat)
      requires Valid() && b < NBUF && holder[b] == 0 && pid != 0 && pid in refs[b]
      modifies this`holder, this`touched
      ensures Valid() && holder == old(holder)[b := pid] && touched == old(touched)[b := false]
    {
      holder, touched := holder[b := pid], touched[b := false];
    }

    /** The rest of bread: read the block unless it is there already; false is a panic of iderw. The
        data are what the file system sees. */
    method Fill(b: nat, pid: nat) returns (ok: bool)
      requires Valid() && b < NBUF && holder[b] == pid != 0
      modifies this`bufs
      ensures Valid()
      ensures ok <==> old(bufs)[b].valid || (bufs[b].key.dev == 1 && bufs[b].key.blockno < |disk|)
      ensures bufs == old(bufs)[b := old(bufs)[b].(valid := ok, data := bufs[b].data)]
      ensures old(bufs)[b].valid ==> bufs == old(bufs)
      ensures SameView(old(bufs), disk)
      ensures ok ==> bufs[b].key.blockno < |disk| && bufs[b].data == Seen(old(bufs), disk, bufs[b].key.blockno)
    {
      hide Cached, Seen;
      if bufs[b].valid {
        SeenCached(bufs, disk, b);
        return true;
      }
      if bufs[b].key.dev != 1 || bufs[b].key.blockno >= |disk| {
        return false;
      }
      var x := bufs[b].(valid := true, data := disk[bufs[b].key.blockno]);
      SeenFilled(bufs, disk, b, x);
      bufs := bufs[b := x];
      return true;
    }

    /** The holder changes the data: the file system sees exactly that change. */
    method Modify(b: nat, pid: nat, data: Block)
      requires Valid() && b < NBUF && holder[b] == pid != 0 && bufs[b].valid
      modifies this`bufs, this`touched
      ensures Valid() && bufs == old(bufs)[b := old(bufs)[b].(data := data)] && touched == old(touched)[b := true]
      ensures forall n :: 0 <= n < |disk| ==>
                Seen(bufs, disk, n) == if n == bufs[b].key.blockno then data else Seen(old(bufs), disk, n)
    {
      hide Cached, Seen;
      SeenModified(bufs, disk, b, data);
      bufs := bufs[b := bufs[b].(data := data)];
      touched := touched[b := true];
    }

    /** log_write's mark: the buffer must stay until it is written. */
    method Pin(b: nat, pid: nat)
      requires Valid() && b < NBUF && holder[b] == pid != 0 && bufs[b].valid
      modifies this`bufs
      ensures Valid() && bufs == old(bufs)[b := old(bufs)[b].(dirty := true)] && SameView(old(bufs), disk)
    {
      hide Cached, Seen;
      SeenFlags(bufs, disk, b, true);
      bufs := bufs[b := bufs[b].(dirty := true)];
    }

    /** bwrite: the block on disk becomes the data, and the buffer is clean. */
    method Bwrite(b: nat, pid: nat)
      requires Valid() && b < NBUF && holder[b] == pid != 0 && bufs[b].valid
      modifies this`bufs, this`disk, this`touched
      ensures Valid() && bufs == old(bufs)[b := old(bufs)[b].(dirty := false)] && touched == old(touched)[b := false]
      ensures disk == old(disk)[bufs[b].key.blockno := bufs[b].data]
      ensures SameView(old(bufs), old(disk))
    {
      hide Cached, Seen;
      SeenFlags(bufs, disk, b, false);
      SeenWritten(bufs[b := bufs[b].(dirty := false)], disk, b);
      disk := disk[bufs[b].key.blockno := bufs[b].data];
      bufs, touched := bufs[b := bufs[b].(dirty := false)], touched[b := false];
      assert forall c :: 0 <= c < NBUF && c != b ==> bufs[c].key != bufs[b].key;
    }

    /** The first half of brelse. A holder that has changed the data must have logged them, or written
        them since; then an unlocked, valid, clean buffer equals its block on disk. */
    method Unlock(b: nat, pid: nat)
      requires Valid() && b < NBUF && holder[b] == pid != 0
      requires bufs[b].dirty || !touched[b]
      modifies this`holder
      ensures Valid() && holder == old(holder)[b := 0]
      ensures bufs[b].valid && !bufs[b].dirty ==>
                bufs[b].key.blockno < |disk| && bufs[b].data == disk[bufs[b].key.blockno]
    {
      holder := holder[b := 0];
    }

    /** The pointer stores of brelse: the buffer becomes the most recently released one. */
    method MoveToFront(b: nat)
      requires ListOk() && b < NBUF
      modifies this`next, this`prev, this`lru, this`stamp, this`clock
      ensures ListOk() && lru[0] == b
      ensures exists k :: 0 <= k < NBUF && old(lru)[k] == b && lru == [b] + Without(old(lru), k)
      ensures stamp == old(stamp)[b := old(clock)]
    {
      ghost var k := Position(lru, b);
      UnlinkThreaded(next, prev, lru, k);
      prev := prev[next[b] := prev[b]];
      next := next[prev[b] := next[b]];
      StampsFront(lru, stamp, clock, k);
      lru := Without(lru, k);
      hide Threaded;
      PushThreaded(next, prev, lru, b);
      PushFront(b);
      stamp, clock := stamp[b := clock], clock + 1;
    }

    /** The second half of brelse: drop the reference, and if it was the last move the buffer to the
        front of the list. */
    method Drop(b: nat, pid: nat)
      requires Valid() && b < NBUF && pid in refs[b] && holder[b] != pid
      modifies this`bufs, this`next, this`prev, this`refs, this`lru, this`stamp, this`clock
      ensures Valid() && bufs == old(bufs)[b := old(bufs)[b].(refcnt := old(bufs)[b].refcnt - 1)]
      ensures refs == old(refs)[b := old(refs)[b] - multiset{pid}] && SameView(old(bufs), disk)
      ensures bufs[b].refcnt == 0 ==>
                lru[0] == b && exists k :: 0 <= k < NBUF && old(lru)[k] == b && lru == [b] + Without(old(lru), k)
      ensures bufs[b].refcnt > 0 ==> lru == old(lru)
      ensures stamp == if bufs[b].refcnt == 0 then old(stamp)[b := old(clock)] else old(stamp)
    {
      hide Cached, Seen, Threaded, Without;
      assert |refs[b] - multiset{pid}| == |refs[b]| - 1;
      SeenRefcnt(bufs, disk, b, bufs[b].refcnt - 1);
      bufs := bufs[b := bufs[b].(refcnt := bufs[b].refcnt - 1)];
      refs := refs[b := refs[b] - multiset{pid}];
      if bufs[b].refcnt == 0 {
        MoveToFront(b);
      }
    }

    // ---- a process among others ----

    /** What process `me` holds, nobody else has changed since: its references, its locks, the data and flags of the
        buffers it holds, and their blocks on disk. */
    ghost predicate Undisturbed(me: nat, bufs0: seq<Buf>, holder0: seq<nat>, touched0: seq<bool>,
                                refs0: seq<multiset<nat>>, disk0: Disk)
      reads this`bufs, this`holder, this`touched, this`refs, this`disk
    {
      && |bufs| == |bufs0| == |holder| == |holder0| == |touched| == |touched0| == |refs| == |refs0| == NBUF
      && |disk| == |disk0|
      && forall b :: 0 <= b < NBUF ==>
           && refs[b][me] == refs0[b][me] && (holder[b] == me <==> holder0[b] == me)
           && (refs0[b][me] > 0 ==> bufs[b].key == bufs0[b].key)
           && (holder0[b] == me ==> Kept(bufs0[b], bufs[b], touched0[b], touched[b], disk0, disk))
    }

    /** A step of process pid on the data of a buffer it holds. */
    method HandleData(me: nat, pid: nat, b: nat, do: Do)
      requires Valid() && me != 0 && pid != 0 && pid != me && b < NBUF && pid in refs[b] && holder[b] == pid
      modifies this
      ensures Valid() && Undisturbed(me, old(bufs), old(holder), old(touched), old(refs), old(disk))
      ensures |bufs| == |old(bufs)| == |old(refs)| == NBUF
      ensures forall x :: 0 <= x < NBUF && !(x == b && do.Change?) ==> Intact(old(bufs)[x], bufs[x])
    {
      hide Cached, Seen, Cache.ListOk;
      match do {
        case Read =>
          var ok := Fill(b, pid);
        case Change(data) =>
          if bufs[b].valid {
            Modify(b, pid, data);
          }
        case LogIt =>
          if bufs[b].valid {
            Pin(b, pid);
          }
        case WriteIt =>
          if bufs[b].valid {
            Bwrite(b, pid);
          }
        case _ =>
      }
    }

    /** Steps of process pid on its lock and its reference. */
    method HandleLock(me: nat, pid: nat, b: nat, do: Do)
      requires Valid() && me != 0 && pid != 0 && pid != me && b < NBUF && pid in refs[b]
      modifies this
      ensures Valid() && Undisturbed(me, old(bufs), old(holder), old(touched), old(refs), old(disk))
      ensures |bufs| == |old(bufs)| == |old(refs)| == NBUF
      ensures forall x :: 0 <= x < NBUF ==> Intact(old(bufs)[x], bufs[x])
    {
      hide Cached, Seen, Cache.ListOk, BufOk, Unique;
      match do {
        case Take =>
          if holder[b] == 0 {
            Lock(b, pid);
          }
        case Leave =>
          if holder[b] == pid && (bufs[b].dirty || !touched[b]) {
            Unlock(b, pid);
          }
        case _ =>
      }
    }

    method HandleDrop(me: nat, pid: nat, b: nat)
      requires Valid() && me != 0 && pid != 0 && pid != me && b < NBUF && pid in refs[b] && holder[b] != pid
      modifies this
      ensures Valid() && Undisturbed(me, old(bufs), old(holder), old(touched), old(refs), old(disk))
      ensures |bufs| == |old(bufs)| == |old(refs)| == NBUF
      ensures forall x :: 0 <= x < NBUF ==> Intact(old(bufs)[x], bufs[x])
    {
      hide Cached, Seen, Cache.ListOk, BufOk, Unique;
      Drop(b, pid);
    }

    /** bget by another process. */
    method Look(me: nat, pid: nat, dev: nat, blockno: nat)
      requires Valid() && me != 0 && pid != 0 && pid != me
      modifies this
      ensures Valid() && Undisturbed(me, old(bufs), old(holder), old(touched), old(refs), old(disk))
      ensures |bufs| == |old(bufs)| == |old(refs)| == NBUF
      ensures forall x :: 0 <= x < NBUF && old(refs)[x][me] > 0 ==> Intact(old(bufs)[x], bufs[x])
    {
      hide Cached, Seen, Cache.ListOk, Unique;
      assert forall x :: 0 <= x < NBUF && refs[x][me] > 0 ==> !Eligible(bufs[x]);
      hide BufOk, Eligible;
      var r := Get(dev, blockno, pid);
    }

    lemma UndisturbedSelf(me: nat)
      requires Valid()
      ensures Undisturbed(me, bufs, holder, touched, refs, disk)
    {
    }

    /** One step of another process, if it can be taken. */
    method Other(me: nat, a: Act)
      requires Valid() && me != 0
      modifies this
      ensures Valid() && Undisturbed(me, old(bufs), old(holder), old(touched), old(refs), old(disk))
      ensures |bufs| == |old(bufs)| == |old(refs)| == NBUF
      ensures forall x :: 0 <= x < NBUF && old(refs)[x][me] > 0 && !Alters(a, x) ==> Intact(old(bufs)[x], bufs[x])
    {
      hide Cached, Seen, Cache.ListOk, BufOk, Unique, Intact;
      IntactSelf(bufs);
      UndisturbedSelf(me);
      if a.pid == me || a.pid == 0 {
        return;
      }
      match a {
        case Look(pid, dev, blockno) =>
          Look(me, pid, dev, blockno);
        case On(pid, b, do) =>
          if b < NBUF && pid in refs[b] {
            if holder[b] == pid && (do.Read? || do.Change? || do.LogIt? || do.WriteIt?) {
              HandleData(me, pid, b, do);
            } else if holder[b] != pid && do.Forget? {
              HandleDrop(me, pid, b);
            } else {
              HandleLock(me, pid, b, do);
            }
          }
      }
    }

    /** Any steps of other processes. */
    method Others(me: nat, acts: seq<Act>)
      requires Valid() && me != 0
      modifies this
      ensures Valid() && Undisturbed(me, old(bufs), old(holder), old(touched), old(refs), old(disk))
      ensures |bufs| == |old(bufs)| == |old(refs)| == NBUF
      ensures forall x :: 0 <= x < NBUF && old(refs)[x][me] > 0 && NoneAlters(acts, x) ==> Intact(old(bufs)[x], bufs[x])
      ensures acts == [] ==> bufs == old(bufs) && disk == old(disk)
    {
      hide Cached, Seen, Cache.ListOk, BufOk;
      for i := 0 to |acts|
        invariant i == 0 ==> bufs == old(bufs) && disk == old(disk)
        invariant Valid() && Undisturbed(me, old(bufs), old(holder), old(touched), old(refs), old(disk))
        invariant |bufs| == |old(bufs)| == |old(refs)| == NBUF
        invariant forall x :: 0 <= x < NBUF && old(refs)[x][me] > 0 && NoneAlters(acts, x) ==>
                    Intact(old(bufs)[x], bufs[x])
      {
        Other(me, acts[i]);
      }
    }

    ghost predicate Holds(me: nat, b: nat)
      reads this
    {
      Valid() && b < NBUF && holder[b] == me
    }

    /** bread among other processes: bget, the wait for the sleep lock, and the read. */
    method Bread(me: nat, blockno: nat, before: seq<Act>, after: seq<Act>) returns (r: Reading)
      requires Valid() && me != 0
      modifies this
      ensures r != NoRoom ==> Valid()
      ensures r.Have? ==>
                && Holds(me, r.b) && bufs[r.b].key == Key(1, blockno) && bufs[r.b].valid && !touched[r.b]
                && blockno < |disk| && bufs[r.b].data == Seen(bufs, disk, blockno)
      ensures r == BadBlock ==> blockno >= |disk|
    {
      hide Cached, Seen, Cache.ListOk, Unique;
      var got := Get(1, blockno, me);
      if got == NoBuffers {
        return NoRoom;
      }
      var b := got.b;
      Others(me, before);
      if holder[b] != 0 {
        return Waiting;
      }
      Lock(b, me);
      Others(me, after);
      var ok := Fill(b, me);
      if !ok {
        return BadBlock;
      }
      SeenCached(bufs, disk, b);
      return Have(b);
    }

    /** A holder changes a block and then logs it (log_write marks it dirty) or writes it, while others run: the
        file system then sees the new data, and the buffer may be released. */
    method Update(me: nat, b: nat, data: Block, log: bool, before: seq<Act>, after: seq<Act>)
      requires Valid() && me != 0 && Holds(me, b) && bufs[b].valid
      modifies this
      ensures Valid() && Holds(me, b) && bufs[b].key == old(bufs)[b].key && bufs[b].valid && bufs[b].data == data
      ensures bufs[b].key.blockno < |disk| && Seen(bufs, disk, bufs[b].key.blockno) == data
      ensures bufs[b].dirty || !touched[b]
      ensures log ==> bufs[b].dirty
      ensures !log ==> !bufs[b].dirty && disk[bufs[b].key.blockno] == data
    {
      hide Cached, Seen, Cache.ListOk, Unique;
      Modify(b, me, data);
      Others(me, before);
      if log {
        Pin(b, me);
      } else {
        Bwrite(b, me);
      }
      Others(me, after);
      SeenCached(bufs, disk, b);
    }

    /** brelse among other processes. */
    method Brelse(me: nat, b: nat, between: seq<Act>)
      requires Valid() && me != 0 && Holds(me, b) && (bufs[b].dirty || !touched[b])
      modifies this
      ensures Valid() && old(refs)[b][me] > 0 && holder[b] != me && refs[b][me] == old(refs)[b][me] - 1
      ensures between == [] ==> disk == old(disk) && SameView(old(bufs), old(disk))
      ensures NoneAlters(between, b) ==> Intact(old(bufs)[b], bufs[b])
      ensures bufs[b].key == old(bufs)[b].key && |disk| == |old(disk)|
    {
      hide Cached, Seen, Cache.ListOk, Unique;
      Unlock(b, me);
      Others(me, between);
      Drop(b, me);
    }

    /** bread, change, log_write or bwrite, brelse, with any steps of others in between: every call is allowed where
        it is made, afterwards the process has let go of the buffer, and whatever others did until it was unlocked, it
        is its data that the file system sees in the block, for as long as nobody else changes that buffer. */
    method ReadChangeRelease(me: nat, blockno: nat, data: Block, log: bool, acts: seq<seq<Act>>) returns (r: Reading)
      requires Valid() && me != 0 && |acts| == 6
      modifies this
      ensures r.Have? ==> Valid() && r.b < NBUF && holder[r.b] != me
      ensures r.Have? && NoneAlters(acts[5], r.b) ==> blockno < |disk| && Seen(bufs, disk, blockno) == data
    {
      hide Cached, Seen, Cache.ListOk, Unique, BufOk;
      r := Bread(me, blockno, acts[0], acts[1]);
      if r.Have? {
        Others(me, acts[2]);
        Update(me, r.b, data, log, acts[3], acts[4]);
        Brelse(me, r.b, acts[5]);
        if NoneAlters(acts[5], r.b) {
          SeenCached(bufs, disk, r.b);
        }
      }
    }
  }
}
