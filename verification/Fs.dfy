/** The block allocator and inode contents of fs.c, and the chunked writes of file.c,
    as a file system over the logical contents of the disk: what bread returns through
    the buffer cache and the log.
 */
module Fs {
  import opened Blocks
  import opened Ownership
  import opened Files
  import opened Params
  import opened Sets

  const T_DEV: nat := 3
  const CHUNK: nat := 1536          // ((MAXOPBLOCKS-1-1-2) / 2) * 512

  /** A block number, or the panic of a full disk. */
  datatype Alloc = Got(b: nat) | Full

  /** The outcome of a read or write: a count, -1, a device's own affair, or a panic. */
  datatype Io = Done(n: nat) | Fail | Device | Panic

  // ---- how many blocks a file occupies, and a write touches ----

  function Max(a: nat, b: nat): nat {
    if a < b then b else a
  }

  /** Data blocks of a file. */
  function Have(size: nat): nat {
    (size + 511) / 512
  }

  /** Blocks of a file: its data blocks, and the indirect block of one that needs more than twelve. */
  function Occupies(size: nat): nat {
    Have(size) + if size > 12 * 512 then 1 else 0
  }

  /** Data blocks that n bytes from off lie in. */
  function Touched(off: nat, n: nat): nat {
    if n == 0 then 0 else (off + n - 1) / 512 - off / 512 + 1
  }

  /** Blocks that a write of n bytes at off has to allocate. */
  function Needs(size: nat, off: nat, n: nat): int {
    Occupies(Max(size, off + n)) - Occupies(size)
  }

  /** 1 if the indirect block gets a new entry. */
  function RootChanged(size: nat, off: nat, n: nat): nat {
    if Have(Max(size, off + n)) > Max(Have(size), 12) then 1 else 0
  }

  /** 1 if the inode is written. */
  function Grows(size: nat, off: nat, n: nat): nat {
    if n > 0 && off + n > size then 1 else 0
  }

  /** A chunk of filewrite, at any offset a file accepts, stays within one operation's reservation, however
      its allocations fall on the bitmap blocks. It takes up all of the reservation exactly when it touches
      four data blocks and allocates in four different bitmap blocks; then it writes the indirect block and
      the inode too. */
  lemma ChunkBudget(size: nat, off: nat, n: nat, maps: nat)
    requires off <= size && n <= CHUNK && maps <= Needs(size, off, n)
    ensures var all := Touched(off, n) + maps + RootChanged(size, off, n) + Grows(size, off, n);
            && all <= MAXOPBLOCKS
            && (all == MAXOPBLOCKS <==> Touched(off, n) == 4 && maps == 4)
            && (all == MAXOPBLOCKS ==> RootChanged(size, off, n) == 1 && Grows(size, off, n) == 1)
            && (Grows(size, off, n) == 0 ==> all <= 4)
  {
    if n > 0 {
      var first, last := off / 512, (off + n - 1) / 512;
      assert last - first <= 3;
      if last - first == 3 {
        assert off % 512 > 0;
        assert first < Have(size);
      }
    }
  }

  predicate Aligned(off: nat) {
    off % 512 == 0
  }

  /** How much of the rest fits in the current block. */
  function Piece(off: nat, left: nat): (m: nat)
    requires left > 0
    ensures 0 < m <= left && off % 512 + m <= 512 && (m == left || Aligned(off + m))
  {
    if left < 512 - off % 512 then left else 512 - off % 512
  }

  /** One more block of a write: what it adds depends on whether the file has that block, and on whether it
      has an indirect block. */
  lemma StepBudget(size: nat, off: nat, n: nat, m: nat)
    requires off <= size && (n == 0 || (off + n) % 512 == 0)
    requires 0 < m && (off + n) % 512 + m <= 512
    ensures var bn, now := (off + n) / 512, Max(size, off + n);
            && (off + n + m - 1) / 512 == bn
            && Touched(off, n + m) == Touched(off, n) + 1 && (n > 0 ==> (off + n - 1) / 512 == bn - 1)
            && Needs(size, off, n + m) == Needs(size, off, n)
               + (if bn >= Have(now) then 1 else 0) + (if bn >= 12 && now <= 12 * 512 then 1 else 0)
            && RootChanged(size, off, n + m) == (if bn >= Have(now) && bn >= 12 then 1 else RootChanged(size, off, n))
            && (bn >= 12 && now <= 12 * 512 ==> bn >= Have(now))
  {
  }

  /** Every block is marked in use. */
  ghost predicate DiskFull(sb: Super, d: Disk) {
    sb.Good(|d|) && forall b :: 0 <= b < sb.size ==> Bit(sb, d, b)
  }

  lemma OwnerAddr(sb: Super, d: Disk, nodes: seq<Inode>, owner: map<nat, Slot>, b: nat)
    requires GoodInodes(sb, nodes) && Owned(sb, d, nodes, owner) && b in owner
    ensures owner[b].i < |nodes| && owner[b].k < SLOTS && AddrAt(d, nodes, owner[b].i, owner[b].k) == b
  {
  }

  lemma RootOwned(sb: Super, d: Disk, nodes: seq<Inode>, owner: map<nat, Slot>, i: nat)
    requires GoodInodes(sb, nodes) && Owned(sb, d, nodes, owner) && i < |nodes| && nodes[i].addrs[ROOT] != 0
    ensures nodes[i].addrs[ROOT] in owner && owner[nodes[i].addrs[ROOT]] == Slot(i, ROOT)
  {
    assert AddrAt(d, nodes, i, ROOT) == nodes[i].addrs[ROOT];
  }

  /** The address of the indirect block of inode i, or 0. */
  function RootOf(nodes: seq<Inode>, i: nat): nat {
    if i < |nodes| && |nodes[i].addrs| == 13 then nodes[i].addrs[ROOT] else 0
  }

  /** A file longer than its direct blocks has an indirect block. */
  lemma RootThere(d: Disk, nodes: seq<Inode>, i: nat, n: nat)
    requires i < |nodes| && |nodes[i].addrs| == 13 && MappedTo(d, nodes, i, n) && n > 12 * 512
    ensures nodes[i].addrs[ROOT] != 0
  {
    hide GetWord;
    assert AddrAt(d, nodes, i, DataSlot(12)) != 0;
  }

  // ---- which blocks are free, and which are taken ----

  /** The data blocks nobody owns. */
  ghost function FreeSet(sb: Super, owner: map<nat, Slot>): set<nat> {
    set b: nat | sb.DataStart() <= b < sb.size && b !in owner
  }

  /** The free map shows them. */
  lemma FreeMeaning(sb: Super, d: Disk, nodes: seq<Inode>, owner: map<nat, Slot>)
    requires Owning(sb, d, nodes, owner)
    ensures forall b: nat :: b in FreeSet(sb, owner) <==> b < sb.size && !Bit(sb, d, b)
    ensures DiskFull(sb, d) <==> FreeSet(sb, owner) == {}
  {
    hide GetBit, Owned, AddrAt;
    assert forall b: nat :: b in FreeSet(sb, owner) <==> b < sb.size && !Bit(sb, d, b);
    if FreeSet(sb, owner) == {} {
      forall b | 0 <= b < sb.size
        ensures Bit(sb, d, b)
      {
        assert b !in FreeSet(sb, owner);
      }
    }
  }

  /** The blocks owned now and not before. */
  ghost function Added(o: map<nat, Slot>, o': map<nat, Slot>): set<nat> {
    o'.Keys - o.Keys
  }

  /** The bitmap blocks of some blocks. */
  ghost function MapsOf(sb: Super, s: set<nat>): set<nat> {
    set b | b in s :: sb.BBlock(b)
  }

  /** Some of these numbers, and no smaller one is left out. */
  ghost predicate Lowest(all: set<nat>, some: set<nat>) {
    some <= all && forall b, c :: b in some && c in all - some ==> b < c
  }

  /** Blocks keep their owners, and the blocks added are the lowest of the free ones: those that balloc finds. */
  ghost predicate Grew(sb: Super, o: map<nat, Slot>, o': map<nat, Slot>) {
    && (forall b :: b in o ==> b in o' && o'[b] == o[b])
    && Lowest(FreeSet(sb, o), Added(o, o'))
  }

  lemma GrewNot(sb: Super, o: map<nat, Slot>)
    ensures Grew(sb, o, o) && Added(o, o) == {}
  {
  }

  lemma GrewOne(sb: Super, o: map<nat, Slot>, b: nat, s: Slot)
    requires b in FreeSet(sb, o) && forall c :: c in FreeSet(sb, o) ==> b <= c
    ensures Grew(sb, o, o[b := s]) && Added(o, o[b := s]) == {b} && FreeSet(sb, o[b := s]) == FreeSet(sb, o) - {b}
  {
    assert Added(o, o[b := s]) == {b};
  }

  lemma FreeLeft(sb: Super, o: map<nat, Slot>, o': map<nat, Slot>)
    requires Grew(sb, o, o')
    ensures FreeSet(sb, o') == FreeSet(sb, o) - Added(o, o') && |FreeSet(sb, o)| == |FreeSet(sb, o')| + |Added(o, o')|
  {
    var f, f', a := FreeSet(sb, o), FreeSet(sb, o'), Added(o, o');
    forall b: nat
      ensures b in f' <==> b in f - a
    {
      assert b in f' <==> sb.DataStart() <= b < sb.size && b !in o';
      assert b in f <==> sb.DataStart() <= b < sb.size && b !in o;
      assert b in a <==> b in o' && b !in o;
    }
    assert f' == f - a;
    hide FreeSet, Added;
    SplitSize(f, a);
  }

  lemma AddedTwice(o: map<nat, Slot>, o1: map<nat, Slot>, o2: map<nat, Slot>)
    requires (forall b :: b in o ==> b in o1) && forall b :: b in o1 ==> b in o2
    ensures Added(o, o2) == Added(o, o1) + Added(o1, o2) && Added(o, o1) !! Added(o1, o2)
  {
  }

  lemma LowestTwice(f: set<nat>, a: set<nat>, b: set<nat>)
    requires Lowest(f, a) && Lowest(f - a, b)
    ensures Lowest(f, a + b)
  {
    forall x, y | x in a + b && y in f - (a + b)
      ensures x < y
    {
      if x in a {
        assert y in f - a;
      } else {
        assert y in (f - a) - b;
      }
    }
  }

  lemma GrewTwice(sb: Super, o: map<nat, Slot>, o1: map<nat, Slot>, o2: map<nat, Slot>)
    requires Grew(sb, o, o1) && Grew(sb, o1, o2)
    ensures Grew(sb, o, o2) && Added(o, o2) == Added(o, o1) + Added(o1, o2)
    ensures |Added(o, o2)| == |Added(o, o1)| + |Added(o1, o2)|
  {
    hide FreeSet;
    FreeLeft(sb, o, o1);
    AddedTwice(o, o1, o2);
    hide Added;
    var f, a, b := FreeSet(sb, o), Added(o, o1), Added(o1, o2);
    DisjointSize(a, b);
    LowestTwice(f, a, b);
  }

  /** A slot that got no block has the address it had. */
  lemma AddrStays(sb: Super, d: Disk, nodes: seq<Inode>, o: map<nat, Slot>, e: Disk, nodes': seq<Inode>,
                  o': map<nat, Slot>, j: nat, k: nat)
    requires Owning(sb, d, nodes, o) && Owning(sb, e, nodes', o') && Grew(sb, o, o') && j < |nodes| && k < SLOTS
    requires forall b :: b in Added(o, o') ==> o'[b] != Slot(j, k)
    ensures AddrAt(e, nodes', j, k) == AddrAt(d, nodes, j, k)
  {
    hide AddrAt, MapExact, FreeSet;
    var x, y := AddrAt(d, nodes, j, k), AddrAt(e, nodes', j, k);
    assert x != 0 ==> o'[x] == Slot(j, k);
    assert y != 0 ==> o'[y] == Slot(j, k) && y !in Added(o, o');
  }

  /** The file has no block beyond its first `size` bytes. */
  ghost predicate Tight(d: Disk, nodes: seq<Inode>, i: nat, size: nat)
    requires i < |nodes| && |nodes[i].addrs| == 13
  {
    && (forall bn :: Have(size) <= bn < MAXFILE ==> AddrAt(d, nodes, i, DataSlot(bn)) == 0)
    && (size <= 12 * 512 ==> nodes[i].addrs[ROOT] == 0)
  }

  /** The addresses of data blocks lo to hi - 1 of file i. */
  ghost function DataAddrs(d: Disk, nodes: seq<Inode>, i: nat, lo: nat, hi: nat): set<nat>
    requires i < |nodes| && |nodes[i].addrs| == 13 && hi <= MAXFILE
  {
    set bn | lo <= bn < hi :: AddrAt(d, nodes, i, DataSlot(bn))
  }

  ghost function RootPart(nodes: seq<Inode>, i: nat, changed: nat): set<nat> {
    if changed == 1 then {RootOf(nodes, i)} else {}
  }

  /** What a write of n bytes has done to ownership and to the log: it has allocated exactly the blocks it needs,
      the lowest free ones, and logged exactly the data blocks touched, the bitmap blocks of those allocated,
      and the indirect block if it has new entries. */
  ghost predicate Tally(sb: Super, d: Disk, nodes: seq<Inode>, o0: map<nat, Slot>, o: map<nat, Slot>,
                        i: nat, size: nat, off: nat, n: nat, l0: set<nat>, l: set<nat>)
    requires i < |nodes| && |nodes[i].addrs| == 13 && off + n <= MAXBYTES
  {
    && Grew(sb, o0, o) && |Added(o0, o)| == Needs(size, off, n)
    && l == l0 + DataAddrs(d, nodes, i, off / 512, off / 512 + Touched(off, n)) + MapsOf(sb, Added(o0, o))
            + RootPart(nodes, i, RootChanged(size, off, n))
  }

  lemma TallyStart(sb: Super, d: Disk, nodes: seq<Inode>, o: map<nat, Slot>, i: nat, size: nat, off: nat, l: set<nat>)
    requires i < |nodes| && |nodes[i].addrs| == 13 && off <= size && off <= MAXBYTES
    ensures Tally(sb, d, nodes, o, o, i, size, off, 0, l, l)
  {
    hide AddrAt;
    GrewNot(sb, o);
    assert DataAddrs(d, nodes, i, off / 512, off / 512) == {};
    assert MapsOf(sb, {}) == {};
  }

  /** Blocks to allocate for block bn of a file of `now` bytes: that block, and the indirect block. */
  function StepNeeds(bn: nat, now: nat): nat {
    (if bn >= Have(now) then 1 else 0) + (if bn >= 12 && now <= 12 * 512 then 1 else 0)
  }

  /** What the turn of writei's loop for block bn does, in a file of `now` bytes. */
  ghost predicate Stepped(sb: Super, d: Disk, nodes: seq<Inode>, o: map<nat, Slot>, l: set<nat>, d': Disk,
                          nodes': seq<Inode>, o': map<nat, Slot>, l': set<nat>, i: nat, bn: nat, now: nat)
    requires i < |nodes| == |nodes'| && |nodes[i].addrs| == 13 && |nodes'[i].addrs| == 13 && bn < MAXFILE
  {
    && Grew(sb, o, o') && |Added(o, o')| == StepNeeds(bn, now)
    && (forall c :: 0 <= c < MAXFILE && c != bn ==>
         AddrAt(d', nodes', i, DataSlot(c)) == AddrAt(d, nodes, i, DataSlot(c)))
    && l' == l + {AddrAt(d', nodes', i, DataSlot(bn))} + MapsOf(sb, Added(o, o'))
             + RootPart(nodes', i, if bn >= Have(now) && bn >= 12 then 1 else 0)
    && (RootOf(nodes, i) != 0 ==> RootOf(nodes', i) == RootOf(nodes, i))
  }

  lemma RootMore(nodes: seq<Inode>, nodes': seq<Inode>, i: nat, before: nat, now: nat)
    requires RootOf(nodes, i) != 0 ==> RootOf(nodes', i) == RootOf(nodes, i)
    requires before == 1 ==> RootOf(nodes, i) != 0
    ensures RootPart(nodes, i, before) + RootPart(nodes', i, now) == RootPart(nodes', i, if now == 1 then 1 else before)
  {
    hide RootOf;
  }

  lemma Unions(l: set<nat>, d: set<nat>, m: set<nat>, r: set<nat>, d': set<nat>, m': set<nat>, r': set<nat>)
    ensures l + d + m + r + d' + m' + r' == l + (d + d') + (m + m') + (r + r')
  {
  }

  lemma TouchedUpTo(off: nat, n: nat)
    requires n == 0 || (off + n) % 512 == 0
    ensures off / 512 + Touched(off, n) == (off + n) / 512
  {
  }

  lemma DataMore(d: Disk, nodes: seq<Inode>, d': Disk, nodes': seq<Inode>, i: nat, lo: nat, bn: nat)
    requires i < |nodes| == |nodes'| && |nodes[i].addrs| == 13 && |nodes'[i].addrs| == 13 && lo <= bn < MAXFILE
    requires forall c :: 0 <= c < MAXFILE && c != bn ==>
               AddrAt(d', nodes', i, DataSlot(c)) == AddrAt(d, nodes, i, DataSlot(c))
    ensures DataAddrs(d', nodes', i, lo, bn + 1)
            == DataAddrs(d, nodes, i, lo, bn) + {AddrAt(d', nodes', i, DataSlot(bn))}
  {
    hide AddrAt;
    var x, y := DataAddrs(d', nodes', i, lo, bn + 1), DataAddrs(d, nodes, i, lo, bn);
    forall b | b in x
      ensures b in y + {AddrAt(d', nodes', i, DataSlot(bn))}
    {
      var c :| lo <= c < bn + 1 && b == AddrAt(d', nodes', i, DataSlot(c));
    }
    forall b | b in y
      ensures b in x
    {
      var c :| lo <= c < bn && b == AddrAt(d, nodes, i, DataSlot(c));
      assert b == AddrAt(d', nodes', i, DataSlot(c));
    }
  }

  lemma MapsMore(sb: Super, s: set<nat>, t: set<nat>)
    ensures MapsOf(sb, s + t) == MapsOf(sb, s) + MapsOf(sb, t)
  {
  }

  /** One more block: its address, the bitmap blocks of what was allocated for it, and perhaps the indirect block. */
  lemma TallyStep(sb: Super, d: Disk, nodes: seq<Inode>, d': Disk, nodes': seq<Inode>, o0: map<nat, Slot>,
                  o: map<nat, Slot>, o': map<nat, Slot>, i: nat, size: nat, off: nat, n: nat, m: nat,
                  l0: set<nat>, l: set<nat>, l': set<nat>)
    requires i < |nodes| == |nodes'| && |nodes[i].addrs| == 13 && |nodes'[i].addrs| == 13
    requires off <= size && (n == 0 || (off + n) % 512 == 0) && 0 < m && (off + n) % 512 + m <= 512
    requires off + n + m <= MAXBYTES && Tally(sb, d, nodes, o0, o, i, size, off, n, l0, l)
    requires Stepped(sb, d, nodes, o, l, d', nodes', o', l', i, (off + n) / 512, Max(size, off + n))
    requires RootChanged(size, off, n) == 1 ==> RootOf(nodes, i) != 0
    ensures Tally(sb, d', nodes', o0, o', i, size, off, n + m, l0, l')
  {
    hide AddrAt, FreeSet, Added, Grew, Needs, RootChanged, Touched, Have, Max, RootOf, DataAddrs, MapsOf, RootPart;
    StepBudget(size, off, n, m);
    GrewTwice(sb, o0, o, o');
    var lo, bn := off / 512, (off + n) / 512;
    TouchedUpTo(off, n);
    DataMore(d, nodes, d', nodes', i, lo, bn);
    MapsMore(sb, Added(o0, o), Added(o, o'));
    var now := if bn >= Have(Max(size, off + n)) && bn >= 12 then 1 else 0;
    RootMore(nodes, nodes', i, RootChanged(size, off, n), now);
    Unions(l0, DataAddrs(d, nodes, i, lo, bn), MapsOf(sb, Added(o0, o)), RootPart(nodes, i, RootChanged(size, off, n)),
           {AddrAt(d', nodes', i, DataSlot(bn))}, MapsOf(sb, Added(o, o')), RootPart(nodes', i, now));
  }

  // ---- whole file systems ----

  /** File i: it has a block for every byte below its size and no other, and its inode is up to date on disk. */
  ghost predicate FileOk(sb: Super, d: Disk, nodes: seq<Inode>, i: nat)
    requires sb.Good(|d|) && GoodInodes(sb, nodes) && i < |nodes|
  {
    MappedTo(d, nodes, i, nodes[i].size) && Tight(d, nodes, i, nodes[i].size) && DiskInode(sb, d, i) == nodes[i]
  }

  /** A disk that holds a file system. */
  ghost predicate Image(sb: Super, d: Disk, nodes: seq<Inode>, owner: map<nat, Slot>) {
    Owning(sb, d, nodes, owner) && forall i :: 0 <= i < |nodes| ==> FileOk(sb, d, nodes, i)
  }

  /** 1 if block bn of the file is not there. */
  ghost function Missing(d: Disk, nodes: seq<Inode>, i: nat, bn: nat): nat
    requires i < |nodes| && |nodes[i].addrs| == 13 && bn < MAXFILE
  {
    if AddrAt(d, nodes, i, DataSlot(bn)) == 0 then 1 else 0
  }

  /** 1 if block bn needs an indirect block and the file has none. */
  ghost function NoRoot(nodes: seq<Inode>, i: nat, bn: nat): nat {
    if bn >= 12 && RootOf(nodes, i) == 0 then 1 else 0
  }

  lemma AllocKept(sb: Super, d: Disk, nodes: seq<Inode>, owner: map<nat, Slot>, b: nat, s: Slot)
    requires Owning(sb, d, nodes, owner) && b < sb.size && !Bit(sb, d, b)
    ensures Kept(sb, d, owner, Allocated(sb, d, b), owner[b := s])
  {
    hide Bit, Allocated, Owned, AddrAt, ZeroBlock, MapExact;
    AllocatedBlocks(sb, d, nodes, owner, b);
  }

  lemma RootKept(sb: Super, d: Disk, nodes: seq<Inode>, owner: map<nat, Slot>, e: Disk, b: nat, s: Slot, root: nat,
                 x: Block)
    requires Owning(sb, d, nodes, owner) && Kept(sb, d, owner, e, owner[b := s])
    requires root in owner && owner[root].k == ROOT
    ensures sb.DataStart() <= root < sb.size && root < |e| && Kept(sb, d, owner, e[root := x], owner[b := s])
  {
    hide AddrAt, MapExact;
  }

  lemma EmptySize<T>(s: set<T>)
    ensures s == {} <==> |s| < 1
  {
  }

  lemma MapsOne(sb: Super, b: nat)
    ensures MapsOf(sb, {b}) == {sb.BBlock(b)}
  {
  }

  lemma NoRootNoEntry(d: Disk, nodes: seq<Inode>, i: nat, bn: nat)
    requires i < |nodes| && |nodes[i].addrs| == 13 && 12 <= bn < MAXFILE && nodes[i].addrs[ROOT] == 0
    ensures AddrAt(d, nodes, i, DataSlot(bn)) == 0
  {
  }

  /** A new indirect block has no entries. */
  lemma NewRootEmpty(sb: Super, d: Disk, nodes: seq<Inode>, o: map<nat, Slot>, e: Disk, nodes': seq<Inode>,
                     o': map<nat, Slot>, i: nat, bn: nat, b: nat)
    requires Owning(sb, d, nodes, o) && Owning(sb, e, nodes', o') && Grew(sb, o, o') && i < |nodes|
             && 12 <= bn < MAXFILE
    requires nodes[i].addrs[ROOT] == 0 && Added(o, o') == {b} && b in o' && o'[b] == Slot(i, ROOT)
    ensures AddrAt(e, nodes', i, bn + 1) == 0
  {
    hide AddrAt, Owned, MapExact, FreeSet;
    NoRootNoEntry(d, nodes, i, bn);
    AddrStays(sb, d, nodes, o, e, nodes', o', i, bn + 1);
  }

  lemma KeptSelf(sb: Super, d: Disk, o: map<nat, Slot>)
    ensures Kept(sb, d, o, d, o)
  {
  }

  /** What is mapped depends on the addresses only. */
  lemma SameAddrs(d: Disk, nodes: seq<Inode>, e: Disk, nodes': seq<Inode>, j: nat, n: nat)
    requires j < |nodes| && j < |nodes'| && |nodes[j].addrs| == 13 && |nodes'[j].addrs| == 13
    requires forall k :: 0 <= k < SLOTS ==> AddrAt(e, nodes', j, k) == AddrAt(d, nodes, j, k)
    ensures MappedTo(e, nodes', j, n) <==> MappedTo(d, nodes, j, n)
    ensures Tight(e, nodes', j, n) <==> Tight(d, nodes, j, n)
  {
    assert AddrAt(e, nodes', j, ROOT) == nodes'[j].addrs[ROOT] && AddrAt(d, nodes, j, ROOT) == nodes[j].addrs[ROOT];
    hide AddrAt;
  }

  lemma KeptInodes(sb: Super, d: Disk, o: map<nat, Slot>, e: Disk, o': map<nat, Slot>)
    requires sb.Good(|d|) && Kept(sb, d, o, e, o')
    ensures |e| == |d| && forall j :: 0 <= j < sb.ninodes ==> DiskInode(sb, e, j) == DiskInode(sb, d, j)
  {
    hide InodeOf, WordsAt;
  }

  lemma DataInodes(sb: Super, d: Disk, b: nat, x: Block)
    requires sb.Good(|d|) && sb.DataStart() <= b < |d|
    ensures forall j :: 0 <= j < sb.ninodes ==> DiskInode(sb, d[b := x], j) == DiskInode(sb, d, j)
  {
    hide InodeOf, WordsAt;
  }

  lemma BlockMapped(d: Disk, nodes: seq<Inode>, i: nat, size: nat, bn: nat)
    requires i < |nodes| && |nodes[i].addrs| == 13 && size <= MAXBYTES && MappedTo(d, nodes, i, size) && bn < Have(size)
    ensures bn < MAXFILE && AddrAt(d, nodes, i, DataSlot(bn)) != 0
  {
    hide AddrAt;
    assert bn * 512 < size;
  }

  lemma AddrOwner(sb: Super, d: Disk, nodes: seq<Inode>, owner: map<nat, Slot>, i: nat, k: nat)
    requires Owning(sb, d, nodes, owner) && i < |nodes| && k < SLOTS && AddrAt(d, nodes, i, k) != 0
    ensures var b := AddrAt(d, nodes, i, k);
            sb.DataStart() <= b < sb.size && b in owner && owner[b] == Slot(i, k)
  {
    hide AddrAt, MapExact;
  }

  lemma SliceMore(c: seq<Byte>, off: nat, tot: nat, m: nat)
    requires off + tot + m <= |c|
    ensures c[off..off + tot] + c[off + tot..off + tot + m] == c[off..off + tot + m]
  {
  }

  /** A piece of a file within one block. */
  lemma ReadPiece(sb: Super, d: Disk, nodes: seq<Inode>, o: map<nat, Slot>, i: nat, off: nat, m: nat)
    requires Owning(sb, d, nodes, o) && i < |nodes| && off + m <= nodes[i].size && 0 < m && off % 512 + m <= 512
    requires AddrAt(d, nodes, i, DataSlot(off / 512)) != 0
    ensures var b := AddrAt(d, nodes, i, DataSlot(off / 512));
            b < |d| && d[b].at[off % 512..off % 512 + m] == Content(d, nodes, i)[off..off + m]
  {
    hide GetBit, GetWord, MapExact, Content, AddrAt;
    AddrOwner(sb, d, nodes, o, i, DataSlot(off / 512));
    var b := AddrAt(d, nodes, i, DataSlot(off / 512));
    var x, y := d[b].at[off % 512..off % 512 + m], Content(d, nodes, i)[off..off + m];
    forall q | 0 <= q < m
      ensures x[q] == y[q]
    {
      assert (off + q) / 512 == off / 512 && (off + q) % 512 == off % 512 + q;
    }
    assert x == y;
  }

  lemma SpliceNothing(c: seq<Byte>, off: nat)
    ensures off <= |c| ==> Splice(c, off, []) == c
  {
  }

  lemma SpliceStep(c: seq<Byte>, off: nat, s: seq<Byte>, done: nat, n: nat)
    requires off <= |c| && done + n <= |s|
    ensures |Splice(c, off, s[..done])| >= off + done
    ensures Splice(Splice(c, off, s[..done]), off + done, s[done..done + n]) == Splice(c, off, s[..done + n])
  {
    hide Splice;
    SpliceTwice(c, off, s[..done], s[done..done + n]);
    assert s[..done] + s[done..done + n] == s[..done + n];
  }

  /** Nothing written yet. */
  lemma WrittenStart(d: Disk, nodes: seq<Inode>, i: nat, off: nat, src: seq<Byte>)
    requires i < |nodes| && off <= nodes[i].size
    requires forall j :: 0 <= j < |nodes| ==> |nodes[j].addrs| == 13 && nodes[j].size <= MAXBYTES
    requires forall j :: 0 <= j < |nodes| ==> MappedTo(d, nodes, j, nodes[j].size)
    ensures AllMapped(d, nodes, i, off) && Written(d, nodes, d, nodes, i, off, off, src)
  {
    hide ByteAt, AddrAt;
  }

  // ---- what a write leaves behind ----

  /** File i has no block beyond its first n bytes, and the others have none beyond their sizes. */
  ghost predicate AllTight(d: Disk, nodes: seq<Inode>, i: nat, n: nat)
    requires i < |nodes| && forall j :: 0 <= j < |nodes| ==> |nodes[j].addrs| == 13
  {
    forall j :: 0 <= j < |nodes| ==> Tight(d, nodes, j, if j == i then n else nodes[j].size)
  }

  lemma DirectAddr(d: Disk, nodes: seq<Inode>, i: nat, k: nat)
    requires i < |nodes| && |nodes[i].addrs| == 13 && k <= ROOT
    ensures AddrAt(d, nodes, i, k) == nodes[i].addrs[k]
  {
  }

  lemma TightStays(sb: Super, d: Disk, nodes: seq<Inode>, o: map<nat, Slot>, e: Disk, nodes': seq<Inode>,
                   o': map<nat, Slot>, i: nat, bn: nat, j: nat, now: nat, next: nat)
    requires Owning(sb, d, nodes, o) && Owning(sb, e, nodes', o') && Grew(sb, o, o') && i < |nodes| && j < |nodes|
    requires Tight(d, nodes, j, now) && now <= next && bn < MAXFILE && (j == i ==> bn < Have(next))
    requires forall b :: b in Added(o, o') ==> o'[b] in {Slot(i, DataSlot(bn)), Slot(i, ROOT)}
    requires j == i && next <= 12 * 512 ==> forall b :: b in Added(o, o') ==> o'[b] == Slot(i, DataSlot(bn))
    ensures Tight(e, nodes', j, next)
  {
    hide AddrAt, Owned, MapExact, FreeSet, Grew, Added;
    forall c | Have(next) <= c < MAXFILE
      ensures AddrAt(e, nodes', j, DataSlot(c)) == 0
    {
      AddrStays(sb, d, nodes, o, e, nodes', o', j, DataSlot(c));
    }
    if next <= 12 * 512 {
      DirectAddr(d, nodes, j, ROOT);
      DirectAddr(e, nodes', j, ROOT);
      AddrStays(sb, d, nodes, o, e, nodes', o', j, ROOT);
    }
  }

  /** Allocating block bn, and perhaps the indirect block, leaves no block too many once the file reaches block bn. */
  lemma TightGrows(sb: Super, d: Disk, nodes: seq<Inode>, o: map<nat, Slot>, e: Disk, nodes': seq<Inode>,
                   o': map<nat, Slot>, i: nat, bn: nat, now: nat, next: nat)
    requires Owning(sb, d, nodes, o) && Owning(sb, e, nodes', o') && Grew(sb, o, o') && i < |nodes|
    requires forall j :: 0 <= j < |nodes| && j != i ==> nodes'[j].size == nodes[j].size
    requires AllTight(d, nodes, i, now) && now <= next && bn < Have(next) && bn < MAXFILE
    requires forall b :: b in Added(o, o') ==> o'[b] in {Slot(i, DataSlot(bn)), Slot(i, ROOT)}
    requires next <= 12 * 512 ==> forall b :: b in Added(o, o') ==> o'[b] == Slot(i, DataSlot(bn))
    ensures AllTight(e, nodes', i, next)
  {
    hide AddrAt, Owned, MapExact, FreeSet, Grew, Added;
    forall j | 0 <= j < |nodes|
      ensures Tight(e, nodes', j, if j == i then next else nodes'[j].size)
    {
      assert Tight(d, nodes, j, if j == i then now else nodes[j].size);
      TightStays(sb, d, nodes, o, e, nodes', o', i, bn, j, if j == i then now else nodes[j].size,
                 if j == i then next else nodes'[j].size);
    }
  }

  /** Writing a data block moves no block. */
  lemma StillAt(sb: Super, d: Disk, nodes: seq<Inode>, o: map<nat, Slot>, e: Disk, i: nat, k: nat)
    requires Owning(sb, d, nodes, o) && Owning(sb, e, nodes, o) && i < |nodes| && k < SLOTS
    ensures AddrAt(e, nodes, i, k) == AddrAt(d, nodes, i, k)
  {
    hide AddrAt, Owned, MapExact, Grew, Added;
    GrewNot(sb, o);
    AddrStays(sb, d, nodes, o, e, nodes, o, i, k);
  }

  /** Blocks other than bn stay where they are. */
  lemma OthersStay(sb: Super, d: Disk, nodes: seq<Inode>, o: map<nat, Slot>, e: Disk, nodes': seq<Inode>,
                   o': map<nat, Slot>, i: nat, bn: nat)
    requires Owning(sb, d, nodes, o) && Owning(sb, e, nodes', o') && Grew(sb, o, o') && i < |nodes| && bn < MAXFILE
    requires forall b :: b in Added(o, o') ==> o'[b] in {Slot(i, DataSlot(bn)), Slot(i, ROOT)}
    ensures forall c :: 0 <= c < MAXFILE && c != bn ==>
              AddrAt(e, nodes', i, DataSlot(c)) == AddrAt(d, nodes, i, DataSlot(c))
  {
    hide AddrAt, Owned, MapExact, FreeSet, Grew, Added;
    forall c | 0 <= c < MAXFILE && c != bn
      ensures AddrAt(e, nodes', i, DataSlot(c)) == AddrAt(d, nodes, i, DataSlot(c))
    {
      AddrStays(sb, d, nodes, o, e, nodes', o', i, DataSlot(c));
    }
  }

  lemma MapsNone(sb: Super)
    ensures MapsOf(sb, {}) == {}
  {
  }

  /** A turn of the loop, from what bmap and the copying do. */
  lemma StepDone(sb: Super, d: Disk, nodes: seq<Inode>, o: map<nat, Slot>, l: set<nat>, d': Disk, nodes': seq<Inode>,
                 o': map<nat, Slot>, l': set<nat>, i: nat, bn: nat, now: nat, next: nat, b: nat)
    requires Owning(sb, d, nodes, o) && Owning(sb, d', nodes', o') && Grew(sb, o, o') && i < |nodes| && bn < MAXFILE
    requires forall j :: 0 <= j < |nodes| && j != i ==> nodes'[j].size == nodes[j].size
    requires AllTight(d, nodes, i, now) && now <= next && bn < Have(next) && (next <= 12 * 512 ==> bn < 12)
    requires |Added(o, o')| == StepNeeds(bn, now) && b == AddrAt(d', nodes', i, DataSlot(bn))
    requires forall c :: c in Added(o, o') ==> o'[c] in {Slot(i, DataSlot(bn)), Slot(i, ROOT)}
    requires next <= 12 * 512 ==> forall c :: c in Added(o, o') ==> o'[c] == Slot(i, DataSlot(bn))
    requires bn < Have(now) ==> o' == o && l' == l + {b}
    requires bn >= Have(now) ==>
               l' == l + {b} + MapsOf(sb, Added(o, o')) + RootPart(nodes', i, if bn >= 12 then 1 else 0)
    requires RootOf(nodes, i) != 0 ==> RootOf(nodes', i) == RootOf(nodes, i)
    ensures AllTight(d', nodes', i, next) && Stepped(sb, d, nodes, o, l, d', nodes', o', l', i, bn, now)
  {
    hide AddrAt, Owned, MapExact, FreeSet, Grew, Added, AllTight, MapsOf, RootOf, Have, Tight;
    TightGrows(sb, d, nodes, o, d', nodes', o', i, bn, now, next);
    OthersStay(sb, d, nodes, o, d', nodes', o', i, bn);
    GrewNot(sb, o);
    MapsNone(sb);
  }

  /** The bytes from start up to end have been copied into file i. */
  ghost predicate CopiedTo(sb: Super, d0: Disk, nodes0: seq<Inode>, d: Disk, nodes: seq<Inode>, o: map<nat, Slot>,
                           i: nat, start: nat, end: nat, src: seq<Byte>)
  {
    && Owning(sb, d, nodes, o) && GoodInodes(sb, nodes0) && i < |nodes|
    && (forall j :: 0 <= j < |nodes| ==> nodes[j].size == nodes0[j].size)
    && start <= end <= MAXBYTES && end - start <= |src|
    && AllMapped(d, nodes, i, end) && Written(d0, nodes0, d, nodes, i, start, end, src)
  }

  /** Block bn of the file is still b, and the inodes on disk f are those of disk d. */
  ghost predicate StillThere(sb: Super, d: Disk, f: Disk, nodes: seq<Inode>, i: nat, bn: nat, b: nat) {
    && sb.Good(|d|) && |f| == |d| && i < |nodes| && |nodes[i].addrs| == 13 && bn < MAXFILE
    && AddrAt(f, nodes, i, DataSlot(bn)) == b
    && forall j :: 0 <= j < sb.ninodes ==> DiskInode(sb, f, j) == DiskInode(sb, d, j)
  }

  /** Where the next m bytes lie. */
  lemma StepRange(size: nat, at: nat, m: nat)
    requires 0 < m && at % 512 + m <= 512 && at + m <= MAXBYTES
    ensures var bn, next := at / 512, Max(size, at + m);
            bn < MAXFILE && bn < Have(next) && (next <= 12 * 512 ==> bn < 12) && Max(size, at) <= next
  {
  }

  /** What copying m bytes into the block bmap found makes of the disk. */
  lemma CopyDone(sb: Super, d0: Disk, nodes0: seq<Inode>, d: Disk, nodes: seq<Inode>, o: map<nat, Slot>, e: Disk,
                 nodes': seq<Inode>, o': map<nat, Slot>, i: nat, start: nat, off: nat, src: seq<Byte>, s: seq<Byte>,
                 bn: nat, b: nat)
    requires CopiedTo(sb, d0, nodes0, d, nodes, o, i, start, off, src) && Owning(sb, e, nodes', o')
    requires Kept(sb, d, o, e, o') && forall j :: 0 <= j < |nodes| ==> nodes'[j].size == nodes[j].size
    requires bn == off / 512 < MAXFILE && 0 != b == AddrAt(e, nodes', i, DataSlot(bn)) && b < |e|
    requires 0 < |s| && off % 512 + |s| <= 512 && off + |s| <= MAXBYTES && s <= src[off - start..]
    ensures var f := e[b := Patch(e[b], off % 512, s)];
            && CopiedTo(sb, d0, nodes0, f, nodes', o', i, start, off + |s|, src)
            && StillThere(sb, d, f, nodes', i, bn, b) && Owning(sb, f, nodes', o')
  {
    hide GetBit, GetWord, MapExact, Kept, AddrAt, MappedTo, Written, Patch, ByteAt, DiskInode, Owned;
    WrittenKept(sb, d0, nodes0, d, nodes, o, e, nodes', o', i, start, off, src);
    KeptInodes(sb, d, o, e, o');
    AddrOwner(sb, e, nodes', o', i, DataSlot(bn));
    var x := Patch(e[b], off % 512, s);
    assert s == src[off - start..off - start + |s|];
    WrittenPatch(sb, d0, nodes0, e, nodes', o', i, start, off, |s|, src);
    DataWrite(sb, e, nodes', o', b, x);
    DataInodes(sb, e, b, x);
    StillAt(sb, e, nodes', o', e[b := x], i, DataSlot(bn));
  }

  /** In a file that has the blocks of its first `now` bytes and no other, block bn is missing exactly when it lies
      beyond them, and so is the indirect block. */
  lemma MissingMeans(d: Disk, nodes: seq<Inode>, i: nat, now: nat, bn: nat)
    requires i < |nodes| && |nodes[i].addrs| == 13 && now <= MAXBYTES && bn < MAXFILE
    requires MappedTo(d, nodes, i, now) && Tight(d, nodes, i, now)
    ensures Missing(d, nodes, i, bn) == if bn >= Have(now) then 1 else 0
    ensures RootOf(nodes, i) == 0 <==> now <= 12 * 512
  {
    hide AddrAt, MappedTo;
    if bn < Have(now) {
      BlockMapped(d, nodes, i, now, bn);
    }
    if now > 12 * 512 {
      RootThere(d, nodes, i, now);
    }
  }

  lemma NeedsGrows(size: nat, off: nat, n: nat, n': nat)
    requires n <= n'
    ensures Needs(size, off, n) <= Needs(size, off, n')
  {
  }

  lemma DataOwned(sb: Super, d: Disk, nodes: seq<Inode>, o: map<nat, Slot>, i: nat, lo: nat, hi: nat, b: nat)
    requires Owning(sb, d, nodes, o) && i < |nodes| && lo <= hi <= MAXFILE && b in DataAddrs(d, nodes, i, lo, hi)
    requires forall bn :: lo <= bn < hi ==> AddrAt(d, nodes, i, DataSlot(bn)) != 0
    ensures sb.DataStart() <= b < sb.size && b != RootOf(nodes, i)
  {
    hide AddrAt, Owned, MapExact;
    var bn :| lo <= bn < hi && b == AddrAt(d, nodes, i, DataSlot(bn));
    AddrOwner(sb, d, nodes, o, i, DataSlot(bn));
    if RootOf(nodes, i) != 0 {
      RootOwned(sb, d, nodes, o, i);
    }
  }

  lemma NotAmong(d: Disk, nodes: seq<Inode>, i: nat, lo: nat, hi: nat, b: nat)
    requires i < |nodes| && |nodes[i].addrs| == 13 && lo <= hi <= MAXFILE
    requires forall c :: lo <= c < hi ==> AddrAt(d, nodes, i, DataSlot(c)) != b
    ensures b !in DataAddrs(d, nodes, i, lo, hi)
  {
    hide AddrAt, DataSlot;
  }

  lemma {:induction false} AddrsSize(d: Disk, nodes: seq<Inode>, i: nat, lo: nat, hi: nat)
    requires i < |nodes| && |nodes[i].addrs| == 13 && lo <= hi <= MAXFILE
    requires forall x, y :: lo <= x < y < hi ==>
               AddrAt(d, nodes, i, DataSlot(x)) != AddrAt(d, nodes, i, DataSlot(y))
    ensures |DataAddrs(d, nodes, i, lo, hi)| == hi - lo
    decreases hi
  {
    hide AddrAt, DataSlot;
    if lo == hi {
      assert DataAddrs(d, nodes, i, lo, hi) == {};
    } else {
      hide DataAddrs;
      AddrsSize(d, nodes, i, lo, hi - 1);
      DataMore(d, nodes, d, nodes, i, lo, hi - 1);
      NotAmong(d, nodes, i, lo, hi - 1, AddrAt(d, nodes, i, DataSlot(hi - 1)));
    }
  }

  /** A file's data blocks are different blocks. */
  lemma DataSize(sb: Super, d: Disk, nodes: seq<Inode>, o: map<nat, Slot>, i: nat, lo: nat, hi: nat)
    requires Owning(sb, d, nodes, o) && i < |nodes| && lo <= hi <= MAXFILE
    requires forall bn :: lo <= bn < hi ==> AddrAt(d, nodes, i, DataSlot(bn)) != 0
    ensures |DataAddrs(d, nodes, i, lo, hi)| == hi - lo
  {
    hide AddrAt, Owned, MapExact, DataAddrs;
    forall x, y | lo <= x < y < hi
      ensures AddrAt(d, nodes, i, DataSlot(x)) != AddrAt(d, nodes, i, DataSlot(y))
    {
      AddrOwner(sb, d, nodes, o, i, DataSlot(x));
      AddrOwner(sb, d, nodes, o, i, DataSlot(y));
    }
    AddrsSize(d, nodes, i, lo, hi);
  }

  /** The block of an inode, if the write lengthens the file. */
  function InodePart(sb: Super, i: nat, grows: nat): set<nat> {
    if grows == 1 then {sb.IBlock(i)} else {}
  }

  /** The distinct blocks a write of n bytes at off logs: the data blocks it touches, the bitmap blocks of those it
      allocates, the indirect block if that gets a new entry, and the inode's block if the file grows. */
  ghost function Footprint(sb: Super, d: Disk, nodes: seq<Inode>, added: set<nat>, i: nat, size: nat, off: nat, n: nat):
    set<nat>
    requires i < |nodes| && |nodes[i].addrs| == 13 && off + n <= MAXBYTES
  {
    DataAddrs(d, nodes, i, off / 512, off / 512 + Touched(off, n)) + MapsOf(sb, added)
    + RootPart(nodes, i, RootChanged(size, off, n)) + InodePart(sb, i, Grows(size, off, n))
  }

  lemma FourSizes(d: set<nat>, m: set<nat>, r: set<nat>, n: set<nat>, bm: nat, data: nat)
    requires bm <= data && (forall b :: b in d ==> data <= b) && (forall b :: b in r ==> data <= b) && d !! r
    requires (forall b :: b in m ==> bm <= b < data) && forall b :: b in n ==> b < bm
    ensures |d + m + r| == |d| + |m| + |r| && |d + m + r + n| == |d| + |m| + |r| + |n|
  {
    DisjointSize(d, m);
    DisjointSize(d + m, r);
    DisjointSize(d + m + r, n);
  }

  lemma TouchedMapped(d: Disk, nodes: seq<Inode>, i: nat, off: nat, n: nat)
    requires i < |nodes| && |nodes[i].addrs| == 13 && off + n <= MAXBYTES && MappedTo(d, nodes, i, off + n)
    ensures off / 512 + Touched(off, n) <= MAXFILE
    ensures forall bn :: off / 512 <= bn < off / 512 + Touched(off, n) ==> AddrAt(d, nodes, i, DataSlot(bn)) != 0
  {
    hide AddrAt, MappedTo;
    forall bn | off / 512 <= bn < off / 512 + Touched(off, n)
      ensures AddrAt(d, nodes, i, DataSlot(bn)) != 0
    {
      PageMapped(d, nodes, i, off + n, if bn == off / 512 then off else bn * 512);
    }
  }

  lemma RootSmall(size: nat, off: nat, n: nat)
    ensures RootChanged(size, off, n) <= 1 && Grows(size, off, n) <= 1
  {
  }

  lemma InodeSize(sb: Super, i: nat, grows: nat)
    requires grows <= 1
    ensures |InodePart(sb, i, grows)| == grows && forall b :: b in InodePart(sb, i, grows) ==> b == sb.IBlock(i)
  {
  }

  lemma InodeRange(sb: Super, n: nat, i: nat)
    requires sb.Good(n) && i < sb.ninodes
    ensures sb.inodestart <= sb.IBlock(i) < sb.bmapstart
  {
  }

  lemma MapsRange(sb: Super, d: Disk, nodes: seq<Inode>, o0: map<nat, Slot>, o: map<nat, Slot>)
    requires Owning(sb, d, nodes, o) && Grew(sb, o0, o)
    ensures forall b :: b in MapsOf(sb, Added(o0, o)) ==> sb.bmapstart <= b < sb.DataStart()
  {
    hide AddrAt, Owned, MapExact;
  }

  lemma RootRange(sb: Super, d: Disk, nodes: seq<Inode>, o: map<nat, Slot>, i: nat, changed: nat)
    requires Owning(sb, d, nodes, o) && i < |nodes| && changed <= 1 && (changed == 1 ==> RootOf(nodes, i) != 0)
    ensures |RootPart(nodes, i, changed)| == changed
    ensures forall b :: b in RootPart(nodes, i, changed) ==> sb.DataStart() <= b < sb.size && b == RootOf(nodes, i)
  {
    hide MapExact, Owned, AddrAt;
    if changed == 1 {
      DirectAddr(d, nodes, i, ROOT);
      AddrOwner(sb, d, nodes, o, i, ROOT);
    }
  }

  lemma UnionSize(a: set<nat>, b: set<nat>)
    ensures |a + b| <= |a| + |b|
  {
    SplitSize(a + b, a);
    SubsetSize((a + b) - a, b);
  }

  lemma {:induction false} MapsSize(sb: Super, s: set<nat>)
    ensures |MapsOf(sb, s)| <= |s|
  {
    if s != {} {
      var b :| b in s;
      MapsSize(sb, s - {b});
      MapsMore(sb, s - {b}, {b});
      MapsOne(sb, b);
      assert s == s - {b} + {b};
      UnionSize(MapsOf(sb, s - {b}), {sb.BBlock(b)});
    }
  }

  /** The four parts of a footprint are disjoint, so that its size is the sum of theirs. */
  lemma FootprintSize(sb: Super, d: Disk, nodes: seq<Inode>, o0: map<nat, Slot>, o: map<nat, Slot>, i: nat, size: nat,
                      off: nat, n: nat)
    requires Owning(sb, d, nodes, o) && Grew(sb, o0, o) && i < |nodes| && off <= size && off + n <= MAXBYTES
    requires MappedTo(d, nodes, i, off + n) && (RootChanged(size, off, n) == 1 ==> RootOf(nodes, i) != 0)
    ensures |Footprint(sb, d, nodes, Added(o0, o), i, size, off, n)|
            == Touched(off, n) + |MapsOf(sb, Added(o0, o))| + RootChanged(size, off, n) + Grows(size, off, n)
    ensures |MapsOf(sb, Added(o0, o))| <= |Added(o0, o)|
    ensures |DataAddrs(d, nodes, i, off / 512, off / 512 + Touched(off, n)) + MapsOf(sb, Added(o0, o))
             + RootPart(nodes, i, RootChanged(size, off, n))|
            == Touched(off, n) + |MapsOf(sb, Added(o0, o))| + RootChanged(size, off, n)
  {
    hide AddrAt, Owned, MapExact, RootChanged, MappedTo, DataAddrs, MapsOf, RootPart, Grew, Touched, Grows, RootOf,
         InodePart, Added;
    var lo, hi := off / 512, off / 512 + Touched(off, n);
    TouchedMapped(d, nodes, i, off, n);
    DataSize(sb, d, nodes, o, i, lo, hi);
    MapsSize(sb, Added(o0, o));
    var data, maps, root := DataAddrs(d, nodes, i, lo, hi), MapsOf(sb, Added(o0, o)),
                            RootPart(nodes, i, RootChanged(size, off, n));
    RootSmall(size, off, n);
    RootRange(sb, d, nodes, o, i, RootChanged(size, off, n));
    forall b | b in data
      ensures sb.DataStart() <= b && b !in root
    {
      DataOwned(sb, d, nodes, o, i, lo, hi, b);
    }
    MapsRange(sb, d, nodes, o0, o);
    InodeRange(sb, |d|, i);
    InodeSize(sb, i, Grows(size, off, n));
    FourSizes(data, maps, root, InodePart(sb, i, Grows(size, off, n)), sb.bmapstart, sb.DataStart());
  }

  // ---- the counting of a whole write ----

  /** A write that stops for want of blocks had too few of them from the start. */
  lemma StopCount(sb: Super, o0: map<nat, Slot>, o: map<nat, Slot>, size: nat, off: nat, tot: nat, m: nat, n: nat)
    requires off <= size && (tot == 0 || (off + tot) % 512 == 0) && 0 < m && (off + tot) % 512 + m <= 512
             && tot + m <= n
    requires Grew(sb, o0, o) && |Added(o0, o)| == Needs(size, off, tot)
    requires |FreeSet(sb, o)| < StepNeeds((off + tot) / 512, Max(size, off + tot))
    ensures |FreeSet(sb, o0)| < Needs(size, off, n)
  {
    hide Needs, Have, Max, FreeSet, Added, Grew, Touched, RootChanged;
    FreeLeft(sb, o0, o);
    StepBudget(size, off, tot, m);
    NeedsGrows(size, off, tot + m, n);
  }

  /** And it stops before it has used up its reservation. */
  lemma StopBudget(size: nat, off: nat, tot: nat, n: nat, maps: nat)
    requires off <= size && tot < n <= CHUNK && (tot == 0 || (off + tot) % 512 == 0) && maps <= Needs(size, off, tot)
    ensures Touched(off, tot) + maps + RootChanged(size, off, tot) + 1 < MAXOPBLOCKS
  {
    ChunkBudget(size, off, tot, maps);
  }

  lemma TouchedRange(off: nat, n: nat)
    requires off + n <= MAXBYTES
    ensures off / 512 + Touched(off, n) <= MAXFILE
  {
  }

  lemma Regroup(l: set<nat>, d: set<nat>, m: set<nat>, r: set<nat>)
    ensures l + d + m + r == l + (d + m + r)
  {
  }

  /** What has been logged so far, counted. */
  lemma TallySize(sb: Super, d: Disk, nodes: seq<Inode>, o0: map<nat, Slot>, o: map<nat, Slot>, i: nat, size: nat,
                  off: nat, n: nat, l0: set<nat>, l: set<nat>)
    requires Owning(sb, d, nodes, o) && i < |nodes| && off <= size && off + n <= MAXBYTES
    requires Tally(sb, d, nodes, o0, o, i, size, off, n, l0, l) && MappedTo(d, nodes, i, off + n)
    requires RootOf(nodes, i) == 0 ==> Max(size, off + n) <= 12 * 512
    ensures var maps := |MapsOf(sb, Added(o0, o))|;
            && maps <= Needs(size, off, n)
            && |l| <= |l0| + Touched(off, n) + maps + RootChanged(size, off, n)
  {
    hide AddrAt, Owned, MapExact, MappedTo, DataAddrs, MapsOf, RootPart, Grew, Touched, Grows, RootOf, Added, Needs;
    TouchedRange(off, n);
    FootprintSize(sb, d, nodes, o0, o, i, size, off, n);
    UnionSize(l0, DataAddrs(d, nodes, i, off / 512, off / 512 + Touched(off, n)) + MapsOf(sb, Added(o0, o))
                  + RootPart(nodes, i, RootChanged(size, off, n)));
    Regroup(l0, DataAddrs(d, nodes, i, off / 512, off / 512 + Touched(off, n)), MapsOf(sb, Added(o0, o)),
            RootPart(nodes, i, RootChanged(size, off, n)));
  }

  /** The footprint of a write, and its size. */
  ghost predicate Counted(sb: Super, d: Disk, nodes: seq<Inode>, o0: map<nat, Slot>, o: map<nat, Slot>, i: nat,
                          size: nat, off: nat, n: nat, l0: set<nat>, l: set<nat>, worst: nat)
    requires i < |nodes| && |nodes[i].addrs| == 13 && off + n <= MAXBYTES
  {
    var extra, maps := Footprint(sb, d, nodes, Added(o0, o), i, size, off, n), |MapsOf(sb, Added(o0, o))|;
    && Grew(sb, o0, o) && |Added(o0, o)| == Needs(size, off, n) && l == l0 + extra
    && |extra| == Touched(off, n) + maps + RootChanged(size, off, n) + Grows(size, off, n)
    && worst <= |l0| + |extra| - Grows(size, off, n)
    && (n <= CHUNK ==> |extra| <= MAXOPBLOCKS && (|extra| == MAXOPBLOCKS <==> Touched(off, n) == 4 && maps == 4)
                       && |extra| - Grows(size, off, n) < MAXOPBLOCKS)
  }

  lemma Gather(l: set<nat>, d: set<nat>, m: set<nat>, r: set<nat>, n: set<nat>)
    ensures l + d + m + r + n == l + (d + m + r + n)
  {
  }

  lemma TallyFootprint(sb: Super, d: Disk, nodes: seq<Inode>, o0: map<nat, Slot>, o: map<nat, Slot>, i: nat, size: nat,
                       off: nat, n: nat, l0: set<nat>, l: set<nat>)
    requires i < |nodes| && |nodes[i].addrs| == 13 && off + n <= MAXBYTES
    requires Tally(sb, d, nodes, o0, o, i, size, off, n, l0, l)
    ensures l + InodePart(sb, i, Grows(size, off, n)) == l0 + Footprint(sb, d, nodes, Added(o0, o), i, size, off, n)
  {
    hide DataAddrs, MapsOf, Grew, Touched, Grows, Added, Needs, RootPart, RootChanged, InodePart;
    TouchedRange(off, n);
    Gather(l0, DataAddrs(d, nodes, i, off / 512, off / 512 + Touched(off, n)), MapsOf(sb, Added(o0, o)),
           RootPart(nodes, i, RootChanged(size, off, n)), InodePart(sb, i, Grows(size, off, n)));
  }

  lemma SetsSame(d: Disk, nodes: seq<Inode>, d': Disk, nodes': seq<Inode>, i: nat, lo: nat, hi: nat)
    requires i < |nodes| && i < |nodes'| && |nodes[i].addrs| == 13 && |nodes'[i].addrs| == 13 && hi <= MAXFILE
    requires forall c :: lo <= c < hi ==> AddrAt(d', nodes', i, DataSlot(c)) == AddrAt(d, nodes, i, DataSlot(c))
    ensures DataAddrs(d', nodes', i, lo, hi) == DataAddrs(d, nodes, i, lo, hi)
  {
    hide AddrAt;
  }

  lemma SameData(sb: Super, d: Disk, nodes: seq<Inode>, o: map<nat, Slot>, d': Disk, nodes': seq<Inode>, i: nat,
                 lo: nat, hi: nat)
    requires Owning(sb, d, nodes, o) && Owning(sb, d', nodes', o) && i < |nodes| && hi <= MAXFILE
    ensures DataAddrs(d', nodes', i, lo, hi) == DataAddrs(d, nodes, i, lo, hi)
  {
    hide AddrAt, Owned, MapExact, Grew, Added;
    GrewNot(sb, o);
    forall c | lo <= c < hi
      ensures AddrAt(d', nodes', i, DataSlot(c)) == AddrAt(d, nodes, i, DataSlot(c))
    {
      AddrStays(sb, d, nodes, o, d', nodes', o, i, DataSlot(c));
    }
    SetsSame(d, nodes, d', nodes', i, lo, hi);
  }

  lemma SameFootprint(sb: Super, d: Disk, nodes: seq<Inode>, o: map<nat, Slot>, d': Disk, nodes': seq<Inode>,
                      added: set<nat>, i: nat, size: nat, off: nat, n: nat)
    requires Owning(sb, d, nodes, o) && Owning(sb, d', nodes', o) && i < |nodes| && off + n <= MAXBYTES
    requires RootOf(nodes', i) == RootOf(nodes, i)
    ensures Footprint(sb, d', nodes', added, i, size, off, n) == Footprint(sb, d, nodes, added, i, size, off, n)
  {
    hide AddrAt, Owned, MapExact, DataAddrs, MapsOf, Touched, Grows, RootChanged, InodePart, RootOf;
    TouchedRange(off, n);
    SameData(sb, d, nodes, o, d', nodes', i, off / 512, off / 512 + Touched(off, n));
  }

  /** From the count at the end of the loop to that at the end of the write, which may have to log the inode. */
  lemma CountDone(sb: Super, d: Disk, nodes: seq<Inode>, o0: map<nat, Slot>, o: map<nat, Slot>, i: nat, size: nat,
                  off: nat, n: nat, l0: set<nat>, l: set<nat>, d': Disk, nodes': seq<Inode>, l': set<nat>, worst: nat)
    requires Owning(sb, d, nodes, o) && Owning(sb, d', nodes', o) && i < |nodes| && off <= size && off + n <= MAXBYTES
    requires Tally(sb, d, nodes, o0, o, i, size, off, n, l0, l) && MappedTo(d, nodes, i, off + n)
    requires RootOf(nodes, i) == 0 ==> Max(size, off + n) <= 12 * 512
    requires RootOf(nodes', i) == RootOf(nodes, i) && l' == l + InodePart(sb, i, Grows(size, off, n)) && worst <= |l|
    ensures Counted(sb, d', nodes', o0, o, i, size, off, n, l0, l', worst)
  {
    hide AddrAt, Owned, MapExact, MappedTo, MapsOf, Grew, Touched, Grows, RootOf, Added, Needs, Footprint;
    TallySize(sb, d, nodes, o0, o, i, size, off, n, l0, l);
    FootprintSize(sb, d, nodes, o0, o, i, size, off, n);
    SameFootprint(sb, d, nodes, o, d', nodes', Added(o0, o), i, size, off, n);
    TallyFootprint(sb, d, nodes, o0, o, i, size, off, n, l0, l);
    hide Tally, RootChanged, InodePart;
    if n <= CHUNK {
      ChunkBudget(size, off, n, |MapsOf(sb, Added(o0, o))|);
    }
  }

  // ---- operations ----

  /** How much of n bytes at off the chunks of filewrite write before one of them would make the file too long. */
  function Fits(off: nat, n: nat): nat {
    if off + n <= MAXBYTES then n else if off > MAXBYTES then 0 else (MAXBYTES - off) / CHUNK * CHUNK
  }

  function Min(a: nat, b: nat): nat {
    if a < b then a else b
  }

  /** A file with s written at off; off may be out of reach. */
  function Partly(c: seq<Byte>, off: nat, s: seq<Byte>): seq<Byte> {
    if off <= |c| then Splice(c, off, s) else c
  }

  /** An operation that has ended: the file system it left, the distinct blocks it logged, and the most it had logged
      before any call of log_write. */
  datatype Op = Op(disk: Disk, nodes: seq<Inode>, owner: map<nat, Slot>, logged: set<nat>, worst: nat)

  /** The operation began on disk d, and changed no block but those it logged. */
  ghost predicate Changes(sb: Super, d: Disk, op: Op) {
    && |op.disk| == |d|
    && (forall b :: b in op.logged ==> sb.inodestart <= b < sb.size)
    && forall b :: 0 <= b < |d| && b !in op.logged ==> op.disk[b] == d[b]
  }

  /** And it never used up its reservation before a call of log_write. */
  ghost predicate OpFrom(sb: Super, d: Disk, op: Op) {
    Changes(sb, d, op) && |op.logged| <= MAXOPBLOCKS && op.worst < MAXOPBLOCKS
  }

  ghost function LastDisk(d: Disk, os: seq<Op>): Disk {
    if os == [] then d else os[|os| - 1].disk
  }

  /** Each operation began where the one before it ended. */
  ghost predicate Chained(sb: Super, d: Disk, os: seq<Op>) {
    forall k :: 0 <= k < |os| ==> OpFrom(sb, LastDisk(d, os[..k]), os[k])
  }

  lemma ChainMore(sb: Super, d: Disk, os: seq<Op>, op: Op)
    requires Chained(sb, d, os) && OpFrom(sb, LastDisk(d, os), op)
    ensures Chained(sb, d, os + [op]) && LastDisk(d, os + [op]) == op.disk
  {
    hide OpFrom;
    forall k | 0 <= k < |os| + 1
      ensures OpFrom(sb, LastDisk(d, (os + [op])[..k]), (os + [op])[k])
    {
      assert (os + [op])[..k] == os[..k];
      assert os[..|os|] == os;
    }
  }

  /** A file system in which file i has contents c and every other file is as it was. */
  ghost predicate Leaves(sb: Super, d: Disk, nodes: seq<Inode>, owner: map<nat, Slot>, d0: Disk, nodes0: seq<Inode>,
                         i: nat, c: seq<Byte>)
    requires GoodInodes(sb, nodes0) && i < |nodes0|
  {
    && Image(sb, d, nodes, owner) && Content(d, nodes, i) == c
    && forall j :: 0 <= j < |nodes| && j != i ==>
         nodes[j] == nodes0[j] && Content(d, nodes, j) == Content(d0, nodes0, j)
  }

  /** Operation k leaves the file with the first k + 1 chunks of what has been written. */
  ghost predicate InChunks(sb: Super, os: seq<Op>, d0: Disk, nodes0: seq<Inode>, i: nat, off: nat, s: seq<Byte>)
    requires GoodInodes(sb, nodes0) && i < |nodes0|
  {
    forall k :: 0 <= k < |os| ==>
      Leaves(sb, os[k].disk, os[k].nodes, os[k].owner, d0, nodes0, i,
             Partly(Content(d0, nodes0, i), off, s[..Min((k + 1) * CHUNK, |s|)]))
  }

  lemma MoreChunks(sb: Super, os: seq<Op>, op: Op, d0: Disk, nodes0: seq<Inode>, i: nat, off: nat, s: seq<Byte>,
                   t: seq<Byte>)
    requires GoodInodes(sb, nodes0) && i < |nodes0| && InChunks(sb, os, d0, nodes0, i, off, s)
    requires |s| == |os| * CHUNK && |t| <= CHUNK
    requires Leaves(sb, op.disk, op.nodes, op.owner, d0, nodes0, i, Partly(Content(d0, nodes0, i), off, s + t))
    ensures InChunks(sb, os + [op], d0, nodes0, i, off, s + t)
  {
    hide Leaves, Content, Partly;
    forall k | 0 <= k < |os| + 1
      ensures var op' := (os + [op])[k];
              Leaves(sb, op'.disk, op'.nodes, op'.owner, d0, nodes0, i,
                     Partly(Content(d0, nodes0, i), off, (s + t)[..Min((k + 1) * CHUNK, |s + t|)]))
    {
      assert k < |os| ==> (s + t)[..(k + 1) * CHUNK] == s[..(k + 1) * CHUNK];
      assert k == |os| ==> (s + t)[..Min((k + 1) * CHUNK, |s + t|)] == s + t;
    }
  }

  /** No chunk yet. */
  lemma FirstChunk(sb: Super, d: Disk, nodes: seq<Inode>, o: map<nat, Slot>, i: nat, off: nat, s: seq<Byte>)
    requires Image(sb, d, nodes, o) && i < |nodes|
    ensures LastDisk(d, []) == d && Chained(sb, d, []) && InChunks(sb, [], d, nodes, i, off, s[..0])
    ensures Leaves(sb, d, nodes, o, d, nodes, i, Partly(Content(d, nodes, i), off, s[..0]))
    ensures Grew(sb, o, o) && |Added(o, o)| == 0 && (off <= nodes[i].size ==> Needs(nodes[i].size, off, 0) == 0)
  {
    hide Content, FileOk, Owned, MapExact, AddrAt, Splice, Grew, Added;
    GrewNot(sb, o);
    SpliceNothing(Content(d, nodes, i), off);
    assert s[..0] == [];
  }

  lemma SpliceSize(c: seq<Byte>, off: nat, s: seq<Byte>)
    requires off <= |c|
    ensures |Splice(c, off, s)| == Max(|c|, off + |s|)
  {
    SpliceAt(c, off, s);
  }

  /** A chunk after those before it. */
  lemma LeavesTwice(sb: Super, d0: Disk, nodes0: seq<Inode>, d1: Disk, nodes1: seq<Inode>, o1: map<nat, Slot>, d: Disk,
                    nodes: seq<Inode>, o: map<nat, Slot>, i: nat, off: nat, s: seq<Byte>, done: nat, n: nat)
    requires GoodInodes(sb, nodes0) && i < |nodes0| && off <= nodes0[i].size && done + n <= |s|
    requires Leaves(sb, d1, nodes1, o1, d0, nodes0, i, Partly(Content(d0, nodes0, i), off, s[..done]))
    requires off + done <= nodes1[i].size
    requires Leaves(sb, d, nodes, o, d1, nodes1, i, Splice(Content(d1, nodes1, i), off + done, s[done..done + n]))
    ensures Leaves(sb, d, nodes, o, d0, nodes0, i, Partly(Content(d0, nodes0, i), off, s[..done + n]))
    ensures nodes[i].size == Max(nodes1[i].size, off + done + n)
  {
    hide FileOk, Owned, MapExact, AddrAt, Splice, Content;
    SpliceStep(Content(d0, nodes0, i), off, s, done, n);
    SpliceSize(Content(d1, nodes1, i), off + done, s[done..done + n]);
    assert |s[done..done + n]| == n;
    forall j | 0 <= j < |nodes| && j != i
      ensures nodes[j] == nodes0[j] && Content(d, nodes, j) == Content(d0, nodes0, j)
    {
      assert nodes[j] == nodes1[j] && Content(d, nodes, j) == Content(d1, nodes1, j);
      assert nodes1[j] == nodes0[j] && Content(d1, nodes1, j) == Content(d0, nodes0, j);
    }
  }

  lemma OccupiesGrows(m: nat, n: nat)
    requires m <= n
    ensures Occupies(m) <= Occupies(n)
  {
  }

  /** A chunk that cannot be written for want of blocks. */
  lemma PanicCount(sb: Super, o0: map<nat, Slot>, o: map<nat, Slot>, size: nat, off: nat, done: nat, n1: nat, n: nat)
    requires off <= size && done % CHUNK == 0 && n1 <= CHUNK && done + n1 <= n && (n1 == CHUNK || done + n1 == n)
    requires off + done + n1 <= MAXBYTES && Grew(sb, o0, o) && |Added(o0, o)| == Needs(size, off, done)
    requires |FreeSet(sb, o)| < Needs(Max(size, off + done), off + done, n1)
    ensures |FreeSet(sb, o0)| < Needs(size, off, Fits(off, n))
  {
    hide Occupies, FreeSet, Added, Grew;
    FreeLeft(sb, o0, o);
    assert done + n1 <= Fits(off, n);
    OccupiesGrows(Max(size, off + done + n1), Max(size, off + Fits(off, n)));
  }

  /** A chunk that would make the file too long, after all that fit. */
  lemma FailCount(sb: Super, o0: map<nat, Slot>, o: map<nat, Slot>, size: nat, off: nat, done: nat, n1: nat, n: nat)
    requires done % CHUNK == 0 && n1 <= CHUNK && done + n1 <= n && Grew(sb, o0, o)
    ensures off <= size && off + done <= MAXBYTES < off + done + n1 && |Added(o0, o)| == Needs(size, off, done) ==>
              done == Fits(off, n) && off + n > MAXBYTES && |FreeSet(sb, o0)| >= Needs(size, off, Fits(off, n))
  {
    hide FreeSet, Added, Grew, Needs;
    FreeLeft(sb, o0, o);
  }

  lemma NextCount(sb: Super, o0: map<nat, Slot>, o1: map<nat, Slot>, o: map<nat, Slot>, size: nat, off: nat, done: nat,
                  n: nat)
    requires off <= size && Grew(sb, o0, o1) && Grew(sb, o1, o) && |Added(o0, o1)| == Needs(size, off, done)
    requires |Added(o1, o)| == Needs(Max(size, off + done), off + done, n)
    ensures Grew(sb, o0, o) && |Added(o0, o)| == Needs(size, off, done + n)
  {
    hide FreeSet, Added, Grew, Occupies;
    GrewTwice(sb, o0, o1, o);
  }

  lemma DoneCount(sb: Super, o0: map<nat, Slot>, o: map<nat, Slot>, size: nat, off: nat, n: nat)
    requires Grew(sb, o0, o)
    ensures off <= size && off + n <= MAXBYTES && |Added(o0, o)| == Needs(size, off, n) ==>
              |FreeSet(sb, o0)| >= Needs(size, off, Fits(off, n))
  {
    hide FreeSet, Added, Grew, Needs;
    FreeLeft(sb, o0, o);
  }

  // ---- freeing ----

  /** The owners that are left when slots lo to hi - 1 of inode i are freed. */
  ghost function Spared(owner: map<nat, Slot>, i: nat, lo: nat, hi: nat): (o: map<nat, Slot>)
  {
    map b | b in owner && !(owner[b].i == i && lo <= owner[b].k < hi) :: owner[b]
  }

  /** Freeing the next slot removes exactly the block it holds. */
  lemma SparedStep(sb: Super, d: Disk, nodes: seq<Inode>, owner: map<nat, Slot>, i: nat, lo: nat, hi: nat)
    requires GoodInodes(sb, nodes) && Owned(sb, d, nodes, owner) && 0 < sb.DataStart() && i < |nodes|
    requires lo <= hi < SLOTS
    ensures Spared(owner, i, lo, hi + 1) == Spared(owner, i, lo, hi) - {AddrAt(d, nodes, i, hi)}
  {
    hide AddrAt;
    var b := AddrAt(d, nodes, i, hi);
    var x, y := Spared(owner, i, lo, hi + 1), Spared(owner, i, lo, hi) - {b};
    forall c
      ensures c in x <==> c in y
    {
      if c in owner {
        assert AddrAt(d, nodes, owner[c].i, owner[c].k) == c;
      }
    }
  }

  lemma DetachOwned(sb: Super, d: Disk, nodes: seq<Inode>, e: Disk, nodes': seq<Inode>, owner: map<nat, Slot>, i: nat,
                    k: nat, b: nat)
    requires GoodInodes(sb, nodes) && GoodInodes(sb, nodes') && Owned(sb, d, nodes, owner) && b in owner
    requires owner[b] == Slot(i, k)
    requires forall j, l :: 0 <= j < |nodes| && 0 <= l < SLOTS ==>
               AddrAt(e, nodes', j, l) == if j == i && l == k then 0 else AddrAt(d, nodes, j, l)
    ensures Owned(sb, e, nodes', owner - {b})
  {
    hide AddrAt;
  }

  /** Clearing a direct slot and its bit. */
  lemma DetachAddr(sb: Super, d: Disk, nodes: seq<Inode>, owner: map<nat, Slot>, i: nat, k: nat)
    requires Owning(sb, d, nodes, owner) && i < |nodes| && k < NDIRECT && nodes[i].addrs[k] != 0
    ensures var b := nodes[i].addrs[k];
            && Bit(sb, d, b) && b in owner && owner[b] == Slot(i, k)
            && Owning(sb, Mark(sb, d, b, false), nodes[i := nodes[i].(addrs := nodes[i].addrs[k := 0])], owner - {b})
  {
    hide GetBit, SetBit, GetWord;
    var b := nodes[i].addrs[k];
    assert AddrAt(d, nodes, i, k) == b;
    var e := Mark(sb, d, b, false);
    var nodes' := nodes[i := nodes[i].(addrs := nodes[i].addrs[k := 0])];
    forall j, l | 0 <= j < |nodes| && 0 <= l < SLOTS
      ensures AddrAt(e, nodes', j, l) == if j == i && l == k then 0 else AddrAt(d, nodes, j, l)
    {
      AddrFrame(sb, d, e, nodes, j, l);
    }
    DetachOwned(sb, d, nodes, e, nodes', owner, i, k, b);
    forall c | 0 <= c < sb.size
      ensures Bit(sb, e, c) <==> c < sb.DataStart() || c in owner - {b}
    {
      MarkAt(sb, d, b, false, c);
    }
  }

  /** Dropping the indirect block once its bit and those of its entries are clear. */
  lemma DetachRoot(sb: Super, d: Disk, nodes: seq<Inode>, owner: map<nat, Slot>, i: nat)
    requires sb.Good(|d|) && GoodInodes(sb, nodes) && Owned(sb, d, nodes, owner) && i < |nodes|
    requires forall k :: 0 <= k < NDIRECT ==> nodes[i].addrs[k] == 0
    requires MapExact(sb, d, Spared(owner, i, ROOT, SLOTS))
    ensures Owning(sb, d, nodes[i := nodes[i].(addrs := nodes[i].addrs[ROOT := 0])], Spared(owner, i, ROOT, SLOTS))
  {
    hide GetBit, GetWord, MapExact;
    var nodes' := nodes[i := nodes[i].(addrs := nodes[i].addrs[ROOT := 0])];
    forall j, l | 0 <= j < |nodes| && 0 <= l < SLOTS
      ensures AddrAt(d, nodes', j, l) == if j == i then 0 else AddrAt(d, nodes, j, l)
    {
    }
    forall b | b in Spared(owner, i, ROOT, SLOTS)
      ensures owner[b].i != i
    {
      assert AddrAt(d, nodes, owner[b].i, owner[b].k) == b;
    }
  }

  /** Clearing the bit of an entry of the indirect block, or of the indirect block itself. */
  lemma FreeSlot(sb: Super, d: Disk, nodes: seq<Inode>, owner: map<nat, Slot>, o: map<nat, Slot>, b: nat)
    requires sb.Good(|d|) && GoodInodes(sb, nodes) && Owned(sb, d, nodes, owner) && MapExact(sb, d, o)
    requires b in o && sb.DataStart() <= b < sb.size
    ensures Bit(sb, d, b) && Owned(sb, Mark(sb, d, b, false), nodes, owner)
    ensures MapExact(sb, Mark(sb, d, b, false), o - {b})
  {
    hide GetBit, SetBit, GetWord;
    var e := Mark(sb, d, b, false);
    OwnedFrame(sb, d, e, nodes, owner);
    forall c | 0 <= c < sb.size
      ensures Bit(sb, e, c) <==> c < sb.DataStart() || c in o - {b}
    {
      MarkAt(sb, d, b, false, c);
    }
  }

  lemma SparedNone(owner: map<nat, Slot>, i: nat, k: nat)
    ensures Spared(owner, i, k, k) == owner
  {
  }

  lemma SparedTwice(owner: map<nat, Slot>, i: nat)
    ensures Spared(Spared(owner, i, 0, ROOT), i, ROOT, SLOTS) == Spared(owner, i, 0, SLOTS)
  {
  }

  lemma SparedRoot(sb: Super, d: Disk, nodes: seq<Inode>, owner: map<nat, Slot>, i: nat)
    requires GoodInodes(sb, nodes) && Owned(sb, d, nodes, owner) && 0 < sb.DataStart() && i < |nodes|
    requires nodes[i].addrs[ROOT] != 0
    ensures var root := nodes[i].addrs[ROOT];
            && root in Spared(owner, i, ROOT + 1, SLOTS)
            && Spared(owner, i, ROOT, SLOTS) == Spared(owner, i, ROOT + 1, SLOTS) - {root}
  {
    hide AddrAt;
    var root := nodes[i].addrs[ROOT];
    RootOwned(sb, d, nodes, owner, i);
    var x, y := Spared(owner, i, ROOT, SLOTS), Spared(owner, i, ROOT + 1, SLOTS) - {root};
    forall c
      ensures c in x <==> c in y
    {
      if c in owner && owner[c] == Slot(i, ROOT) {
        DirectAddr(d, nodes, i, ROOT);
        assert AddrAt(d, nodes, owner[c].i, owner[c].k) == c;
      }
    }
  }

  lemma NoRootSpared(sb: Super, d: Disk, nodes: seq<Inode>, owner: map<nat, Slot>, i: nat)
    requires GoodInodes(sb, nodes) && Owned(sb, d, nodes, owner) && 0 < sb.DataStart() && i < |nodes|
    requires nodes[i].addrs[ROOT] == 0
    ensures Spared(owner, i, ROOT, SLOTS) == owner
  {
    hide GetWord;
    forall c | c in owner
      ensures !(owner[c].i == i && owner[c].k >= ROOT)
    {
      assert AddrAt(d, nodes, owner[c].i, owner[c].k) == c;
    }
  }

  lemma ZeroUnowned(sb: Super, d: Disk, nodes: seq<Inode>, owner: map<nat, Slot>)
    requires GoodInodes(sb, nodes) && Owned(sb, d, nodes, owner) && 0 < sb.DataStart()
    ensures 0 !in owner && owner - {0} == owner
  {
  }

  lemma ZeroSpared(sb: Super, d: Disk, nodes: seq<Inode>, owner: map<nat, Slot>, i: nat, lo: nat, hi: nat)
    requires GoodInodes(sb, nodes) && Owned(sb, d, nodes, owner) && 0 < sb.DataStart()
    ensures Spared(owner, i, lo, hi) - {0} == Spared(owner, i, lo, hi)
  {
  }

  lemma EntryOwned(sb: Super, d: Disk, nodes: seq<Inode>, owner: map<nat, Slot>, i: nat, k: nat)
    requires GoodInodes(sb, nodes) && Owned(sb, d, nodes, owner) && i < |nodes| && 13 <= k < SLOTS
    requires AddrAt(d, nodes, i, k) != 0
    ensures var b := AddrAt(d, nodes, i, k);
            b in Spared(owner, i, 13, k) && sb.DataStart() <= b < sb.size
  {
    hide AddrAt;
  }

  lemma RootInRange(sb: Super, d: Disk, nodes: seq<Inode>, owner: map<nat, Slot>, i: nat)
    requires GoodInodes(sb, nodes) && i < |nodes| && nodes[i].addrs[ROOT] != 0
    ensures sb.DataStart() <= nodes[i].addrs[ROOT] < sb.size
  {
  }

  lemma NothingMapped(d: Disk, nodes: seq<Inode>, i: nat)
    requires i < |nodes| && |nodes[i].addrs| == 13
    requires forall k :: 0 <= k < 13 ==> nodes[i].addrs[k] == 0
    ensures MappedTo(d, nodes, i, 0) && Tight(d, nodes, i, 0)
  {
  }

  /** Files do not see changes of the inode blocks and of the free map. */
  lemma MetaFrame(sb: Super, d: Disk, e: Disk, nodes: seq<Inode>, o: map<nat, Slot>, j: nat)
    requires Owning(sb, d, nodes, o) && |e| == |d| && j < |nodes| && MappedTo(d, nodes, j, nodes[j].size)
    requires Tight(d, nodes, j, nodes[j].size)
    requires forall b :: 0 <= b < |d| && b >= sb.DataStart() ==> e[b] == d[b]
    ensures Content(e, nodes, j) == Content(d, nodes, j)
    ensures MappedTo(e, nodes, j, nodes[j].size) && Tight(e, nodes, j, nodes[j].size)
  {
    hide GetBit, GetWord, MapExact, Content, MappedTo, Tight;
    forall k | 0 <= k < SLOTS
      ensures AddrAt(e, nodes, j, k) == AddrAt(d, nodes, j, k)
    {
      AddrFrame(sb, d, e, nodes, j, k);
    }
    SameAddrs(d, nodes, e, nodes, j, nodes[j].size);
    var x, y := Content(e, nodes, j), Content(d, nodes, j);
    forall p | 0 <= p < nodes[j].size
      ensures x[p] == y[p]
    {
      PageMapped(d, nodes, j, nodes[j].size, p);
      var b := AddrAt(d, nodes, j, DataSlot(p / 512));
      assert b in o;
    }
    assert x == y;
  }

  /** A file whose inode is untouched keeps its contents when only the free map changes. */
  lemma OtherFile(sb: Super, d: Disk, nodes: seq<Inode>, o: map<nat, Slot>, e: Disk, nodes': seq<Inode>, j: nat)
    requires Owning(sb, d, nodes, o) && GoodInodes(sb, nodes') && |e| == |d| && j < |nodes| && nodes'[j] == nodes[j]
    requires FileOk(sb, d, nodes, j)
    requires forall b :: 0 <= b < |d| && !(sb.bmapstart <= b < sb.DataStart()) ==> e[b] == d[b]
    ensures Content(e, nodes', j) == Content(d, nodes, j) && FileOk(sb, e, nodes', j)
  {
    hide GetWord, Owned, MapExact, Content, InodeOf, WordsAt, Tight, MappedTo;
    MetaFrame(sb, d, e, nodes, o, j);
    var x, y := Content(e, nodes', j), Content(e, nodes, j);
    forall k | 0 <= k < SLOTS
      ensures AddrAt(e, nodes', j, k) == AddrAt(e, nodes, j, k)
    {
    }
    SameAddrs(e, nodes, e, nodes', j, nodes[j].size);
    forall p | 0 <= p < nodes[j].size
      ensures x[p] == y[p]
    {
    }
    assert x == y;
  }

  /** Addresses and bytes do not depend on the recorded sizes. */
  lemma SizeFrame(d: Disk, nodes: seq<Inode>, i: nat, size: nat, j: nat, p: nat)
    requires i < |nodes| && j < |nodes| && |nodes[j].addrs| == 13 && p < MAXBYTES
    ensures var nodes' := nodes[i := nodes[i].(size := size)];
            ByteAt(d, nodes', j, p) == ByteAt(d, nodes, j, p)
  {
  }

  lemma SizeContent(d: Disk, nodes: seq<Inode>, i: nat, size: nat, j: nat)
    requires i < |nodes| && j < |nodes| && j != i && |nodes[j].addrs| == 13 && nodes[j].size <= MAXBYTES
    ensures Content(d, nodes[i := nodes[i].(size := size)], j) == Content(d, nodes, j)
  {
    hide AddrAt, Content;
    var nodes' := nodes[i := nodes[i].(size := size)];
    var x, y := Content(d, nodes', j), Content(d, nodes, j);
    forall p | 0 <= p < nodes[j].size
      ensures x[p] == y[p]
    {
      SizeFrame(d, nodes, i, size, j, p);
    }
    assert x == y;
  }

  /** When every byte has been copied, the file is the old one with src spliced in. */
  lemma WrittenDone(sb: Super, d0: Disk, nodes0: seq<Inode>, d: Disk, nodes: seq<Inode>, i: nat, off: nat,
                    src: seq<Byte>)
    requires GoodInodes(sb, nodes0) && GoodInodes(sb, nodes) && i < |nodes| && off <= nodes0[i].size
    requires off + |src| <= MAXBYTES
    requires nodes == nodes0[i := nodes0[i].(addrs := nodes[i].addrs)]
    requires Written(d0, nodes0, d, nodes, i, off, off + |src|, src)
    ensures var size := if off + |src| > nodes0[i].size then off + |src| else nodes0[i].size;
            var nodes' := nodes[i := nodes[i].(size := size)];
            && Content(d, nodes', i) == Splice(Content(d0, nodes0, i), off, src)
            && forall j :: 0 <= j < |nodes| && j != i ==> Content(d, nodes', j) == Content(d0, nodes0, j)
  {
    hide AddrAt;
    var size := if off + |src| > nodes0[i].size then off + |src| else nodes0[i].size;
    var nodes' := nodes[i := nodes[i].(size := size)];
    var c0, c, want := Content(d0, nodes0, i), Content(d, nodes', i), Splice(Content(d0, nodes0, i), off, src);
    forall j, p | 0 <= j < |nodes| && 0 <= p < MAXBYTES
      ensures ByteAt(d, nodes', j, p) == ByteAt(d, nodes, j, p)
    {
      SizeFrame(d, nodes, i, size, j, p);
    }
    SpliceAt(c0, off, src);
    hide Splice;
    assert |want| == size;
    forall p | 0 <= p < size
      ensures c[p] == want[p]
    {
      assert c[p] == ByteAt(d, nodes, i, p);
    }
    assert c == want;
    forall j | 0 <= j < |nodes| && j != i
      ensures Content(d, nodes', j) == Content(d0, nodes0, j)
    {
      var x, y := Content(d, nodes', j), Content(d0, nodes0, j);
      forall p | 0 <= p < |x|
        ensures x[p] == y[p]
      {
        assert x[p] == ByteAt(d, nodes, j, p);
      }
    }
  }

  lemma SizeRoot(nodes: seq<Inode>, i: nat, size: nat)
    requires i < |nodes|
    ensures RootOf(nodes[i := nodes[i].(size := size)], i) == RootOf(nodes, i)
  {
  }

  lemma SizeOwning(sb: Super, d: Disk, nodes: seq<Inode>, o: map<nat, Slot>, i: nat, size: nat)
    requires Owning(sb, d, nodes, o) && i < |nodes| && size <= MAXBYTES
    ensures Owning(sb, d, nodes[i := nodes[i].(size := size)], o)
  {
    hide GetBit, GetWord, MapExact;
    var nodes' := nodes[i := nodes[i].(size := size)];
    assert forall j, k :: 0 <= j < |nodes| && 0 <= k < SLOTS ==> AddrAt(d, nodes', j, k) == AddrAt(d, nodes, j, k);
  }

  lemma SizeMapped(d: Disk, nodes: seq<Inode>, i: nat, size: nat, j: nat, n: nat)
    requires i < |nodes| && j < |nodes| && |nodes[j].addrs| == 13 && MappedTo(d, nodes, j, n) && Tight(d, nodes, j, n)
    ensures var nodes' := nodes[i := nodes[i].(size := size)];
            MappedTo(d, nodes', j, n) && Tight(d, nodes', j, n)
  {
    hide GetWord, MappedTo, Tight;
    var nodes' := nodes[i := nodes[i].(size := size)];
    assert forall k :: 0 <= k < SLOTS ==> AddrAt(d, nodes', j, k) == AddrAt(d, nodes, j, k);
    SameAddrs(d, nodes, d, nodes', j, n);
  }

  // ---- an empty disk ----

  /** An inode that is not in use. */
  function FreeInode(): Inode {
    Inode(0, 0, 0, 0, 0, seq(13, _ => 0))
  }

  lemma BlankInode(sb: Super, d: Disk, i: nat)
    requires sb.IBlock(i) < |d| && d[sb.IBlock(i)] == ZeroBlock()
    ensures DiskInode(sb, d, i) == FreeInode()
  {
    hide GetWord, ZeroBlock;
    forall j | 0 <= j < 128
      ensures GetWord(ZeroBlock(), j) == 0
    {
      ZeroWord(j);
    }
    assert WordsAt(d[sb.IBlock(i)], 16 * (i % 8), 16)[3..] == seq(13, _ => 0);
  }

  /** With the metadata marked and no inode in use there is a file system of empty files. */
  lemma BlankImage(sb: Super, d: Disk, nodes: seq<Inode>)
    requires sb.Good(|d|) && |nodes| == sb.ninodes && forall i :: 0 <= i < |nodes| ==> nodes[i] == FreeInode()
    requires forall i :: 0 <= i < sb.ninodes ==> d[sb.IBlock(i)] == ZeroBlock()
    requires forall b :: 0 <= b < sb.size ==> (Bit(sb, d, b) <==> b < sb.DataStart())
    ensures Image(sb, d, nodes, map[])
  {
    hide GetBit, GetWord, ZeroBlock, DiskInode, MappedTo, Tight;
    forall i | 0 <= i < |nodes|
      ensures FileOk(sb, d, nodes, i)
    {
      BlankInode(sb, d, i);
      NothingMapped(d, nodes, i);
    }
  }

  // ---- the file system in operation ----

  class FileSys {
    const sb: Super
    var blocks: Disk
    var nodes: seq<Inode>            // each inode as ilock gives it: the in-memory copy, else the disk's
    ghost var owner: map<nat, Slot>
    ghost var begun: Disk            // the disk when the current operation began
    ghost var logged: set<nat>       // distinct blocks logged in the current operation
    ghost var worst: nat             // the most there were before a call of log_write

    /** Only logged blocks have changed since the operation began. */
    ghost predicate Tracked()
      reads this`blocks, this`begun, this`logged, this`worst
    {
      && |begun| == |blocks| && worst <= |logged|
      && (forall b :: b in logged ==> sb.inodestart <= b < sb.size)
      && forall b :: 0 <= b < |blocks| && b !in logged ==> blocks[b] == begun[b]
    }

    ghost predicate Struct()
      reads this
    {
      Owning(sb, blocks, nodes, owner) && Tracked()
    }

    /** The in-memory inode i agrees with the disk. */
    ghost predicate Synced(i: nat)
      requires sb.Good(|blocks|) && i < sb.ninodes && i < |nodes|
      reads this
    {
      DiskInode(sb, blocks, i) == nodes[i]
    }

    /** Between operations. */
    ghost predicate Valid()
      reads this
    {
      Image(sb, blocks, nodes, owner) && Tracked()
    }

    /** The disk mkfs starts from: every block zero but for the free map, which shows the metadata as taken. */
    constructor (sb: Super, n: nat)
      requires sb.Good(n)
      ensures Valid() && this.sb == sb && |blocks| == n && owner == map[] && logged == {}
      ensures |nodes| == sb.ninodes && forall i :: 0 <= i < |nodes| ==> nodes[i] == FreeInode()
    {
      hide GetBit, SetBit, ZeroBlock, GetWord, MapExact, Owned, FileOk;
      var d: Disk := seq(n, _ => ZeroBlock());
      forall c | 0 <= c < sb.size
        ensures !Bit(sb, d, c)
      {
        ZeroBit(c % 4096);
      }
      var b := 0;
      while b < sb.DataStart()
        invariant b <= sb.DataStart() && |d| == n
        invariant forall c :: 0 <= c < n && !(sb.bmapstart <= c < sb.DataStart()) ==> d[c] == ZeroBlock()
        invariant forall c :: 0 <= c < sb.size ==> (Bit(sb, d, c) <==> c < b)
      {
        forall c | 0 <= c < sb.size
          ensures Bit(sb, Mark(sb, d, b, true), c) <==> c < b + 1
        {
          MarkAt(sb, d, b, true, c);
        }
        d := Mark(sb, d, b, true);
        b := b + 1;
      }
      this.sb := sb;
      blocks, nodes, owner := d, seq(sb.ninodes, _ => FreeInode()), map[];
      begun, logged, worst := d, {}, 0;
      new;
      BlankImage(sb, blocks, nodes);
    }

    method LogWrite(b: nat, data: Block)
      requires Tracked() && sb.inodestart <= b < sb.size && b < |blocks|
      modifies this`blocks, this`logged, this`worst
      ensures Tracked() && blocks == old(blocks)[b := data] && logged == old(logged) + {b}
      ensures worst == Max(old(worst), |old(logged)|)
    {
      SubsetSize(logged, logged + {b});
      worst := Max(worst, |logged|);
      blocks := blocks[b := data];
      logged := logged + {b};
    }

    /** Mark a free block and zero it. */
    method TakeBlock(b: nat)
      requires sb.Good(|blocks|) && Tracked() && sb.DataStart() <= b < sb.size
      modifies this`blocks, this`logged, this`worst
      ensures Tracked() && worst <= Max(old(worst), |old(logged)| + 1)
      ensures blocks == Allocated(sb, old(blocks), b) && logged == old(logged) + {sb.BBlock(b), b}
    {
      hide SetBit, ZeroBlock, FileSys.Tracked;
      UnionSize(logged, {sb.BBlock(b)});
      LogWrite(sb.BBlock(b), SetBit(blocks[sb.BBlock(b)], b % 4096, true));
      LogWrite(b, ZeroBlock());
    }

    /** Find the first free block, mark it and zero it. */
    method Balloc() returns (r: Alloc)
      requires sb.Good(|blocks|) && Tracked() && forall b :: 0 <= b < sb.DataStart() ==> Bit(sb, blocks, b)
      modifies this`blocks, this`logged, this`worst
      ensures Tracked() && worst <= Max(old(worst), |old(logged)| + 1)
      ensures r == Full <==> DiskFull(sb, old(blocks))
      ensures r == Full ==> blocks == old(blocks) && logged == old(logged) && worst == old(worst)
      ensures r.Got? ==>
                && r.b < sb.size && !Bit(sb, old(blocks), r.b)
                && (forall b :: 0 <= b < r.b ==> Bit(sb, old(blocks), b))
                && blocks == Allocated(sb, old(blocks), r.b)
                && logged == old(logged) + {sb.BBlock(r.b), r.b}
    {
      hide GetBit, Allocated, FileSys.Tracked;
      var b := 0;
      while b < sb.size
        invariant b % 4096 == 0 && blocks == old(blocks) && logged == old(logged) && worst == old(worst) && Tracked()
        invariant forall c :: 0 <= c < b && c < sb.size ==> Bit(sb, blocks, c)
        decreases sb.size - b
      {
        var bp := blocks[sb.BBlock(b)];
        var bi := 0;
        while bi < 4096 && b + bi < sb.size
          invariant bi <= 4096 && blocks == old(blocks) && logged == old(logged) && worst == old(worst) && Tracked()
          invariant forall c :: 0 <= c < b + bi && c < sb.size ==> Bit(sb, blocks, c)
        {
          assert sb.BBlock(b + bi) == sb.BBlock(b) && (b + bi) % 4096 == bi;
          if !GetBit(bp, bi) {
            assert !Bit(sb, old(blocks), b + bi);
            assert b + bi >= sb.DataStart();
            TakeBlock(b + bi);
            return Got(b + bi);
          }
          bi := bi + 1;
        }
        b := b + 4096;
      }
      return Full;
    }

    /** Clear a block's bit; freeing a free block is the caller's error (a panic). */
    method Bfree(b: nat)
      requires sb.Good(|blocks|) && b < sb.size && Bit(sb, blocks, b) && Tracked()
      modifies this`blocks, this`logged, this`worst
      ensures Tracked()
      ensures blocks == Mark(sb, old(blocks), b, false) && logged == old(logged) + {sb.BBlock(b)}
    {
      LogWrite(sb.BBlock(b), SetBit(blocks[sb.BBlock(b)], b % 4096, false));
    }

    /** Allocate a block for slot k of the inode itself. */
    method GrowAddr(i: nat, k: nat) returns (r: Alloc)
      requires Struct() && i < |nodes| && k <= ROOT && nodes[i].addrs[k] == 0
      modifies this`blocks, this`nodes, this`owner, this`logged, this`worst
      ensures r == Full <==> FreeSet(sb, old(owner)) == {}
      ensures worst <= Max(old(worst), |old(logged)| + 1)
      ensures r.Got? ==>
                && Struct() && Kept(sb, old(blocks), old(owner), blocks, owner) && Grew(sb, old(owner), owner)
                && r.b != 0 && nodes == old(nodes)[i := old(nodes)[i].(addrs := old(nodes)[i].addrs[k := r.b])]
                && logged == old(logged) + {sb.BBlock(r.b), r.b}
                && owner == old(owner)[r.b := Slot(i, k)] && Added(old(owner), owner) == {r.b}
    {
      hide GetBit, SetBit, GetWord, Owned, ZeroBlock, Allocated, FileSys.Tracked, Lowest, Added, FreeSet, Kept;
      FreeMeaning(sb, blocks, nodes, owner);
      r := Balloc();
      if r.Got? {
        AllocateFrame(sb, old(blocks), nodes, owner, r.b);
        AttachAddr(sb, old(blocks), nodes, owner, i, k, r.b);
        AllocKept(sb, old(blocks), nodes, owner, r.b, Slot(i, k));
        GrewOne(sb, owner, r.b, Slot(i, k));
        nodes := nodes[i := nodes[i].(addrs := nodes[i].addrs[k := r.b])];
        owner := owner[r.b := Slot(i, k)];
      }
    }

    /** Allocate a block for an entry of the indirect block. */
    method GrowEntry(i: nat, k: nat) returns (r: Alloc)
      requires Struct() && i < |nodes| && ROOT < k < SLOTS && nodes[i].addrs[ROOT] != 0
      requires AddrAt(blocks, nodes, i, k) == 0
      modifies this`blocks, this`owner, this`logged, this`worst
      ensures r == Full <==> FreeSet(sb, old(owner)) == {}
      ensures r == Full ==> worst == old(worst)
      ensures r.Got? ==>
                && Struct() && Kept(sb, old(blocks), old(owner), blocks, owner) && Grew(sb, old(owner), owner)
                && r.b != 0 && AddrAt(blocks, nodes, i, k) == r.b
                && logged == old(logged) + {sb.BBlock(r.b), r.b, nodes[i].addrs[ROOT]}
                && owner == old(owner)[r.b := Slot(i, k)] && Added(old(owner), owner) == {r.b}
    {
      hide GetBit, SetBit, AddrAt, SetWord, Owned, ZeroBlock, Allocated, FileSys.Tracked, Lowest, Added, FreeSet, Kept;
      FreeMeaning(sb, blocks, nodes, owner);
      r := Balloc();
      if r.Got? {
        AllocateFrame(sb, old(blocks), nodes, owner, r.b);
        AttachEntry(sb, old(blocks), nodes, owner, i, k, r.b);
        GrewOne(sb, owner, r.b, Slot(i, k));
        var root := nodes[i].addrs[ROOT];
        RootOwned(sb, old(blocks), nodes, owner, i);
        AllocKept(sb, old(blocks), nodes, owner, r.b, Slot(i, k));
        RootKept(sb, old(blocks), nodes, owner, blocks, r.b, Slot(i, k), root, SetWord(blocks[root], k - 13, r.b));
        LogWrite(root, SetWord(blocks[root], k - 13, r.b));
        owner := owner[r.b := Slot(i, k)];
        OwnerAddr(sb, blocks, nodes, owner, r.b);
      }
    }

    /** The case of bmap in which the indirect block is missing too. */
    method NewRootEntry(i: nat, bn: nat) returns (r: Alloc)
      requires Struct() && i < |nodes| && 12 <= bn < MAXFILE && nodes[i].addrs[ROOT] == 0
      modifies this`blocks, this`nodes, this`owner, this`logged, this`worst
      ensures r == Full <==> |FreeSet(sb, old(owner))| < 2
      ensures r == Full ==> worst <= Max(old(worst), |old(logged)| + 1)
      ensures r.Got? ==>
                && Struct() && Kept(sb, old(blocks), old(owner), blocks, owner) && Grew(sb, old(owner), owner)
                && |Added(old(owner), owner)| == 2
                && nodes == old(nodes)[i := old(nodes)[i].(addrs := nodes[i].addrs)]
                && r.b != 0 && r.b == AddrAt(blocks, nodes, i, DataSlot(bn))
                && (forall b :: b in Added(old(owner), owner) ==> owner[b] in {Slot(i, DataSlot(bn)), Slot(i, ROOT)})
                && logged == old(logged) + {r.b} + MapsOf(sb, Added(old(owner), owner)) + RootPart(nodes, i, 1)
    {
      hide GetBit, GetWord, Owned, MapExact, ZeroBlock, Kept, FileSys.Tracked, Grew, Added, FreeSet, MapsOf, AddrAt;
      ghost var d0, o0 := blocks, owner;
      NoRootNoEntry(blocks, nodes, i, bn);
      EmptySize(FreeSet(sb, o0));
      var q := GrowAddr(i, ROOT);
      if q == Full {
        return Full;
      }
      ghost var d1, o1 := blocks, owner;
      FreeLeft(sb, o0, o1);
      EmptySize(FreeSet(sb, o1));
      NewRootEmpty(sb, d0, old(nodes), o0, d1, nodes, o1, i, bn, q.b);
      r := GrowEntry(i, bn + 1);
      if r.Got? {
        KeptTransitive(sb, d0, o0, d1, o1, blocks, owner);
        GrewTwice(sb, o0, o1, owner);
        MapsOne(sb, q.b);
        MapsOne(sb, r.b);
        MapsMore(sb, {q.b}, {r.b});
      }
    }

    /** The address of the bn-th block of a file, allocating what is missing: the block, and the indirect block. It
        panics exactly when there are too few free blocks for that. What it allocates are the lowest free blocks;
        it logs exactly them, their bitmap blocks and the indirect block; and nothing that was owned is disturbed. */
    method Bmap(i: nat, bn: nat) returns (r: Alloc)
      requires Struct() && i < |nodes| && bn < MAXFILE
      modifies this`blocks, this`nodes, this`owner, this`logged, this`worst
      ensures var need := Missing(old(blocks), old(nodes), i, bn) + NoRoot(old(nodes), i, bn);
              && (r == Full <==> |FreeSet(sb, old(owner))| < need)
              && (r.Got? ==> |Added(old(owner), owner)| == need)
      ensures r.Got? ==>
                && Struct() && Kept(sb, old(blocks), old(owner), blocks, owner) && Grew(sb, old(owner), owner)
                && nodes == old(nodes)[i := old(nodes)[i].(addrs := nodes[i].addrs)]
                && r.b != 0 && r.b == AddrAt(blocks, nodes, i, DataSlot(bn))
                && (forall b :: b in Added(old(owner), owner) ==> owner[b] in {Slot(i, DataSlot(bn)), Slot(i, ROOT)})
                && (NoRoot(old(nodes), i, bn) == 0 ==>
                     forall b :: b in Added(old(owner), owner) ==> owner[b] == Slot(i, DataSlot(bn)))
      ensures Missing(old(blocks), old(nodes), i, bn) == 0 ==>
                r.Got? && blocks == old(blocks) && nodes == old(nodes) && owner == old(owner) && logged == old(logged)
                && worst == old(worst)
      ensures r.Got? && Missing(old(blocks), old(nodes), i, bn) == 1 ==>
                logged == old(logged) + {r.b} + MapsOf(sb, Added(old(owner), owner))
                          + RootPart(nodes, i, if bn >= 12 then 1 else 0)
      ensures r == Full ==> worst <= Max(old(worst), |old(logged)| + 1)
      ensures r.Got? && RootOf(old(nodes), i) != 0 ==> RootOf(nodes, i) == RootOf(old(nodes), i)
    {
      hide GetBit, GetWord, Owned, MapExact, ZeroBlock, Kept, FileSys.Tracked, Grew, Added, FreeSet, MapsOf;
      ghost var d0, o0 := blocks, owner;
      GrewNot(sb, o0);
      KeptSelf(sb, d0, o0);
      EmptySize(FreeSet(sb, o0));
      if bn < NDIRECT {
        if nodes[i].addrs[bn] == 0 {
          r := GrowAddr(i, bn);
          if r.Got? {
            MapsOne(sb, r.b);
          }
        } else {
          r := Got(nodes[i].addrs[bn]);
        }
        return;
      }
      if nodes[i].addrs[ROOT] == 0 {
        r := NewRootEntry(i, bn);
        return;
      }
      var addr := GetWord(blocks[nodes[i].addrs[ROOT]], bn - 12);
      assert addr == AddrAt(blocks, nodes, i, DataSlot(bn));
      if addr == 0 {
        r := GrowEntry(i, bn + 1);
        if r.Got? {
          MapsOne(sb, r.b);
        }
      } else {
        r := Got(addr);
      }
    }

    /** Copy inode i to disk. */
    method Iupdate(i: nat)
      requires Struct() && i < |nodes|
      modifies this`blocks, this`logged, this`worst
      ensures Struct() && |blocks| == |old(blocks)| && Synced(i)
      ensures forall j :: 0 <= j < |nodes| && j != i && old(Synced(j)) ==> Synced(j)
      ensures forall b :: 0 <= b < |blocks| && b >= sb.bmapstart ==> blocks[b] == old(blocks)[b]
      ensures logged == old(logged) + {sb.IBlock(i)} && worst == Max(old(worst), |old(logged)|)
    {
      hide GetBit, GetWord, FileSys.Tracked, Owned, MapExact, PutWords, InodeWords, WordsAt, InodeOf;
      PutInodeWords(sb, nodes[i]);
      var b := sb.IBlock(i);
      InodeWrite(sb, blocks, nodes, owner, b, PutWords(blocks[b], 16 * (i % 8), InodeWords(nodes[i])));
      LogWrite(b, PutWords(blocks[b], 16 * (i % 8), InodeWords(nodes[i])));
      assert blocks == PutInode(sb, old(blocks), i, nodes[i]);
      forall j | 0 <= j < |nodes|
        ensures DiskInode(sb, blocks, j) == if j == i then nodes[i] else DiskInode(sb, old(blocks), j)
      {
        InodeRoundTrip(sb, old(blocks), i, nodes[i], j);
      }
    }

    /** Record a new size and write the inode through. */
    method SetSize(i: nat, size: nat)
      requires Struct() && i < |nodes| && size <= MAXBYTES
      requires MappedTo(blocks, nodes, i, size) && Tight(blocks, nodes, i, size)
      requires forall j :: 0 <= j < |nodes| && j != i ==> FileOk(sb, blocks, nodes, j)
      modifies this`blocks, this`nodes, this`logged, this`worst
      ensures Valid() && nodes == old(nodes)[i := old(nodes)[i].(size := size)]
      ensures forall j :: 0 <= j < |nodes| ==> Content(blocks, nodes, j) == Content(old(blocks), nodes, j)
      ensures logged == old(logged) + {sb.IBlock(i)} && worst == Max(old(worst), |old(logged)|)
    {
      hide GetBit, GetWord, Owned, MapExact, AddrAt, MappedTo, Content, ByteAt, DiskInode, Tight, FileSys.Tracked;
      SizeOwning(sb, blocks, nodes, owner, i, size);
      nodes := nodes[i := nodes[i].(size := size)];
      forall j | 0 <= j < |nodes| && j != i
        ensures Synced(j)
      {
        assert FileOk(sb, old(blocks), old(nodes), j);
      }
      Iupdate(i);
      forall j | 0 <= j < |nodes|
        ensures Content(blocks, nodes, j) == Content(old(blocks), nodes, j) && FileOk(sb, blocks, nodes, j)
      {
        assert Synced(j);
        assert j != i ==> FileOk(sb, old(blocks), old(nodes), j);
        SizeMapped(old(blocks), old(nodes), i, size, j, nodes[j].size);
        MetaFrame(sb, old(blocks), blocks, nodes, owner, j);
      }
    }

    /** The loop over the entries of the indirect block. */
    method FreeEntries(i: nat, root: nat)
      requires Struct() && i < |nodes| && nodes[i].addrs[ROOT] == root != 0 && sb.DataStart() <= root < sb.size
      modifies this`blocks, this`logged, this`worst
      ensures |blocks| == |old(blocks)| && Owned(sb, blocks, nodes, owner) && Tracked()
      ensures MapExact(sb, blocks, Spared(owner, i, ROOT + 1, SLOTS))
      ensures forall b :: 0 <= b < |blocks| && !(sb.bmapstart <= b < sb.DataStart()) ==> blocks[b] == old(blocks)[b]
    {
      hide GetBit, SetBit, GetWord, Owned, MapExact, FileSys.Tracked;
      var a := blocks[root];
      SparedNone(owner, i, 13);
      for j := 0 to 128
        invariant |blocks| == |old(blocks)| && Owned(sb, blocks, nodes, owner) && Tracked()
        invariant MapExact(sb, blocks, Spared(owner, i, 13, 13 + j))
        invariant forall b :: 0 <= b < |blocks| && !(sb.bmapstart <= b < sb.DataStart()) ==> blocks[b] == old(blocks)[b]
      {
        var b := GetWord(a, j);
        assert b == AddrAt(blocks, nodes, i, 13 + j);
        SparedStep(sb, blocks, nodes, owner, i, 13, 13 + j);
        if b != 0 {
          EntryOwned(sb, blocks, nodes, owner, i, 13 + j);
          FreeSlot(sb, blocks, nodes, owner, Spared(owner, i, 13, 13 + j), b);
          Bfree(b);
        } else {
          ZeroSpared(sb, blocks, nodes, owner, i, 13, 13 + j);
        }
      }
    }

    /** Free the entries of the indirect block, then the indirect block, if there is one. */
    method FreeIndirect(i: nat)
      requires Struct() && i < |nodes|
      requires forall k :: 0 <= k < NDIRECT ==> nodes[i].addrs[k] == 0
      modifies this`blocks, this`nodes, this`owner, this`logged, this`worst
      ensures Struct() && |blocks| == |old(blocks)| && owner == Spared(old(owner), i, ROOT, SLOTS)
      ensures nodes == old(nodes)[i := old(nodes)[i].(addrs := old(nodes)[i].addrs[ROOT := 0])]
      ensures forall b :: 0 <= b < |blocks| && !(sb.bmapstart <= b < sb.DataStart()) ==> blocks[b] == old(blocks)[b]
    {
      hide GetBit, SetBit, GetWord, Owned, MapExact, FileSys.Tracked;
      ghost var o0 := owner;
      var root := nodes[i].addrs[ROOT];
      if root != 0 {
        RootOwned(sb, blocks, nodes, owner, i);
        RootInRange(sb, blocks, nodes, owner, i);
        FreeEntries(i, root);
        SparedRoot(sb, blocks, nodes, owner, i);
        FreeSlot(sb, blocks, nodes, owner, Spared(owner, i, ROOT + 1, SLOTS), root);
        Bfree(root);
        DetachRoot(sb, blocks, nodes, owner, i);
        nodes := nodes[i := nodes[i].(addrs := nodes[i].addrs[ROOT := 0])];
        owner := Spared(owner, i, ROOT, SLOTS);
      } else {
        NoRootSpared(sb, blocks, nodes, owner, i);
        assert nodes[i].addrs[ROOT := 0] == nodes[i].addrs;
      }
    }

    /** The loop over the direct blocks. */
    method FreeDirect(i: nat)
      requires Struct() && i < |nodes|
      modifies this`blocks, this`nodes, this`owner, this`logged, this`worst
      ensures Struct() && |blocks| == |old(blocks)|
      ensures nodes == old(nodes)[i := old(nodes)[i].(addrs := nodes[i].addrs)]
      ensures forall k :: 0 <= k < NDIRECT ==> nodes[i].addrs[k] == 0
      ensures forall b :: 0 <= b < |blocks| && !(sb.bmapstart <= b < sb.DataStart()) ==> blocks[b] == old(blocks)[b]
      ensures owner == Spared(old(owner), i, 0, ROOT)
    {
      hide GetBit, SetBit, AddrAt, Owned, MapExact, FileSys.Tracked;
      ghost var d0, nodes0, o0 := blocks, nodes, owner;
      SparedNone(o0, i, 0);
      for k := 0 to NDIRECT
        invariant Struct() && |blocks| == |old(blocks)| && i < |nodes|
        invariant nodes == nodes0[i := nodes0[i].(addrs := nodes[i].addrs)]
        invariant forall l :: 0 <= l < 13 ==> nodes[i].addrs[l] == if l < k then 0 else nodes0[i].addrs[l]
        invariant forall b :: 0 <= b < |blocks| && !(sb.bmapstart <= b < sb.DataStart()) ==> blocks[b] == old(blocks)[b]
        invariant owner == Spared(o0, i, 0, k)
      {
        var b := nodes[i].addrs[k];
        SparedStep(sb, d0, nodes0, o0, i, 0, k);
        DirectAddr(d0, nodes0, i, k);
        if b != 0 {
          DetachAddr(sb, blocks, nodes, owner, i, k);
          Bfree(b);
          nodes := nodes[i := nodes[i].(addrs := nodes[i].addrs[k := 0])];
          owner := owner - {b};
        } else {
          ZeroUnowned(sb, blocks, nodes, owner);
        }
      }
    }

    /** Free the blocks of file i, every one exactly once and none of any other file, and leave it
        empty. That each bit is still set when bfree comes to it is what keeps its panic away. */
    method Itrunc(i: nat)
      requires Valid() && i < |nodes|
      modifies this`blocks, this`nodes, this`owner, this`logged, this`worst
      ensures Valid() && |nodes| == |old(nodes)|
      ensures nodes[i].size == 0 && forall k :: 0 <= k < 13 ==> nodes[i].addrs[k] == 0
      ensures nodes[i] == old(nodes)[i].(size := 0, addrs := nodes[i].addrs)
      ensures owner == Spared(old(owner), i, 0, SLOTS)
      ensures forall j :: 0 <= j < |nodes| && j != i ==>
                nodes[j] == old(nodes)[j] && Content(blocks, nodes, j) == old(Content(blocks, nodes, j))
    {
      hide GetBit, SetBit, GetWord, Owned, MapExact, AddrAt, MappedTo, Content, ByteAt, DiskInode, Tight,
           FileSys.Tracked;
      ghost var d0, nodes0, o0 := blocks, nodes, owner;
      FreeDirect(i);
      FreeIndirect(i);
      SparedTwice(o0, i);
      forall j | 0 <= j < |nodes| && j != i
        ensures FileOk(sb, blocks, nodes, j) && Content(blocks, nodes, j) == Content(d0, nodes0, j)
      {
        OtherFile(sb, d0, nodes0, o0, blocks, nodes, j);
      }
      NothingMapped(blocks, nodes, i);
      ghost var d1, nodes1 := blocks, nodes;
      SetSize(i, 0);
      forall j | 0 <= j < |nodes| && j != i
        ensures Content(blocks, nodes, j) == Content(d0, nodes0, j)
      {
        SizeContent(d1, nodes1, i, 0, j);
      }
    }

    /** The state of a write that has copied tot bytes. */
    ghost predicate Writing(i: nat, src: seq<Byte>, off: nat, tot: nat, d0: Disk, nodes0: seq<Inode>)
      reads this
    {
      && Struct() && GoodInodes(sb, nodes0) && i < |nodes| && |blocks| == |d0|
      && off <= nodes0[i].size && off + tot <= MAXBYTES && tot <= |src|
      && nodes == nodes0[i := nodes0[i].(addrs := nodes[i].addrs)]
      && CopiedTo(sb, d0, nodes0, blocks, nodes, owner, i, off, off + tot, src)
      && AllTight(blocks, nodes, i, Max(nodes0[i].size, off + tot))
      && (forall j :: 0 <= j < |nodes| ==> DiskInode(sb, blocks, j) == nodes0[j])
      && (off + tot <= nodes0[i].size ==> nodes[i] == nodes0[i])
    }

    /** What bmap will find missing. */
    lemma WritingNeeds(i: nat, src: seq<Byte>, off: nat, tot: nat, d0: Disk, nodes0: seq<Inode>, bn: nat)
      requires Writing(i, src, off, tot, d0, nodes0) && bn < MAXFILE
      ensures var now := Max(nodes0[i].size, off + tot);
              && Missing(blocks, nodes, i, bn) == (if bn >= Have(now) then 1 else 0)
              && (RootOf(nodes, i) == 0 <==> now <= 12 * 512)
    {
      hide Owned, MapExact, AddrAt, MappedTo, Written, DiskInode, Tight, FileSys.Tracked, RootOf;
      MissingMeans(blocks, nodes, i, Max(nodes0[i].size, off + tot), bn);
    }

    /** Nothing has been written yet. */
    lemma BeforeWriting(i: nat, src: seq<Byte>, off: nat)
      requires Valid() && i < |nodes| && off <= nodes[i].size
      ensures Writing(i, src, off, 0, blocks, nodes)
    {
      hide AddrAt, MapExact, MappedTo, Written, DiskInode, Owned, Tight, FileSys.Tracked;
      forall j | 0 <= j < |nodes|
        ensures MappedTo(blocks, nodes, j, nodes[j].size) && Tight(blocks, nodes, j, nodes[j].size)
        ensures DiskInode(sb, blocks, j) == nodes[j]
      {
        assert FileOk(sb, blocks, nodes, j);
      }
      assert nodes == nodes[i := nodes[i].(addrs := nodes[i].addrs)];
      WrittenStart(blocks, nodes, i, off, src);
      assert AllTight(blocks, nodes, i, Max(nodes[i].size, off));
    }

    /** Everything has been written but the size. */
    lemma AfterWriting(i: nat, src: seq<Byte>, off: nat, d0: Disk, nodes0: seq<Inode>)
      requires Writing(i, src, off, |src|, d0, nodes0)
      ensures forall j :: 0 <= j < |nodes| && j != i ==> FileOk(sb, blocks, nodes, j)
      ensures var size := Max(nodes0[i].size, off + |src|);
              && MappedTo(blocks, nodes, i, size) && Tight(blocks, nodes, i, size)
              && (off + |src| <= nodes0[i].size ==> FileOk(sb, blocks, nodes, i))
              && MappedTo(blocks, nodes, i, off + |src|) && (RootOf(nodes, i) == 0 ==> size <= 12 * 512)
      ensures worst <= |logged|
    {
      hide AddrAt, MapExact, MappedTo, Written, DiskInode, Owned, Tight, RootOf;
      WritingNeeds(i, src, off, |src|, d0, nodes0, 0);
      var size := Max(nodes0[i].size, off + |src|);
      assert Tight(blocks, nodes, i, size);
      forall j | 0 <= j < |nodes| && j != i
        ensures FileOk(sb, blocks, nodes, j)
      {
        assert Tight(blocks, nodes, j, nodes[j].size);
      }
    }

    /** What is known of the count before a turn of the loop. */
    lemma StepStart(i: nat, src: seq<Byte>, off: nat, tot: nat, d0: Disk, nodes0: seq<Inode>, o0: map<nat, Slot>,
                    l0: set<nat>)
      requires Writing(i, src, off, tot, d0, nodes0)
      requires Tally(sb, blocks, nodes, o0, owner, i, nodes0[i].size, off, tot, l0, logged)
      requires tot < |src| && (tot == 0 || (off + tot) % 512 == 0)
      ensures RootChanged(nodes0[i].size, off, tot) == 1 ==> RootOf(nodes, i) != 0
      ensures worst <= |logged| && (|src| <= CHUNK ==> |logged| + 1 < |l0| + MAXOPBLOCKS)
    {
      hide AddrAt, MapExact, MappedTo, Written, DiskInode, Owned, Tight, AllTight, Tally, RootOf, Missing;
      WritingNeeds(i, src, off, tot, d0, nodes0, 0);
      TallySize(sb, blocks, nodes, o0, owner, i, nodes0[i].size, off, tot, l0, logged);
      if |src| <= CHUNK {
        StopBudget(nodes0[i].size, off, tot, |src|, |MapsOf(sb, Added(o0, owner))|);
      }
    }

    /** One turn of writei's loop: find the block, copy m bytes into it, log it. */
    method WriteStep(i: nat, src: seq<Byte>, off: nat, tot: nat, m: nat, ghost d0: Disk, ghost nodes0: seq<Inode>)
      returns (r: Alloc)
      requires Writing(i, src, off, tot, d0, nodes0)
      requires 0 < m && (off + tot) % 512 + m <= 512 && tot + m <= |src| && off + tot + m <= MAXBYTES
      modifies this`blocks, this`nodes, this`owner, this`logged, this`worst
      ensures r == Full <==>
              |FreeSet(sb, old(owner))| < StepNeeds((off + tot) / 512, Max(nodes0[i].size, off + tot))
      ensures r == Full ==> worst <= Max(old(worst), |old(logged)| + 1)
      ensures r.Got? ==>
                && Writing(i, src, off, tot + m, d0, nodes0)
                && Stepped(sb, old(blocks), old(nodes), old(owner), old(logged), blocks, nodes, owner, logged,
                           i, (off + tot) / 512, Max(nodes0[i].size, off + tot))
    {
      hide GetBit, GetWord, MapExact, Kept, AddrAt, MappedTo, Written, Patch, ByteAt, DiskInode, Owned, FileSys.Tracked,
           Tight, AllTight, Grew, Added, FreeSet, MapsOf, RootOf, Stepped, Have, DataSlot,
           CopiedTo, RootPart, Missing;
      StepRange(nodes0[i].size, off + tot, m);
      var bn := (off + tot) / 512;
      ghost var now := Max(nodes0[i].size, off + tot);
      ghost var d1, nodes1, o1 := blocks, nodes, owner;
      WritingNeeds(i, src, off, tot, d0, nodes0, bn);
      r := Bmap(i, bn);
      if r == Full {
        return;
      }
      ghost var d2 := blocks;
      AddrOwner(sb, blocks, nodes, owner, i, DataSlot(bn));
      var x := Patch(blocks[r.b], (off + tot) % 512, src[tot..tot + m]);
      CopyDone(sb, d0, nodes0, d1, nodes1, o1, d2, nodes, owner, i, off, off + tot, src, src[tot..tot + m], bn, r.b);
      LogWrite(r.b, x);
      StepDone(sb, d1, nodes1, o1, old(logged), blocks, nodes, owner, logged, i, bn, now,
               Max(nodes0[i].size, off + tot + m), r.b);
    }

    /** The loop of writei. It panics exactly when there are too few free blocks for the whole write. */
    method CopyIn(i: nat, src: seq<Byte>, off: nat, ghost d0: Disk, ghost nodes0: seq<Inode>) returns (full: bool)
      requires Writing(i, src, off, 0, d0, nodes0) && off + |src| <= MAXBYTES
      modifies this`blocks, this`nodes, this`owner, this`logged, this`worst
      ensures full <==> |FreeSet(sb, old(owner))| < Needs(nodes0[i].size, off, |src|)
      ensures full && |src| <= CHUNK ==> worst < |old(logged)| + MAXOPBLOCKS
      ensures !full ==>
                && Writing(i, src, off, |src|, d0, nodes0)
                && Tally(sb, blocks, nodes, old(owner), owner, i, nodes0[i].size, off, |src|, old(logged), logged)
    {
      hide AddrAt, MapExact, MappedTo, Written, DiskInode, Owned, Tight, AllTight, Grew, Added, FreeSet, MapsOf, RootOf,
           Stepped, DataAddrs, RootPart, Needs, Touched, RootChanged, StepNeeds, Have, Piece;
      ghost var o0, l0, size := owner, logged, nodes0[i].size;
      TallyStart(sb, blocks, nodes, o0, i, size, off, l0);
      var tot := 0;
      while tot < |src|
        invariant tot <= |src| && Writing(i, src, off, tot, d0, nodes0)
        invariant tot == 0 || tot == |src| || (off + tot) % 512 == 0
        invariant Tally(sb, blocks, nodes, o0, owner, i, size, off, tot, l0, logged)
      {
        var m := Piece(off + tot, |src| - tot);
        ghost var d1, nodes1, o1, l1 := blocks, nodes, owner, logged;
        StepStart(i, src, off, tot, d0, nodes0, o0, l0);
        var r := WriteStep(i, src, off, tot, m, d0, nodes0);
        if r == Full {
          StopCount(sb, o0, o1, size, off, tot, m, |src|);
          return true;
        }
        TallyStep(sb, d1, nodes1, blocks, nodes, o0, o1, owner, i, size, off, tot, m, l0, l1, logged);
        tot := tot + m;
      }
      FreeLeft(sb, o0, owner);
      return false;
    }

    /** What writei does when its checks have passed. */
    method WriteBytes(i: nat, src: seq<Byte>, off: nat) returns (full: bool)
      requires Valid() && i < |nodes| && off <= nodes[i].size && off + |src| <= MAXBYTES
      modifies this`blocks, this`nodes, this`owner, this`logged, this`worst
      ensures full <==> |FreeSet(sb, old(owner))| < Needs(old(nodes[i]).size, off, |src|)
      ensures full && |src| <= CHUNK ==> worst < |old(logged)| + MAXOPBLOCKS
      ensures !full ==>
                && |nodes| == |old(nodes)| && Tracked()
                && Leaves(sb, blocks, nodes, owner, old(blocks), old(nodes), i,
                          Splice(old(Content(blocks, nodes, i)), off, src))
                && nodes[i] == old(nodes)[i].(size := nodes[i].size, addrs := nodes[i].addrs)
      ensures !full ==>
                Counted(sb, blocks, nodes, old(owner), owner, i, old(nodes[i]).size, off, |src|, old(logged), logged,
                        worst)
    {
      hide AddrAt, MapExact, MappedTo, Written, DiskInode, Owned, Tight, AllTight, Grew, Added, FreeSet, MapsOf, RootOf,
           DataAddrs, RootPart, Needs, Touched, RootChanged, Have, Splice, Content, ByteAt, FileSys.Tracked, Tally,
           Counted;
      ghost var d0, nodes0, o0, l0, size := blocks, nodes, owner, logged, nodes[i].size;
      BeforeWriting(i, src, off);
      full := CopyIn(i, src, off, d0, nodes0);
      if full {
        return;
      }
      WrittenDone(sb, d0, nodes0, blocks, nodes, i, off, src);
      AfterWriting(i, src, off, d0, nodes0);
      ghost var d1, nodes1, l1 := blocks, nodes, logged;
      if |src| > 0 && off + |src| > nodes[i].size {
        SetSize(i, off + |src|);
      }
      SizeRoot(nodes1, i, nodes[i].size);
      CountDone(sb, d1, nodes1, o0, owner, i, size, off, |src|, l0, l1, blocks, nodes, logged, worst);
    }

    /** Write src into file i at off. The file becomes the old contents with src spliced in, no other file changes,
        the inodes on disk are up to date again, the blocks allocated are the lowest free ones and exactly as many as
        the longer file needs, and the blocks logged are exactly the footprint of the write. A chunk of filewrite
        uses up the reservation of its operation exactly when it touches four data blocks and its allocations fall in
        four bitmap blocks. It panics exactly when there are too few free blocks. */
    method Writei(i: nat, src: seq<Byte>, off: nat) returns (r: Io)
      requires Valid() && i < |nodes| && off < WORD_MAX && |src| < WORD_MAX
      modifies this`blocks, this`nodes, this`owner, this`logged, this`worst
      ensures r == Device <==> old(nodes[i]).typ == T_DEV
      ensures r == Fail <==> old(nodes[i]).typ != T_DEV && (off > old(nodes[i]).size || off + |src| > MAXBYTES)
      ensures r == Panic <==> old(nodes[i]).typ != T_DEV && off <= old(nodes[i]).size && off + |src| <= MAXBYTES
                              && |FreeSet(sb, old(owner))| < Needs(old(nodes[i]).size, off, |src|)
      ensures r == Fail || r == Device ==>
                && blocks == old(blocks) && nodes == old(nodes) && owner == old(owner) && logged == old(logged)
                && worst == old(worst)
      ensures r == Panic && |src| <= CHUNK ==> worst < |old(logged)| + MAXOPBLOCKS
      ensures r.Done? ==>
                && r.n == |src| && |nodes| == |old(nodes)| && Tracked()
                && Leaves(sb, blocks, nodes, owner, old(blocks), old(nodes), i,
                          Splice(old(Content(blocks, nodes, i)), off, src))
                && nodes[i] == old(nodes)[i].(size := nodes[i].size, addrs := nodes[i].addrs)
      ensures r.Done? ==>
                Counted(sb, blocks, nodes, old(owner), owner, i, old(nodes[i]).size, off, |src|, old(logged), logged,
                        worst)
    {
      hide Image, Leaves, Counted, Content, Needs, FreeSet, FileSys.Tracked;
      if nodes[i].typ == T_DEV {
        return Device;
      }
      if off > nodes[i].size || (off + |src|) % WORD_MAX < off {
        return Fail;
      }
      if off + |src| > MAXBYTES {
        return Fail;
      }
      var full := WriteBytes(i, src, off);
      return if full then Panic else Done(|src|);
    }

    /** One operation of filewrite: begin_op, a write of at most a chunk, end_op. */
    method WriteChunk(i: nat, src: seq<Byte>, off: nat) returns (r: Io, ghost op: Op)
      requires Valid() && i < |nodes| && off < WORD_MAX && |src| <= CHUNK
      modifies this`blocks, this`nodes, this`owner, this`begun, this`logged, this`worst
      ensures r == Device <==> old(nodes[i]).typ == T_DEV
      ensures r == Fail <==> old(nodes[i]).typ != T_DEV && (off > old(nodes[i]).size || off + |src| > MAXBYTES)
      ensures r == Panic <==> old(nodes[i]).typ != T_DEV && off <= old(nodes[i]).size && off + |src| <= MAXBYTES
                              && |FreeSet(sb, old(owner))| < Needs(old(nodes[i]).size, off, |src|)
      ensures worst < MAXOPBLOCKS
      ensures r != Panic ==> Valid() && OpFrom(sb, old(blocks), op) && op == Op(blocks, nodes, owner, logged, worst)
      ensures r == Fail || r == Device ==> blocks == old(blocks) && nodes == old(nodes) && owner == old(owner)
      ensures r.Done? ==>
                && r.n == |src| && |nodes| == |old(nodes)| && nodes[i].typ == old(nodes)[i].typ
                && Leaves(sb, blocks, nodes, owner, old(blocks), old(nodes), i,
                          Splice(old(Content(blocks, nodes, i)), off, src))
                && Grew(sb, old(owner), owner) && |Added(old(owner), owner)| == Needs(old(nodes[i]).size, off, |src|)
    {
      hide AddrAt, MapExact, MappedTo, Owned, FileOk, Grew, Added, FreeSet, MapsOf, Footprint, Needs, Touched,
           RootChanged, Splice, Content, Grows;
      begun, logged, worst := blocks, {}, 0;           // begin_op
      r := Writei(i, src, off);
      op := Op(blocks, nodes, owner, logged, worst);   // end_op
    }

    /** filewrite to an inode: chunks small enough for one operation each. Together they write the whole string as one
        write would, or the chunks before the first one that would make the file too long. No operation logs more than
        MAXOPBLOCKS distinct blocks or calls log_write when it has logged that many, each begins with what the one
        before it left, and each leaves a file system whose file i has whole chunks of the string, the other files
        being as they were. It panics exactly when there are too few free blocks for the chunks that fit. */
    method FileWrite(i: nat, addr: seq<Byte>, off: nat) returns (r: Io, off': nat, ghost os: seq<Op>)
      requires Valid() && i < |nodes| && off < WORD_MAX && |addr| < WORD_MAX
      modifies this`blocks, this`nodes, this`owner, this`begun, this`logged, this`worst
      ensures r == Device <==> addr != [] && old(nodes[i]).typ == T_DEV
      ensures r == Panic <==> old(nodes[i]).typ != T_DEV && off <= old(nodes[i]).size
                              && |FreeSet(sb, old(owner))| < Needs(old(nodes[i]).size, off, Fits(off, |addr|))
      ensures r == Fail <==> addr != [] && old(nodes[i]).typ != T_DEV && r != Panic
                             && (off > old(nodes[i]).size || off + |addr| > MAXBYTES)
      ensures off <= off' <= off + |addr| && (r.Done? ==> r.n == |addr| && off' == off + |addr|)
      ensures r == Fail ==> off' == off + if off <= old(nodes[i]).size then Fits(off, |addr|) else 0
      ensures r == Device ==> off' == off
      ensures r == Panic ==> worst < MAXOPBLOCKS
      ensures Chained(sb, old(blocks), os) && InChunks(sb, os, old(blocks), old(nodes), i, off, addr[..off' - off])
      ensures r != Panic ==>
                && Valid() && blocks == LastDisk(old(blocks), os)
                && Leaves(sb, blocks, nodes, owner, old(blocks), old(nodes), i,
                          Partly(old(Content(blocks, nodes, i)), off, addr[..off' - off]))
    {
      hide AddrAt, MapExact, MappedTo, Owned, FileOk, Grew, Added, FreeSet, Needs, Fits, Content, Partly, InChunks,
           Chained, OpFrom, LastDisk, FileSys.Tracked;
      ghost var d0, nodes0, o0, c0, size := blocks, nodes, owner, Content(blocks, nodes, i), nodes[i].size;
      os, off' := [], off;
      var done := 0;
      FirstChunk(sb, d0, nodes0, o0, i, off, addr);
      while done < |addr|
        invariant done <= |addr| && off' == off + done && Valid() && |nodes| == |nodes0|
        invariant nodes[i].typ == nodes0[i].typ && (done > 0 ==> nodes[i].typ != T_DEV)
        invariant done < |addr| ==> done == |os| * CHUNK
        invariant off <= size ==> off' <= MAXBYTES && nodes[i].size == Max(size, off')
        invariant off > size ==> done == 0 && nodes[i].size == size
        invariant blocks == LastDisk(d0, os) && Chained(sb, d0, os)
        invariant InChunks(sb, os, d0, nodes0, i, off, addr[..done])
        invariant Leaves(sb, blocks, nodes, owner, d0, nodes0, i, Partly(c0, off, addr[..done]))
        invariant Grew(sb, o0, owner) && (off <= size ==> |Added(o0, owner)| == Needs(size, off, done))
      {
        var n1 := if |addr| - done > CHUNK then CHUNK else |addr| - done;
        ghost var d1, nodes1, o1 := blocks, nodes, owner;
        var io;
        ghost var op;
        io, op := WriteChunk(i, addr[done..done + n1], off');
        if io == Panic {
          PanicCount(sb, o0, o1, size, off, done, n1, |addr|);
          return io, off', os;
        }
        ChainMore(sb, d0, os, op);
        if !io.Done? {
          FailCount(sb, o0, o1, size, off, done, n1, |addr|);
          assert addr[..done] + [] == addr[..done];
          MoreChunks(sb, os, op, d0, nodes0, i, off, addr[..done], []);
          os := os + [op];
          return io, off', os;
        }
        assert addr[..done] + addr[done..done + n1] == addr[..done + n1];
        LeavesTwice(sb, d0, nodes0, d1, nodes1, o1, blocks, nodes, owner, i, off, addr, done, n1);
        MoreChunks(sb, os, op, d0, nodes0, i, off, addr[..done], addr[done..done + n1]);
        NextCount(sb, o0, o1, owner, size, off, done, n1);
        os := os + [op];
        off', done := off' + n1, done + n1;
      }
      DoneCount(sb, o0, owner, size, off, |addr|);
      return Done(|addr|), off', os;
    }

    /** bmap of a block that is there: nothing changes. */
    method BlockOf(i: nat, bn: nat) returns (b: nat)
      requires Struct() && i < |nodes| && bn < MAXFILE && AddrAt(blocks, nodes, i, DataSlot(bn)) != 0
      modifies this`blocks, this`nodes, this`owner, this`logged, this`worst
      ensures blocks == old(blocks) && nodes == old(nodes) && owner == old(owner) && logged == old(logged)
      ensures worst == old(worst) && b == AddrAt(blocks, nodes, i, DataSlot(bn))
    {
      hide AddrAt, Owned, MapExact, Kept, FileSys.Tracked, FreeSet, Added, Grew, MapsOf, RootOf;
      var r := Bmap(i, bn);
      return r.b;
    }

    /** Read n bytes of file i at off: exactly the bytes of the file that are there. On a file whose
        blocks are mapped bmap allocates nothing, so reading changes nothing. */
    method Readi(i: nat, off: nat, n: nat) returns (r: Io, dst: seq<Byte>)
      requires Valid() && i < |nodes| && off < WORD_MAX && n < WORD_MAX
      modifies this`blocks, this`nodes, this`owner, this`logged, this`worst
      ensures blocks == old(blocks) && nodes == old(nodes) && owner == old(owner) && logged == old(logged)
      ensures worst == old(worst)
      ensures r == Device <==> nodes[i].typ == T_DEV
      ensures r == Fail <==> nodes[i].typ != T_DEV && (off > nodes[i].size || off + n >= WORD_MAX)
      ensures r != Panic
      ensures r.Done? ==>
                var end := if off + n > nodes[i].size then nodes[i].size else off + n;
                r.n == |dst| && dst == Content(blocks, nodes, i)[off..end]
    {
      hide GetBit, GetWord, Owned, MapExact, Kept, AddrAt, MappedTo, Content, ByteAt, DiskInode, Piece, Tight,
           FileSys.Tracked, FreeSet, Added, Grew, MapsOf, RootOf;
      dst := [];
      if nodes[i].typ == T_DEV {
        return Device, [];
      }
      if off > nodes[i].size || (off + n) % WORD_MAX < off {
        return Fail, [];
      }
      var k := if off + n > nodes[i].size then nodes[i].size - off else n;
      var tot := 0;
      while tot < k
        invariant tot <= k && Valid()
        invariant blocks == old(blocks) && nodes == old(nodes) && owner == old(owner) && logged == old(logged)
        invariant worst == old(worst) && |dst| == tot && dst == Content(blocks, nodes, i)[off..off + tot]
      {
        var m := Piece(off + tot, k - tot);
        assert FileOk(sb, blocks, nodes, i);
        PageMapped(blocks, nodes, i, nodes[i].size, off + tot);
        var b := BlockOf(i, (off + tot) / 512);
        ReadPiece(sb, blocks, nodes, owner, i, off + tot, m);
        SliceMore(Content(blocks, nodes, i), off, tot, m);
        dst := dst + blocks[b].at[(off + tot) % 512..(off + tot) % 512 + m];
        tot := tot + m;
      }
      return Done(k), dst;
    }
  }
}
