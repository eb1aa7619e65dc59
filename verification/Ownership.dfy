/** Who owns which disk block: the free map, the inodes, their direct and indirect
    blocks (fs.c, fs.h).

    Every block address an inode can hold has a slot: slots 0 to 11 are the direct
    blocks, slot 12 is the indirect block itself, and slots 13 to 140 are the entries
    stored in it. `owner` is the inverse of that addressing, so that having one says
    that no block is reachable twice.
 */
module Ownership {
  import opened Blocks

  const NDIRECT: nat := 12
  const ROOT: nat := 12            // the slot of the indirect block
  const SLOTS: nat := 141          // NDIRECT + 1 + NINDIRECT
  const MAXFILE: nat := 140        // NDIRECT + NINDIRECT
  const MAXBYTES: nat := 71680     // MAXFILE * BSIZE

  /** The parts of the superblock that place inodes, free map and data. */
  datatype Super = Super(size: nat, nblocks: nat, ninodes: nat, inodestart: nat, bmapstart: nat) {
    function DataStart(): int {
      size - nblocks
    }

    /** The layout mkfs computes: inode blocks, then the free map, then data. */
    predicate Good(disk: nat) {
      && size <= disk && size < WORD_MAX
      && inodestart + ninodes / 8 < bmapstart
      && bmapstart + size / BPB < DataStart() <= size
    }

    function IBlock(i: nat): nat {
      i / 8 + inodestart
    }

    function BBlock(b: nat): nat {
      b / 4096 + bmapstart
    }
  }

  /** The fields of an inode that live on disk; the shorts are kept as 16-bit patterns. */
  datatype Inode = Inode(typ: nat, major: nat, minor: nat, nlink: nat, size: nat, addrs: seq<nat>)

  predicate GoodInode(sb: Super, n: Inode) {
    && n.typ < 0x1_0000 && n.major < 0x1_0000 && n.minor < 0x1_0000 && n.nlink < 0x1_0000
    && n.size <= MAXBYTES
    && |n.addrs| == 13
    && forall k :: 0 <= k < 13 ==> n.addrs[k] == 0 || sb.DataStart() <= n.addrs[k] < sb.size
  }

  predicate GoodInodes(sb: Super, nodes: seq<Inode>) {
    |nodes| == sb.ninodes && forall i :: 0 <= i < |nodes| ==> GoodInode(sb, nodes[i])
  }

  // ---- inodes on disk ----

  /** The sixteen words of a struct dinode. */
  function InodeWords(n: Inode): (ws: seq<nat>)
    requires |n.addrs| == 13
    ensures |ws| == 16
  {
    [n.typ + 0x1_0000 * n.major, n.minor + 0x1_0000 * n.nlink, n.size] + n.addrs
  }

  function InodeOf(ws: seq<nat>): Inode
    requires |ws| == 16
  {
    Inode(ws[0] % 0x1_0000, ws[0] / 0x1_0000, ws[1] % 0x1_0000, ws[1] / 0x1_0000, ws[2], ws[3..])
  }

  lemma Halves(lo: nat, hi: nat)
    requires lo < 0x1_0000
    ensures (lo + 0x1_0000 * hi) % 0x1_0000 == lo && (lo + 0x1_0000 * hi) / 0x1_0000 == hi
  {
  }

  lemma InodeOfWords(sb: Super, n: Inode)
    requires GoodInode(sb, n)
    ensures InodeOf(InodeWords(n)) == n
  {
    Halves(n.typ, n.major);
    Halves(n.minor, n.nlink);
  }

  function DiskInode(sb: Super, d: Disk, i: nat): Inode
    requires sb.IBlock(i) < |d|
  {
    InodeOf(WordsAt(d[sb.IBlock(i)], 16 * (i % 8), 16))
  }

  lemma WordShorts(b: Block, i: nat)
    requires i < WORDS
    ensures GetWord(b, i) % 0x1_0000 == Short(b.at, 4 * i) && GetWord(b, i) / 0x1_0000 == Short(b.at, 4 * i + 2)
  {
    hide GetWord;
    WordBytes(b, i);
    Halves(Short(b.at, 4 * i), Short(b.at, 4 * i + 2));
  }

  /** Where a struct dinode lies: eight to a block, 64 bytes each; type, major, minor and nlink in
      two bytes each, then size and the thirteen addresses in four. */
  lemma InodePlace(sb: Super, d: Disk, i: nat)
    requires sb.IBlock(i) < |d|
    ensures var a, o, n := d[i / 8 + sb.inodestart].at, 64 * (i % 8), DiskInode(sb, d, i);
            && n.typ == Short(a, o) && n.major == Short(a, o + 2)
            && n.minor == Short(a, o + 4) && n.nlink == Short(a, o + 6)
            && n.size == Short(a, o + 8) + 0x1_0000 * Short(a, o + 10)
            && |n.addrs| == 13
            && forall k :: 0 <= k < 13 ==>
                             n.addrs[k] == Short(a, o + 12 + 4 * k) + 0x1_0000 * Short(a, o + 14 + 4 * k)
  {
    hide GetWord;
    var b, w, n := d[sb.IBlock(i)], 16 * (i % 8), DiskInode(sb, d, i);
    WordShorts(b, w);
    WordShorts(b, w + 1);
    WordBytes(b, w + 2);
    forall k | 0 <= k < 13
      ensures n.addrs[k] == Short(b.at, 4 * w + 12 + 4 * k) + 0x1_0000 * Short(b.at, 4 * w + 14 + 4 * k)
    {
      WordBytes(b, w + 3 + k);
    }
  }

  lemma PutInodeWords(sb: Super, n: Inode)
    requires GoodInode(sb, n) && sb.size < WORD_MAX
    ensures forall j :: 0 <= j < 16 ==> InodeWords(n)[j] < WORD_MAX
  {
    forall j | 0 <= j < 16
      ensures InodeWords(n)[j] < WORD_MAX
    {
      if j >= 3 {
        assert InodeWords(n)[j] == n.addrs[j - 3];
      }
    }
  }

  /** The disk after iupdate of inode i. */
  function PutInode(sb: Super, d: Disk, i: nat, n: Inode): Disk
    requires sb.Good(|d|) && i < sb.ninodes && GoodInode(sb, n)
  {
    PutInodeWords(sb, n);
    d[sb.IBlock(i) := PutWords(d[sb.IBlock(i)], 16 * (i % 8), InodeWords(n))]
  }

  /** iupdate stores the inode and leaves every other inode as it was. */
  lemma InodeRoundTrip(sb: Super, d: Disk, i: nat, n: Inode, j: nat)
    requires sb.Good(|d|) && i < sb.ninodes && GoodInode(sb, n) && j < sb.ninodes
    ensures DiskInode(sb, PutInode(sb, d, i, n), j) == if j == i then n else DiskInode(sb, d, j)
  {
    hide PutWords, WordsAt, InodeWords;
    PutInodeWords(sb, n);
    if sb.IBlock(j) == sb.IBlock(i) {
      var b := d[sb.IBlock(i)];
      if j == i {
        StoredWords(b, 16 * (i % 8), InodeWords(n));
        InodeOfWords(sb, n);
      } else {
        assert i % 8 < j % 8 || j % 8 < i % 8;
        OtherWords(b, 16 * (i % 8), InodeWords(n), 16 * (j % 8), 16);
      }
    }
  }

  // ---- the free map ----

  predicate Bit(sb: Super, d: Disk, b: nat)
    requires sb.BBlock(b) < |d|
  {
    GetBit(d[sb.BBlock(b)], b % 4096)
  }

  function Mark(sb: Super, d: Disk, b: nat, on: bool): (e: Disk)
    requires sb.BBlock(b) < |d|
    ensures |e| == |d|
  {
    d[sb.BBlock(b) := SetBit(d[sb.BBlock(b)], b % 4096, on)]
  }

  lemma MarkAt(sb: Super, d: Disk, b: nat, on: bool, c: nat)
    requires sb.BBlock(b) < |d| && sb.BBlock(c) < |d|
    ensures Bit(sb, Mark(sb, d, b, on), c) == if c == b then on else Bit(sb, d, c)
  {
    hide GetBit, SetBit;
    if sb.BBlock(c) == sb.BBlock(b) {
      BitRoundTrip(d[sb.BBlock(b)], b % 4096, on, c % 4096);
    }
  }

  /** Where block b's bit lies: 4096 bits to a block, eight to a byte. */
  lemma BitOf(sb: Super, d: Disk, b: nat)
    requires sb.BBlock(b) < |d|
    ensures Bit(sb, d, b) <==> d[b / 4096 + sb.bmapstart].at[b % 4096 / 8] / Exp2(b % 8) % 2 == 1
  {
    assert b % 4096 % 8 == b % 8;
    BitPlace(d[sb.BBlock(b)], b % 4096);
  }

  // ---- addressing ----

  /** The block address in slot k of inode i, or 0. */
  function AddrAt(d: Disk, nodes: seq<Inode>, i: nat, k: nat): nat
    requires i < |nodes| && |nodes[i].addrs| == 13 && k < SLOTS
  {
    if k <= ROOT then nodes[i].addrs[k]
    else if 0 < nodes[i].addrs[ROOT] < |d| then GetWord(d[nodes[i].addrs[ROOT]], k - 13)
    else 0
  }

  /** The slot of the bn-th data block of a file. */
  function DataSlot(bn: nat): (k: nat)
    ensures k != ROOT && (bn < MAXFILE ==> k < SLOTS)
  {
    if bn < NDIRECT then bn else bn + 1
  }

  datatype Slot = Slot(i: nat, k: nat)

  /** `owner` inverts the addressing: each nonzero address is that of exactly one slot. */
  ghost predicate Owned(sb: Super, d: Disk, nodes: seq<Inode>, owner: map<nat, Slot>)
    requires GoodInodes(sb, nodes)
  {
    && (forall i, k :: 0 <= i < |nodes| && 0 <= k < SLOTS && AddrAt(d, nodes, i, k) != 0 ==>
         AddrAt(d, nodes, i, k) in owner && owner[AddrAt(d, nodes, i, k)] == Slot(i, k))
    && (forall b :: b in owner ==>
         && sb.DataStart() <= b < sb.size
         && owner[b].i < |nodes| && owner[b].k < SLOTS
         && AddrAt(d, nodes, owner[b].i, owner[b].k) == b)
  }

  /** The free map marks exactly the metadata and the owned blocks. */
  ghost predicate MapExact(sb: Super, d: Disk, owner: map<nat, Slot>)
    requires sb.Good(|d|)
  {
    forall b :: 0 <= b < sb.size ==> (Bit(sb, d, b) <==> b < sb.DataStart() || b in owner)
  }

  /** Block ownership: everything but the files' contents. */
  ghost predicate Owning(sb: Super, d: Disk, nodes: seq<Inode>, owner: map<nat, Slot>) {
    && sb.Good(|d|)
    && GoodInodes(sb, nodes)
    && Owned(sb, d, nodes, owner)
    && MapExact(sb, d, owner)
  }

  /** What ownership means without `owner`: a data block is marked in use exactly when some
      slot of some inode holds its address, and no two slots hold the same one. */
  lemma OwnershipMeaning(sb: Super, d: Disk, nodes: seq<Inode>, owner: map<nat, Slot>)
    requires Owning(sb, d, nodes, owner)
    ensures forall b :: sb.DataStart() <= b < sb.size ==>
              (Bit(sb, d, b) <==> exists i, k :: 0 <= i < |nodes| && 0 <= k < SLOTS && AddrAt(d, nodes, i, k) == b)
    ensures forall i, k, j, l | 0 <= i < |nodes| && 0 <= k < SLOTS && 0 <= j < |nodes| && 0 <= l < SLOTS ::
              AddrAt(d, nodes, i, k) == AddrAt(d, nodes, j, l) != 0 ==> i == j && k == l
  {
    hide GetBit, GetWord;
    forall b | sb.DataStart() <= b < sb.size
      ensures Bit(sb, d, b) <==> exists i, k :: 0 <= i < |nodes| && 0 <= k < SLOTS && AddrAt(d, nodes, i, k) == b
    {
      if b in owner {
        assert AddrAt(d, nodes, owner[b].i, owner[b].k) == b;
      }
    }
  }

  // ---- what a change of the disk or of an inode does to addressing ----

  /** Addresses depend only on the inodes and on their indirect blocks. */
  lemma AddrFrame(sb: Super, d: Disk, e: Disk, nodes: seq<Inode>, i: nat, k: nat)
    requires i < |nodes| && |nodes[i].addrs| == 13 && k < SLOTS && |d| == |e|
    requires 0 < nodes[i].addrs[ROOT] < |d| ==> d[nodes[i].addrs[ROOT]] == e[nodes[i].addrs[ROOT]]
    ensures AddrAt(e, nodes, i, k) == AddrAt(d, nodes, i, k)
  {
  }

  /** Changes outside the indirect blocks keep ownership. */
  lemma OwnedFrame(sb: Super, d: Disk, e: Disk, nodes: seq<Inode>, owner: map<nat, Slot>)
    requires GoodInodes(sb, nodes) && Owned(sb, d, nodes, owner) && |d| == |e|
    requires forall b :: b in owner && owner[b].k == ROOT && b < |d| ==> e[b] == d[b]
    ensures Owned(sb, e, nodes, owner)
  {
    hide GetWord;
    forall i, k | 0 <= i < |nodes| && 0 <= k < SLOTS
      ensures AddrAt(e, nodes, i, k) == AddrAt(d, nodes, i, k)
    {
      assert AddrAt(d, nodes, i, ROOT) == nodes[i].addrs[ROOT];
      AddrFrame(sb, d, e, nodes, i, k);
    }
  }

  /** Changes outside the free map keep its meaning. */
  lemma MapFrame(sb: Super, d: Disk, e: Disk, owner: map<nat, Slot>)
    requires sb.Good(|d|) && |d| == |e| && MapExact(sb, d, owner)
    requires forall b :: sb.bmapstart <= b < sb.DataStart() ==> e[b] == d[b]
    ensures MapExact(sb, e, owner)
  {
    hide GetBit;
    forall b | 0 <= b < sb.size
      ensures Bit(sb, e, b) == Bit(sb, d, b)
    {
    }
  }

  /** A data block may be rewritten freely. */
  lemma DataWrite(sb: Super, d: Disk, nodes: seq<Inode>, owner: map<nat, Slot>, b: nat, x: Block)
    requires Owning(sb, d, nodes, owner) && b in owner && owner[b].k != ROOT
    ensures Owning(sb, d[b := x], nodes, owner)
  {
    hide GetBit, GetWord;
    OwnedFrame(sb, d, d[b := x], nodes, owner);
    MapFrame(sb, d, d[b := x], owner);
  }

  /** Inode blocks may be rewritten freely. */
  lemma InodeWrite(sb: Super, d: Disk, nodes: seq<Inode>, owner: map<nat, Slot>, b: nat, x: Block)
    requires Owning(sb, d, nodes, owner) && b < sb.bmapstart
    ensures Owning(sb, d[b := x], nodes, owner)
  {
    hide GetBit, GetWord;
    OwnedFrame(sb, d, d[b := x], nodes, owner);
    MapFrame(sb, d, d[b := x], owner);
  }

  /** The disk balloc leaves behind: bit set, block zeroed. */
  function Allocated(sb: Super, d: Disk, b: nat): (e: Disk)
    requires sb.BBlock(b) < |d| && b < |d|
    ensures |e| == |d|
  {
    Mark(sb, d, b, true)[b := ZeroBlock()]
  }

  /** Allocating writes to one bitmap block and to the new block. */
  lemma AllocatedBlocks(sb: Super, d: Disk, nodes: seq<Inode>, owner: map<nat, Slot>, b: nat)
    requires Owning(sb, d, nodes, owner) && b < sb.size && !Bit(sb, d, b)
    ensures sb.DataStart() <= b && b !in owner
    ensures forall c :: c in owner ==> Allocated(sb, d, b)[c] == d[c]
    ensures forall c :: 0 <= c < sb.bmapstart ==> Allocated(sb, d, b)[c] == d[c]
    ensures Allocated(sb, d, b)[b] == ZeroBlock()
  {
    hide GetBit, SetBit, GetWord, ZeroBlock, Bit, AddrAt;
  }

  lemma AllocatedBit(sb: Super, d: Disk, b: nat, c: nat)
    requires sb.Good(|d|) && sb.DataStart() <= b < sb.size && c < sb.size
    ensures Bit(sb, Allocated(sb, d, b), c) == (c == b || Bit(sb, d, c))
  {
    hide GetBit, SetBit, ZeroBlock;
    MarkAt(sb, d, b, true, c);
  }

  /** Allocating disturbs nothing that is owned, and marks exactly one more block. */
  lemma AllocateFrame(sb: Super, d: Disk, nodes: seq<Inode>, owner: map<nat, Slot>, b: nat)
    requires Owning(sb, d, nodes, owner) && b < sb.size && !Bit(sb, d, b)
    ensures sb.DataStart() <= b && b !in owner
    ensures Owned(sb, Allocated(sb, d, b), nodes, owner)
    ensures forall c :: 0 <= c < sb.size ==>
              (Bit(sb, Allocated(sb, d, b), c) <==> c < sb.DataStart() || c in owner || c == b)
    ensures forall c :: c in owner ==> Allocated(sb, d, b)[c] == d[c]
    ensures forall c :: 0 <= c < sb.bmapstart ==> Allocated(sb, d, b)[c] == d[c]
    ensures Allocated(sb, d, b)[b] == ZeroBlock()
  {
    hide Bit, Allocated, Owned, AddrAt, ZeroBlock;
    AllocatedBlocks(sb, d, nodes, owner, b);
    OwnedFrame(sb, d, Allocated(sb, d, b), nodes, owner);
    forall c | 0 <= c < sb.size
      ensures Bit(sb, Allocated(sb, d, b), c) <==> c < sb.DataStart() || c in owner || c == b
    {
      AllocatedBit(sb, d, b, c);
    }
  }

  /** Filling one empty slot with an unowned block. */
  lemma OwnedExtend(sb: Super, d: Disk, nodes: seq<Inode>, e: Disk, nodes': seq<Inode>,
                    owner: map<nat, Slot>, i: nat, k: nat, b: nat)
    requires GoodInodes(sb, nodes) && GoodInodes(sb, nodes') && Owned(sb, d, nodes, owner)
    requires i < |nodes| && k < SLOTS && AddrAt(d, nodes, i, k) == 0
    requires b !in owner && 0 < sb.DataStart() <= b < sb.size
    requires forall j, l :: 0 <= j < |nodes| && 0 <= l < SLOTS ==>
               AddrAt(e, nodes', j, l) == if j == i && l == k then b else AddrAt(d, nodes, j, l)
    ensures Owned(sb, e, nodes', owner[b := Slot(i, k)])
  {
    hide AddrAt;
  }

  lemma SlotAddrs(e: Disk, nodes: seq<Inode>, i: nat, k: nat, b: nat)
    requires forall j :: 0 <= j < |nodes| ==> |nodes[j].addrs| == 13
    requires i < |nodes| && k <= ROOT && nodes[i].addrs[k] == 0 && b < |e| && e[b] == ZeroBlock()
    ensures var nodes' := nodes[i := nodes[i].(addrs := nodes[i].addrs[k := b])];
            forall j, l :: 0 <= j < |nodes| && 0 <= l < SLOTS ==>
              AddrAt(e, nodes', j, l) == if j == i && l == k then b else AddrAt(e, nodes, j, l)
  {
    hide GetWord, ZeroBlock;
    var nodes' := nodes[i := nodes[i].(addrs := nodes[i].addrs[k := b])];
    forall j, l | 0 <= j < |nodes| && 0 <= l < SLOTS
      ensures AddrAt(e, nodes', j, l) == if j == i && l == k then b else AddrAt(e, nodes, j, l)
    {
      if j == i && k == ROOT && l > ROOT {
        ZeroWord(l - 13);
      }
    }
  }

  /** Storing a freshly allocated block in an empty slot of the inode itself. */
  lemma AttachAddr(sb: Super, d: Disk, nodes: seq<Inode>, owner: map<nat, Slot>, i: nat, k: nat, b: nat)
    requires Owning(sb, d, nodes, owner) && b < sb.size && !Bit(sb, d, b)
    requires i < |nodes| && k <= ROOT && nodes[i].addrs[k] == 0
    ensures var nodes' := nodes[i := nodes[i].(addrs := nodes[i].addrs[k := b])];
            Owning(sb, Allocated(sb, d, b), nodes', owner[b := Slot(i, k)])
  {
    hide GetBit, SetBit, GetWord, ZeroBlock, Owned, Allocated;
    AllocateFrame(sb, d, nodes, owner, b);
    var e := Allocated(sb, d, b);
    var nodes' := nodes[i := nodes[i].(addrs := nodes[i].addrs[k := b])];
    SlotAddrs(e, nodes, i, k, b);
    OwnedExtend(sb, e, nodes, e, nodes', owner, i, k, b);
  }

  lemma EntryAddrs(sb: Super, e: Disk, nodes: seq<Inode>, owner: map<nat, Slot>, i: nat, k: nat, b: nat)
    requires GoodInodes(sb, nodes) && Owned(sb, e, nodes, owner) && sb.Good(|e|) && b < sb.size
    requires i < |nodes| && ROOT < k < SLOTS && nodes[i].addrs[ROOT] != 0
    ensures var root := nodes[i].addrs[ROOT];
            forall j, l :: 0 <= j < |nodes| && 0 <= l < SLOTS ==>
              AddrAt(e[root := SetWord(e[root], k - 13, b)], nodes, j, l)
                == if j == i && l == k then b else AddrAt(e, nodes, j, l)
  {
    hide GetWord, SetWord;
    var root := nodes[i].addrs[ROOT];
    assert AddrAt(e, nodes, i, ROOT) == root;
    var e' := e[root := SetWord(e[root], k - 13, b)];
    forall j, l | 0 <= j < |nodes| && 0 <= l < SLOTS
      ensures AddrAt(e', nodes, j, l) == if j == i && l == k then b else AddrAt(e, nodes, j, l)
    {
      assert AddrAt(e, nodes, j, ROOT) == nodes[j].addrs[ROOT];
      if j == i && l > ROOT {
        WordRoundTrip(e[root], k - 13, b, l - 13);
      }
    }
  }

  lemma EntryMap(sb: Super, e: Disk, root: nat, x: Block, owner: map<nat, Slot>, b: nat, s: Slot)
    requires sb.Good(|e|) && sb.DataStart() <= root < sb.size
    requires forall c :: 0 <= c < sb.size ==> (Bit(sb, e, c) <==> c < sb.DataStart() || c in owner || c == b)
    ensures MapExact(sb, e[root := x], owner[b := s])
  {
    hide GetBit;
    assert MapExact(sb, e, owner[b := s]);
    MapFrame(sb, e, e[root := x], owner[b := s]);
  }

  /** Storing a freshly allocated block in an empty entry of the indirect block. */
  lemma AttachEntry(sb: Super, d: Disk, nodes: seq<Inode>, owner: map<nat, Slot>, i: nat, k: nat, b: nat)
    requires Owning(sb, d, nodes, owner) && b < sb.size && !Bit(sb, d, b)
    requires i < |nodes| && ROOT < k < SLOTS && nodes[i].addrs[ROOT] != 0 && AddrAt(d, nodes, i, k) == 0
    ensures var root := nodes[i].addrs[ROOT];
            var e := Allocated(sb, d, b);
            Owning(sb, e[root := SetWord(e[root], k - 13, b)], nodes, owner[b := Slot(i, k)])
  {
    hide GetBit, SetBit, GetWord, SetWord, ZeroBlock, Allocated;
    AllocateFrame(sb, d, nodes, owner, b);
    var root := nodes[i].addrs[ROOT];
    assert AddrAt(d, nodes, i, ROOT) == root;
    var e := Allocated(sb, d, b);
    var e' := e[root := SetWord(e[root], k - 13, b)];
    EntryAddrs(sb, e, nodes, owner, i, k, b);
    OwnedExtend(sb, e, nodes, e', nodes, owner, i, k, b) by {
      AddrFrame(sb, d, e, nodes, i, k);
    }
    EntryMap(sb, e, root, SetWord(e[root], k - 13, b), owner, b, Slot(i, k));
  }
}
