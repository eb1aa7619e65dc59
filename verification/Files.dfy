/** The bytes of a file, seen through an inode's direct and indirect blocks, and how
    allocation and data writes change them (fs.c).
 */
module Files {
  import opened Blocks
  import opened Ownership

  /** Byte p of file i. */
  function ByteAt(d: Disk, nodes: seq<Inode>, i: nat, p: nat): Byte
    requires i < |nodes| && |nodes[i].addrs| == 13 && p < MAXBYTES
  {
    var b := AddrAt(d, nodes, i, DataSlot(p / 512));
    if b < |d| then d[b].at[p % 512] else 0
  }

  ghost function ContentUpTo(d: Disk, nodes: seq<Inode>, i: nat, n: nat): (c: seq<Byte>)
    requires i < |nodes| && |nodes[i].addrs| == 13 && n <= MAXBYTES
    ensures |c| == n
    ensures forall p :: 0 <= p < n ==> c[p] == ByteAt(d, nodes, i, p)
  {
    if n == 0 then [] else ContentUpTo(d, nodes, i, n - 1) + [ByteAt(d, nodes, i, n - 1)]
  }

  /** The contents of file i. */
  ghost function Content(d: Disk, nodes: seq<Inode>, i: nat): (c: seq<Byte>)
    requires i < |nodes| && |nodes[i].addrs| == 13 && nodes[i].size <= MAXBYTES
    ensures |c| == nodes[i].size
    ensures forall p :: 0 <= p < |c| ==> c[p] == ByteAt(d, nodes, i, p)
  {
    ContentUpTo(d, nodes, i, nodes[i].size)
  }

  /** Where a byte of a file lies: in block addrs[p / 512] for the first twelve blocks, then in the
      block whose number is the next word of the indirect block addrs[12]. */
  lemma BytePlace(d: Disk, nodes: seq<Inode>, i: nat, p: nat)
    requires i < |nodes| && |nodes[i].addrs| == 13 && p < nodes[i].size <= MAXBYTES
    requires forall k :: 0 <= k < 13 ==> nodes[i].addrs[k] < |d|
    ensures var n, c := nodes[i], Content(d, nodes, i)[p];
            && (p < 6144 && n.addrs[p / 512] != 0 ==> c == d[n.addrs[p / 512]].at[p % 512])
            && (p >= 6144 && n.addrs[12] != 0 ==>
                  var b := GetWord(d[n.addrs[12]], p / 512 - 12);
                  b < |d| ==> c == d[b].at[p % 512])
  {
    hide GetWord;
    assert Content(d, nodes, i)[p] == ByteAt(d, nodes, i, p);
  }

  /** A byte string with `src` written at `off`. */
  function Splice(c: seq<Byte>, off: nat, src: seq<Byte>): seq<Byte>
    requires off <= |c|
  {
    if off + |src| <= |c| then c[..off] + src + c[off + |src|..] else c[..off] + src
  }

  lemma SpliceAt(c: seq<Byte>, off: nat, src: seq<Byte>)
    requires off <= |c|
    ensures var r := Splice(c, off, src);
            && |r| == (if off + |src| <= |c| then |c| else off + |src|)
            && forall p :: 0 <= p < |r| ==> r[p] == if off <= p < off + |src| then src[p - off] else c[p]
  {
  }

  /** Writing a string in two goes is writing it at once. */
  lemma SpliceTwice(c: seq<Byte>, off: nat, s: seq<Byte>, t: seq<Byte>)
    requires off <= |c|
    ensures off + |s| <= |Splice(c, off, s)|
    ensures Splice(Splice(c, off, s), off + |s|, t) == Splice(c, off, s + t)
  {
    hide Splice;
    SpliceAt(c, off, s);
    var once, st := Splice(c, off, s), s + t;
    SpliceAt(once, off + |s|, t);
    SpliceAt(c, off, st);
    var l, r := Splice(once, off + |s|, t), Splice(c, off, st);
    assert |l| == |r|;
    forall p | 0 <= p < |l|
      ensures l[p] == r[p]
    {
    }
  }

  /** The data blocks of file i that hold the first n bytes are there. */
  ghost predicate MappedTo(d: Disk, nodes: seq<Inode>, i: nat, n: nat)
    requires i < |nodes| && |nodes[i].addrs| == 13
  {
    forall bn :: 0 <= bn < MAXFILE && bn * 512 < n ==> AddrAt(d, nodes, i, DataSlot(bn)) != 0
  }

  /** What allocation leaves alone: owned blocks keep their slots, owned data blocks and
      everything before the free map keep their contents. */
  ghost predicate Kept(sb: Super, d: Disk, owner: map<nat, Slot>, e: Disk, owner': map<nat, Slot>) {
    && |e| == |d|
    && (forall b :: b in owner ==> b in owner' && owner'[b] == owner[b])
    && (forall b :: b in owner && owner[b].k != ROOT && 0 <= b < |d| ==> e[b] == d[b])
    && (forall b :: 0 <= b < sb.bmapstart && b < |d| ==> e[b] == d[b])
  }

  lemma KeptTransitive(sb: Super, d: Disk, o: map<nat, Slot>, d1: Disk, o1: map<nat, Slot>, d2: Disk, o2: map<nat,
                       Slot>)
    requires Kept(sb, d, o, d1, o1) && Kept(sb, d1, o1, d2, o2)
    ensures Kept(sb, d, o, d2, o2)
  {
  }

  /** An address that was there stays, and so do the bytes behind it. */
  lemma KeptByte(sb: Super, d: Disk, nodes: seq<Inode>, o: map<nat, Slot>,
                 e: Disk, nodes': seq<Inode>, o': map<nat, Slot>, i: nat, p: nat)
    requires Owning(sb, d, nodes, o) && Owning(sb, e, nodes', o') && Kept(sb, d, o, e, o')
    requires i < |nodes| && p < MAXBYTES && AddrAt(d, nodes, i, DataSlot(p / 512)) != 0
    ensures AddrAt(e, nodes', i, DataSlot(p / 512)) == AddrAt(d, nodes, i, DataSlot(p / 512))
    ensures ByteAt(e, nodes', i, p) == ByteAt(d, nodes, i, p)
  {
    hide GetBit, AddrAt, MapExact;
    var k := DataSlot(p / 512);
    var b := AddrAt(d, nodes, i, k);
    assert o[b] == Slot(i, k);
  }

  lemma KeptMapped(sb: Super, d: Disk, nodes: seq<Inode>, o: map<nat, Slot>,
                   e: Disk, nodes': seq<Inode>, o': map<nat, Slot>, i: nat, n: nat)
    requires Owning(sb, d, nodes, o) && Owning(sb, e, nodes', o') && Kept(sb, d, o, e, o')
    requires i < |nodes| && MappedTo(d, nodes, i, n)
    ensures MappedTo(e, nodes', i, n)
  {
    hide AddrAt, Owned, MapExact, Kept, ByteAt;
    forall bn | 0 <= bn < MAXFILE && bn * 512 < n
      ensures AddrAt(e, nodes', i, DataSlot(bn)) != 0
    {
      assert (bn * 512) / 512 == bn;
      KeptByte(sb, d, nodes, o, e, nodes', o', i, bn * 512);
    }
  }

  /** Rewriting the block behind one page of a file changes the bytes of that page only. */
  lemma WriteByte(sb: Super, d: Disk, nodes: seq<Inode>, o: map<nat, Slot>, i: nat, bn: nat, x: Block, j: nat, p: nat)
    requires Owning(sb, d, nodes, o) && i < |nodes| && bn < MAXFILE
    requires AddrAt(d, nodes, i, DataSlot(bn)) != 0
    requires j < |nodes| && p < MAXBYTES && AddrAt(d, nodes, j, DataSlot(p / 512)) != 0
    ensures var e := d[AddrAt(d, nodes, i, DataSlot(bn)) := x];
            ByteAt(e, nodes, j, p) == if j == i && p / 512 == bn then x.at[p % 512] else ByteAt(d, nodes, j, p)
  {
    hide GetBit, MapExact, GetWord;
    var b := AddrAt(d, nodes, i, DataSlot(bn));
    var c := AddrAt(d, nodes, j, DataSlot(p / 512));
    assert o[b] == Slot(i, DataSlot(bn)) && o[c] == Slot(j, DataSlot(p / 512));
    var root := AddrAt(d, nodes, j, ROOT);
    if root != 0 {
      assert o[root] == Slot(j, ROOT);
    }
    AddrFrame(sb, d, d[b := x], nodes, j, DataSlot(p / 512));
  }

  // ---- how far a write has come ----

  /** File i with src[..off - start] written from `start`, all else as before. */
  ghost predicate Written(d0: Disk, nodes0: seq<Inode>, d: Disk, nodes: seq<Inode>,
                          i: nat, start: nat, off: nat, src: seq<Byte>)
    requires |nodes| == |nodes0| && i < |nodes|
    requires forall j :: 0 <= j < |nodes| ==>
              |nodes[j].addrs| == 13 && |nodes0[j].addrs| == 13 && nodes0[j].size <= MAXBYTES
    requires start <= off <= MAXBYTES && off - start <= |src|
  {
    && (forall j, p :: 0 <= j < |nodes| && j != i && 0 <= p < nodes0[j].size ==>
         ByteAt(d, nodes, j, p) == ByteAt(d0, nodes0, j, p))
    && (forall p :: 0 <= p < nodes0[i].size && !(start <= p < off) ==>
          ByteAt(d, nodes, i, p) == ByteAt(d0, nodes0, i, p))
    && (forall p :: start <= p < off ==> ByteAt(d, nodes, i, p) == src[p - start])
  }

  /** The blocks every byte so far lies in. */
  ghost predicate AllMapped(d: Disk, nodes: seq<Inode>, i: nat, off: nat)
    requires i < |nodes| && forall j :: 0 <= j < |nodes| ==> |nodes[j].addrs| == 13
  {
    && (forall j :: 0 <= j < |nodes| ==> MappedTo(d, nodes, j, nodes[j].size))
    && MappedTo(d, nodes, i, off)
  }

  lemma PageMapped(d: Disk, nodes: seq<Inode>, i: nat, n: nat, p: nat)
    requires i < |nodes| && |nodes[i].addrs| == 13 && MappedTo(d, nodes, i, n) && p < n && p < MAXBYTES
    ensures AddrAt(d, nodes, i, DataSlot(p / 512)) != 0
  {
    hide AddrAt;
    assert p / 512 < MAXFILE && (p / 512) * 512 < n;
  }

  /** Allocating a block in the middle of a write disturbs nothing. */
  lemma WrittenKept(sb: Super, d0: Disk, nodes0: seq<Inode>, d: Disk, nodes: seq<Inode>, o: map<nat, Slot>,
                    e: Disk, nodes': seq<Inode>, o': map<nat, Slot>, i: nat, start: nat, off: nat, src: seq<Byte>)
    requires GoodInodes(sb, nodes0) && Owning(sb, d, nodes, o) && Owning(sb, e, nodes', o') && Kept(sb, d, o, e, o')
    requires i < |nodes| && start <= off <= MAXBYTES && off - start <= |src|
    requires forall j :: 0 <= j < |nodes| ==> nodes[j].size == nodes0[j].size == nodes'[j].size
    requires AllMapped(d, nodes, i, off) && Written(d0, nodes0, d, nodes, i, start, off, src)
    ensures AllMapped(e, nodes', i, off) && Written(d0, nodes0, e, nodes', i, start, off, src)
  {
    hide Owned, MapExact, Kept, ByteAt, AddrAt, MappedTo;
    forall j, p | 0 <= j < |nodes| && 0 <= p < nodes[j].size
      ensures ByteAt(e, nodes', j, p) == ByteAt(d, nodes, j, p)
    {
      PageMapped(d, nodes, j, nodes[j].size, p);
      KeptByte(sb, d, nodes, o, e, nodes', o', j, p);
    }
    forall p | start <= p < off
      ensures ByteAt(e, nodes', i, p) == ByteAt(d, nodes, i, p)
    {
      PageMapped(d, nodes, i, off, p);
      KeptByte(sb, d, nodes, o, e, nodes', o', i, p);
    }
    forall j | 0 <= j < |nodes|
      ensures MappedTo(e, nodes', j, nodes'[j].size)
    {
      KeptMapped(sb, d, nodes, o, e, nodes', o', j, nodes[j].size);
    }
    KeptMapped(sb, d, nodes, o, e, nodes', o', i, off);
  }

  /** The block with m bytes of src put at offset o. */
  function Patch(x: Block, o: nat, s: seq<Byte>): (y: Block)
    requires o + |s| <= BSIZE
    ensures forall q :: 0 <= q < BSIZE ==> y.at[q] == if o <= q < o + |s| then s[q - o] else x.at[q]
  {
    Bytes(x.at[..o] + s + x.at[o + |s|..])
  }

  lemma PatchedByte(sb: Super, d: Disk, nodes: seq<Inode>, o: map<nat, Slot>,
                    i: nat, start: nat, off: nat, m: nat, src: seq<Byte>, j: nat, p: nat)
    requires Owning(sb, d, nodes, o)
    requires i < |nodes| && start <= off < off + m <= MAXBYTES && off + m - start <= |src| && off % 512 + m <= 512
    requires 0 < AddrAt(d, nodes, i, DataSlot(off / 512)) < |d|
    requires j < |nodes| && p < MAXBYTES && AddrAt(d, nodes, j, DataSlot(p / 512)) != 0
    ensures var b := AddrAt(d, nodes, i, DataSlot(off / 512));
            var e := d[b := Patch(d[b], off % 512, src[off - start..off - start + m])];
            ByteAt(e, nodes, j, p) == if j == i && off <= p < off + m then src[p - start] else ByteAt(d, nodes, j, p)
  {
    hide AddrAt, Patch, Owned, MapExact;
    var b := AddrAt(d, nodes, i, DataSlot(off / 512));
    var s := src[off - start..off - start + m];
    var x := Patch(d[b], off % 512, s);
    WriteByte(sb, d, nodes, o, i, off / 512, x, j, p);
    if j == i && p / 512 == off / 512 {
      assert off <= p < off + m <==> off % 512 <= p % 512 < off % 512 + m;
      if off <= p < off + m {
        assert s[p % 512 - off % 512] == src[p - start];
      }
    }
  }

  lemma PatchMapped(sb: Super, d: Disk, nodes: seq<Inode>, o: map<nat, Slot>, i: nat, off: nat, m: nat, x: Block)
    requires Owning(sb, d, nodes, o) && i < |nodes| && 0 < m && off + m <= MAXBYTES && off % 512 + m <= 512
    requires AllMapped(d, nodes, i, off) && 0 < AddrAt(d, nodes, i, DataSlot(off / 512)) < |d|
    ensures AllMapped(d[AddrAt(d, nodes, i, DataSlot(off / 512)) := x], nodes, i, off + m)
  {
    hide GetWord, MapExact;
    var b := AddrAt(d, nodes, i, DataSlot(off / 512));
    assert o[b] == Slot(i, DataSlot(off / 512));
    forall j, k | 0 <= j < |nodes| && 0 <= k < SLOTS
      ensures AddrAt(d[b := x], nodes, j, k) == AddrAt(d, nodes, j, k)
    {
      var root := AddrAt(d, nodes, j, ROOT);
      if root != 0 {
        assert o[root] == Slot(j, ROOT);
      }
      AddrFrame(sb, d, d[b := x], nodes, j, k);
    }
    forall bn | 0 <= bn < MAXFILE && bn * 512 < off + m
      ensures AddrAt(d, nodes, i, DataSlot(bn)) != 0
    {
      assert bn * 512 < off || bn == off / 512;
    }
  }

  /** Copying the next piece of src into its block. */
  lemma WrittenPatch(sb: Super, d0: Disk, nodes0: seq<Inode>, d: Disk, nodes: seq<Inode>, o: map<nat, Slot>,
                     i: nat, start: nat, off: nat, m: nat, src: seq<Byte>)
    requires GoodInodes(sb, nodes0) && Owning(sb, d, nodes, o)
    requires i < |nodes| && start <= off < off + m <= MAXBYTES && off + m - start <= |src| && off % 512 + m <= 512
    requires forall j :: 0 <= j < |nodes| ==> nodes[j].size == nodes0[j].size
    requires AllMapped(d, nodes, i, off) && Written(d0, nodes0, d, nodes, i, start, off, src)
    requires 0 < AddrAt(d, nodes, i, DataSlot(off / 512)) < |d|
    ensures var b := AddrAt(d, nodes, i, DataSlot(off / 512));
            var e := d[b := Patch(d[b], off % 512, src[off - start..off - start + m])];
            AllMapped(e, nodes, i, off + m) && Written(d0, nodes0, e, nodes, i, start, off + m, src)
  {
    hide Owned, MapExact, ByteAt, AddrAt, MappedTo, Patch;
    var bn := off / 512;
    var b := AddrAt(d, nodes, i, DataSlot(bn));
    var x := Patch(d[b], off % 512, src[off - start..off - start + m]);
    var e := d[b := x];
    forall j, p | 0 <= j < |nodes| && 0 <= p < nodes[j].size
      ensures ByteAt(e, nodes, j, p) ==
              if j == i && off <= p < off + m then src[p - start] else ByteAt(d, nodes, j, p)
    {
      PageMapped(d, nodes, j, nodes[j].size, p);
      PatchedByte(sb, d, nodes, o, i, start, off, m, src, j, p);
    }
    forall p | start <= p < off + m
      ensures ByteAt(e, nodes, i, p) == if off <= p then src[p - start] else ByteAt(d, nodes, i, p)
    {
      if p < off {
        PageMapped(d, nodes, i, off, p);
      } else {
        assert p / 512 == bn;
      }
      PatchedByte(sb, d, nodes, o, i, start, off, m, src, i, p);
    }
    PatchMapped(sb, d, nodes, o, i, off, m, x);
  }
}
