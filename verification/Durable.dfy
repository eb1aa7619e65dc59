/** What filewrite leaves on the disk when the machine crashes: the operations of fs.c and file.c
    through the write-ahead log of log.c.
 */
module Durable {
  import opened Blocks
  import opened Ownership
  import opened Files
  import opened Params
  import opened Fs
  import opened Sets
  import Log

  // ---- transactions of operations ----

  /** Each operation began where the one before it ended. Nothing else is asked of them: they may belong to several
      processes, and one of them may stand for operations that overlap. */
  ghost predicate Series(sb: Super, d: Disk, os: seq<Op>) {
    forall k :: 0 <= k < |os| ==> Changes(sb, LastDisk(d, os[..k]), os[k])
  }

  /** Those of a filewrite are a series. */
  lemma ChainedSeries(sb: Super, d: Disk, os: seq<Op>)
    requires Chained(sb, d, os)
    ensures Series(sb, d, os)
  {
    hide Changes;
    forall k | 0 <= k < |os|
      ensures Changes(sb, LastDisk(d, os[..k]), os[k])
    {
      assert OpFrom(sb, LastDisk(d, os[..k]), os[k]);
    }
  }

  /** The blocks that any of some operations logged. */
  ghost function LoggedBy(os: seq<Op>): set<nat> {
    if os == [] then {} else LoggedBy(os[..|os| - 1]) + os[|os| - 1].logged
  }

  /** A transaction by which operations x to y - 1 can be committed together: it names the blocks they logged, in any
      order, and holds their last contents. */
  ghost predicate GroupTxn(d: Disk, os: seq<Op>, x: nat, y: nat, t: Log.Txn)
    requires x <= y <= |os|
  {
    var e := LastDisk(d, os[..y]);
    && (forall b :: b in t.blocks <==> b in LoggedBy(os[x..y]))
    && (forall b :: b in t.blocks ==> b in t.data && (b < |e| ==> t.data[b] == e[b]))
  }

  /** What the log holds when the file system shows the disk these operations left, and they logged what it names, is
      such a transaction: the order is the one in which log_write first saw the blocks. */
  lemma PendingGroup(l: Log.Log, d: Disk, os: seq<Op>, x: nat, y: nat)
    requires l.Valid() && x <= y <= |os| && forall b :: b in l.blocks <==> b in LoggedBy(os[x..y])
    requires Log.SameHome(l.area, l.View(), LastDisk(d, os[..y]))
    ensures GroupTxn(d, os, x, y, l.Pending())
  {
    hide LoggedBy, LastDisk, Log.Head;
    var t, e := l.Pending(), LastDisk(d, os[..y]);
    forall b | b in t.blocks
      ensures b in t.data && (b < |e| ==> t.data[b] == e[b])
    {
      var i :| 0 <= i < |t.blocks| && t.blocks[i] == b;
      assert b < |l.disk| && !l.area.Has(b);
      assert l.View()[b] == t.data[b];
    }
  }

  lemma LoggedMore(os: seq<Op>, x: nat, y: nat)
    requires x < y <= |os|
    ensures LoggedBy(os[x..y]) == LoggedBy(os[x..y - 1]) + os[y - 1].logged
  {
    assert os[x..y][..y - x - 1] == os[x..y - 1];
  }

  lemma SeriesAt(sb: Super, d: Disk, os: seq<Op>, k: nat)
    requires Series(sb, d, os) && k < |os|
    ensures Changes(sb, LastDisk(d, os[..k]), os[k]) && LastDisk(d, os[..k + 1]) == os[k].disk
  {
    hide Changes;
  }

  /** From d to e only logged blocks have changed, and those lie after the log. */
  ghost predicate Framed(sb: Super, d: Disk, e: Disk, logged: set<nat>) {
    && |e| == |d|
    && (forall b :: b in logged ==> sb.inodestart <= b < sb.size)
    && forall b :: 0 <= b < |d| && b !in logged ==> e[b] == d[b]
  }

  lemma FramedMore(sb: Super, d: Disk, e: Disk, logged: set<nat>, op: Op)
    requires Framed(sb, d, e, logged) && Changes(sb, e, op)
    ensures Framed(sb, d, op.disk, logged + op.logged)
  {
  }

  lemma FramedNone(sb: Super, d: Disk, os: seq<Op>, x: nat)
    requires x <= |os|
    ensures Framed(sb, d, d, LoggedBy(os[x..x]))
  {
    assert os[x..x] == [];
  }

  /** What operations x to y - 1 did not log they did not change. */
  lemma {:induction false} GroupFrame(sb: Super, d: Disk, os: seq<Op>, x: nat, y: nat)
    requires Series(sb, d, os) && x <= y <= |os|
    ensures Framed(sb, LastDisk(d, os[..x]), LastDisk(d, os[..y]), LoggedBy(os[x..y]))
    decreases y
  {
    hide LastDisk, LoggedBy, Series, Framed, Changes;
    if x == y {
      FramedNone(sb, LastDisk(d, os[..x]), os, x);
    } else {
      GroupFrame(sb, d, os, x, y - 1);
      LoggedMore(os, x, y);
      SeriesAt(sb, d, os, y - 1);
      FramedMore(sb, LastDisk(d, os[..x]), LastDisk(d, os[..y - 1]), LoggedBy(os[x..y - 1]), os[y - 1]);
    }
  }

  lemma SeriesSize(sb: Super, d: Disk, os: seq<Op>, x: nat)
    requires Series(sb, d, os) && x <= |os|
    ensures |LastDisk(d, os[..x])| == |d|
  {
    hide LoggedBy, Series;
    GroupFrame(sb, d, os, 0, x);
    assert os[..0] == [];
  }

  /** Committing a transaction of a group does what its operations did. */
  lemma GroupCarries(sb: Super, d: Disk, os: seq<Op>, x: nat, y: nat, t: Log.Txn)
    requires Series(sb, d, os) && x <= y <= |os| && sb.size <= |d| && GroupTxn(d, os, x, y, t)
    ensures forall i :: 0 <= i < |t.blocks| ==> t.blocks[i] in t.data
    ensures Log.Applied(LastDisk(d, os[..x]), t) == LastDisk(d, os[..y])
  {
    hide LastDisk, LoggedBy, Series;
    GroupFrame(sb, d, os, x, y);
    SeriesSize(sb, d, os, x);
    assert Log.Applied(LastDisk(d, os[..x]), t) == LastDisk(d, os[..y]);
  }

  /** The log takes a transaction of a group that fits in it; the log lies before the inodes. */
  lemma GroupGood(a: Log.Area, sb: Super, d: Disk, os: seq<Op>, x: nat, y: nat, t: Log.Txn)
    requires Series(sb, d, os) && x <= y <= |os| && sb.Good(|d|) && a.start + a.size <= sb.inodestart
    requires GroupTxn(d, os, x, y, t) && |t.blocks| <= LOGSIZE && |t.blocks| < a.size
    ensures Log.GoodTxn(a, t, |d|)
  {
    hide LastDisk, LoggedBy, Series;
    GroupFrame(sb, d, os, x, y);
    forall i | 0 <= i < |t.blocks|
      ensures t.blocks[i] < |d| && t.blocks[i] < WORD_MAX && !a.Has(t.blocks[i]) && t.blocks[i] in t.data
    {
      assert t.blocks[i] in t.blocks;
    }
  }

  /** It takes that of any single operation of filewrite, as log_write makes it: each block once. */
  lemma OpGood(a: Log.Area, sb: Super, d: Disk, os: seq<Op>, x: nat, t: Log.Txn)
    requires Chained(sb, d, os) && x < |os| && sb.Good(|d|) && a.start + a.size <= sb.inodestart && a.size > MAXOPBLOCKS
    requires GroupTxn(d, os, x, x + 1, t) && Distinct(t.blocks)
    ensures Log.GoodTxn(a, t, |d|)
  {
    hide Log.GoodTxn, Changes, LastDisk;
    ChainedSeries(sb, d, os);
    assert OpFrom(sb, LastDisk(d, os[..x]), os[x]);
    assert os[x..x + 1] == [os[x]];
    assert LoggedBy([os[x]]) == LoggedBy([]) + os[x].logged;
    DistinctSize(t.blocks);
    assert (set i | 0 <= i < |t.blocks| :: t.blocks[i]) == os[x].logged;
    GroupGood(a, sb, d, os, x, x + 1, t);
  }

  // ---- the file system seen outside the log area ----

  lemma InodeHome(sb: Super, d: Disk, e: Disk, j: nat)
    requires sb.Good(|d|) && |e| == |d| && j < sb.ninodes && forall b :: sb.inodestart <= b < |d| ==> e[b] == d[b]
    ensures DiskInode(sb, e, j) == DiskInode(sb, d, j)
  {
    hide InodeOf, WordsAt;
  }

  lemma OwnedHome(sb: Super, d: Disk, e: Disk, nodes: seq<Inode>, o: map<nat, Slot>)
    requires Owning(sb, d, nodes, o) && |e| == |d| && forall b :: sb.inodestart <= b < |d| ==> e[b] == d[b]
    ensures Owning(sb, e, nodes, o)
  {
    hide GetBit, AddrAt, MapExact;
    MapFrame(sb, d, e, o);
    OwnedFrame(sb, d, e, nodes, o);
  }

  /** A file system does not see the log area. */
  lemma HomeLeaves(a: Log.Area, sb: Super, d: Disk, e: Disk, nodes: seq<Inode>, o: map<nat, Slot>, d0: Disk,
                   nodes0: seq<Inode>, i: nat, c: seq<Byte>)
    requires GoodInodes(sb, nodes0) && i < |nodes0| && Leaves(sb, d, nodes, o, d0, nodes0, i, c)
    requires Log.SameHome(a, e, d) && a.start + a.size <= sb.inodestart
    ensures Leaves(sb, e, nodes, o, d0, nodes0, i, c)
  {
    hide GetBit, GetWord, Owned, MapExact, MappedTo, Tight, Content, AddrAt, DiskInode;
    assert forall b :: sb.inodestart <= b < |d| ==> e[b] == d[b];
    OwnedHome(sb, d, e, nodes, o);
    forall j | 0 <= j < |nodes|
      ensures FileOk(sb, e, nodes, j) && Content(e, nodes, j) == Content(d, nodes, j)
    {
      assert FileOk(sb, d, nodes, j);
      MetaFrame(sb, d, e, nodes, o, j);
      InodeHome(sb, d, e, j);
    }
  }

  // ---- crashes ----

  /** Where a series of n operations is cut into groups. */
  ghost predicate Cuts(cuts: seq<nat>, n: nat) {
    |cuts| >= 2 && cuts[0] == 0 && forall x, y :: 0 <= x <= y < |cuts| ==> cuts[x] <= cuts[y] <= n
  }

  /** Commits that bring the disk from after cuts[j] operations to after cuts[j + 1], the last of which is cut off
      after any number of writes; then recoveries, any number of them cut off, up to one that is not. */
  ghost predicate CrashesIn(d: Disk, os: seq<Op>, cuts: seq<nat>, es: seq<Log.Event>) {
    && |es| >= |cuts| && Cuts(cuts, |os|)
    && (forall j :: 0 <= j < |cuts| - 2 ==> es[j].Commit? && GroupTxn(d, os, cuts[j], cuts[j + 1], es[j].t))
    && es[|cuts| - 2].CrashInCommit?
    && GroupTxn(d, os, cuts[|cuts| - 2], cuts[|cuts| - 1], es[|cuts| - 2].t)
    && (forall j :: |cuts| - 1 <= j < |es| ==> es[j].CrashInRecovery? || es[j].Recovery?)
    && es[|es| - 1] == Log.Recovery
  }

  /** The atomic disk follows the commits. */
  lemma {:induction false} AfterCommits(sb: Super, d: Disk, os: seq<Op>, cuts: seq<nat>, es: seq<Log.Event>,
                                        hs: seq<Disk>, j: nat)
    requires Series(sb, d, os) && sb.size <= |d| && CrashesIn(d, os, cuts, es) && Log.AtomicRun(hs, es) && hs[0] == d
    requires j < |cuts| - 1
    ensures cuts[j] <= |os| && hs[j] == LastDisk(d, os[..cuts[j]])
  {
    hide GroupTxn, Log.Applied, Series;
    if j == 0 {
      assert os[..0] == [];
    } else {
      AfterCommits(sb, d, os, cuts, es, hs, j - 1);
      assert Log.AtomicNext(hs[j - 1], es[j - 1], hs[j]);
      GroupCarries(sb, d, os, cuts[j - 1], cuts[j], es[j - 1].t);
    }
  }

  /** And stays as it is through the recoveries. */
  lemma {:induction false} AfterRecoveries(d: Disk, os: seq<Op>, cuts: seq<nat>, es: seq<Log.Event>,
                                           hs: seq<Disk>, j: nat)
    requires CrashesIn(d, os, cuts, es) && Log.AtomicRun(hs, es) && |cuts| - 1 <= j <= |es|
    ensures hs[j] == hs[|cuts| - 1]
  {
    hide GroupTxn, Log.Applied;
    if j > |cuts| - 1 {
      AfterRecoveries(d, os, cuts, es, hs, j - 1);
      assert Log.AtomicNext(hs[j - 1], es[j - 1], hs[j]);
    }
  }

  /** A crash during any series of operations, whichever of them were committed together and in whatever order the log
      names their blocks, wherever the crash falls in a commit, and however often recovery is then cut off: recovery
      leaves exactly the disk of the first k operations, for a k at which a group ends. */
  lemma CrashDuringSeries(a: Log.Area, sb: Super, d: Disk, os: seq<Op>, cuts: seq<nat>, ms: seq<Log.Machine>,
                          es: seq<Log.Event>)
    returns (k: nat)
    requires Series(sb, d, os) && sb.size <= |d| && CrashesIn(d, os, cuts, es)
    requires Log.Run(a, ms, es) && Log.Refines(a, ms[0], d)
    ensures k <= |os| && (k == cuts[|cuts| - 2] || k == cuts[|cuts| - 1])
    ensures ms[|es|].up && Log.Clean(a, ms[|es|].disk) && Log.SameHome(a, ms[|es|].disk, LastDisk(d, os[..k]))
  {
    hide Series, GroupTxn, Log.Applied, Log.Recovered, Log.CommitWrites, Log.RecoveryWrites, LastDisk;
    var hs := Log.RunRefines(a, ms, es, d);
    var c := |cuts| - 2;
    AfterCommits(sb, d, os, cuts, es, hs, c);
    AfterRecoveries(d, os, cuts, es, hs, |es|);
    GroupCarries(sb, d, os, cuts[c], cuts[c + 1], es[c].t);
    assert Log.AtomicNext(hs[c], es[c], hs[c + 1]);
    k := if hs[c + 1] == hs[c] then cuts[c] else cuts[c + 1];
    assert hs[|es|] == LastDisk(d, os[..k]);
    assert Log.Next(a, ms[|es| - 1], es[|es| - 1], ms[|es|]);
    Log.CleanRecovered(a, ms[|es|].disk);
  }

  // ---- filewrite ----

  /** The state after k operations. */
  ghost function NodesAfter(nodes: seq<Inode>, os: seq<Op>): seq<Inode> {
    if os == [] then nodes else os[|os| - 1].nodes
  }

  ghost function OwnersAfter(owner: map<nat, Slot>, os: seq<Op>): map<nat, Slot> {
    if os == [] then owner else os[|os| - 1].owner
  }

  /** The first k operations of a filewrite leave the first k chunks. */
  lemma AfterOps(sb: Super, d: Disk, nodes: seq<Inode>, owner: map<nat, Slot>, os: seq<Op>, i: nat, off: nat,
                 s: seq<Byte>, k: nat)
    requires Image(sb, d, nodes, owner) && i < |nodes| && InChunks(sb, os, d, nodes, i, off, s) && k <= |os|
    ensures Leaves(sb, LastDisk(d, os[..k]), NodesAfter(nodes, os[..k]), OwnersAfter(owner, os[..k]), d, nodes, i,
                   Partly(Content(d, nodes, i), off, s[..Min(k * CHUNK, |s|)]))
  {
    hide FileOk, Owned, MapExact, Content, Splice;
    if k == 0 {
      assert s[..0] == [];
      SpliceNothing(Content(d, nodes, i), off);
    } else {
      assert os[..k][|os[..k]| - 1] == os[k - 1];
    }
  }

  /** A crash during filewrite, whichever operations were committed together and wherever it falls in a commit, and
      however often recovery is then cut off: the disk that recovery leaves is a file system in which file i has a whole
      number of chunks of the string written into it (those of the operations committed before, or of the group being
      committed too) and every other file is what it was. */
  lemma CrashDuringFileWrite(a: Log.Area, sb: Super, d: Disk, nodes: seq<Inode>, owner: map<nat, Slot>, os: seq<Op>,
                             i: nat, off: nat, s: seq<Byte>, cuts: seq<nat>, ms: seq<Log.Machine>,
                             es: seq<Log.Event>)
    returns (k: nat)
    requires Image(sb, d, nodes, owner) && i < |nodes| && Chained(sb, d, os) && InChunks(sb, os, d, nodes, i, off, s)
    requires a.start + a.size <= sb.inodestart && CrashesIn(d, os, cuts, es)
    requires Log.Run(a, ms, es) && Log.Refines(a, ms[0], d)
    ensures k <= |os| && (k == cuts[|cuts| - 2] || k == cuts[|cuts| - 1]) && ms[|es|].up
    ensures Leaves(sb, ms[|es|].disk, NodesAfter(nodes, os[..k]), OwnersAfter(owner, os[..k]), d, nodes, i,
                   Partly(Content(d, nodes, i), off, s[..Min(k * CHUNK, |s|)]))
  {
    hide Content, Splice, FileOk, Owned, MapExact, Leaves, InChunks, Chained, CrashesIn, Log.Next, Log.Refines,
         LastDisk, NodesAfter, OwnersAfter, Partly;
    ChainedSeries(sb, d, os);
    k := CrashDuringSeries(a, sb, d, os, cuts, ms, es);
    AfterOps(sb, d, nodes, owner, os, i, off, s, k);
    HomeLeaves(a, sb, LastDisk(d, os[..k]), ms[|es|].disk, NodesAfter(nodes, os[..k]), OwnersAfter(owner, os[..k]), d,
               nodes, i, Partly(Content(d, nodes, i), off, s[..Min(k * CHUNK, |s|)]));
  }
}
