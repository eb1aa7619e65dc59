/** The redo log of log.c over a disk with atomic single-block writes.

    A crash keeps the disk and drops everything else, and may strike between any two
    block writes. The methods of class `Log` record every disk they leave behind in
    `writes`; the functions `CommitWrites` and `RecoveryWrites` say which disks those
    are, and the lemmas show that recovery from any of them is all or nothing.
 */
module Log {
  import opened Blocks
  import opened Params
  import opened Sets

  /** The log area of a disk: the header at `start`, then `size - 1` log blocks. */
  datatype Area = Area(start: nat, size: nat) {
    predicate Has(b: nat) {
      start <= b < start + size
    }
  }

  // ---- the header block ----

  /** The block numbers recorded in a header block. */
  function Head(h: Block): (blocks: seq<nat>)
    requires GetWord(h, 0) < WORDS
  {
    WordsAt(h, 1, GetWord(h, 0))
  }

  /** What write_head stores: n, then the block numbers; the rest of the block stays. */
  function PutHead(h: Block, blocks: seq<nat>): Block
    requires |blocks| < WORDS && forall i :: 0 <= i < |blocks| ==> blocks[i] < WORD_MAX
  {
    PutWords(h, 0, [|blocks|] + blocks)
  }

  /** What write_head stores, read_head reads back, whatever the block held before. */
  lemma HeadRoundTrip(h: Block, blocks: seq<nat>)
    requires |blocks| < WORDS && forall i :: 0 <= i < |blocks| ==> blocks[i] < WORD_MAX
    ensures var h' := PutHead(h, blocks);
            && GetWord(h', 0) == |blocks| && Head(h') == blocks
            && (forall i :: 0 <= i < |blocks| ==> GetWord(h', i + 1) == blocks[i])
            && (forall i :: |blocks| < i < WORDS ==> GetWord(h', i) == GetWord(h, i))
  {
    hide GetWord, PutWords;
    var ws := [|blocks|] + blocks;
    PutWordsAt(h, 0, ws, 0);
    forall i | 0 < i < WORDS
      ensures GetWord(PutHead(h, blocks), i) == if i <= |blocks| then blocks[i - 1] else GetWord(h, i)
    {
      PutWordsAt(h, 0, ws, i);
    }
    StoredWords(h, 0, ws);
    assert WordsAt(PutHead(h, blocks), 1, |blocks|) == WordsAt(PutHead(h, blocks), 0, |ws|)[1..];
  }

  // ---- well-formed logs ----

  /** Block numbers that fit in the log and lie on the disk outside the log area. */
  predicate Loggable(a: Area, blocks: seq<nat>, disk: nat) {
    && |blocks| <= LOGSIZE
    && |blocks| < a.size
    && forall i :: 0 <= i < |blocks| ==> blocks[i] < disk && blocks[i] < WORD_MAX && !a.Has(blocks[i])
  }

  predicate GoodDisk(a: Area, d: Disk) {
    && 0 < a.size
    && a.start + a.size <= |d|
    && GetWord(d[a.start], 0) < WORDS
    && Loggable(a, Head(d[a.start]), |d|)
  }

  /** Nothing is committed but not yet installed. */
  predicate Clean(a: Area, d: Disk) {
    GoodDisk(a, d) && Head(d[a.start]) == []
  }

  /** Two disks that hold the same blocks outside the log area. */
  ghost predicate SameHome(a: Area, d: Disk, e: Disk) {
    && |d| == |e|
    && forall b :: 0 <= b < |d| && !a.Has(b) ==> d[b] == e[b]
  }

  /** The updates of one transaction: the logged block numbers and their new contents. */
  datatype Txn = Txn(blocks: seq<nat>, data: map<nat, Block>)

  ghost predicate GoodTxn(a: Area, t: Txn, disk: nat) {
    Loggable(a, t.blocks, disk) && forall i :: 0 <= i < |t.blocks| ==> t.blocks[i] in t.data
  }

  /** The disk an atomic transaction would produce. */
  ghost function Applied(d: Disk, t: Txn): (e: Disk)
    requires forall i :: 0 <= i < |t.blocks| ==> t.blocks[i] in t.data
    ensures |e| == |d|
  {
    seq(|d|, b requires 0 <= b < |d| => if b in t.blocks then t.data[b] else d[b])
  }

  // ---- the disks that commit and recovery leave behind ----

  /** The disk after k steps of write_log. */
  ghost function LogUpTo(a: Area, d: Disk, t: Txn, k: nat): (e: Disk)
    requires k <= |t.blocks| && a.start + |t.blocks| < |d|
    requires forall i :: 0 <= i < |t.blocks| ==> t.blocks[i] in t.data
    ensures |e| == |d|
  {
    if k == 0 then d else LogUpTo(a, d, t, k - 1)[a.start + k := t.data[t.blocks[k - 1]]]
  }

  /** The disk after k steps of install_trans. */
  ghost function InstallUpTo(a: Area, d: Disk, blocks: seq<nat>, k: nat): (e: Disk)
    requires k <= |blocks| && Loggable(a, blocks, |d|) && a.start + a.size <= |d|
    ensures |e| == |d|
  {
    if k == 0 then d else InstallUpTo(a, d, blocks, k - 1)[blocks[k - 1] := d[a.start + k]]
  }

  /** The disk once a header naming `blocks` is written. */
  ghost function WithHead(a: Area, d: Disk, blocks: seq<nat>): (e: Disk)
    requires a.start < |d| && |blocks| < WORDS && forall i :: 0 <= i < |blocks| ==> blocks[i] < WORD_MAX
    ensures |e| == |d|
  {
    d[a.start := PutHead(d[a.start], blocks)]
  }

  ghost function InstallWrites(a: Area, d: Disk, blocks: seq<nat>, k: nat): seq<Disk>
    requires k <= |blocks| && Loggable(a, blocks, |d|) && a.start + a.size <= |d|
  {
    seq(k, i requires 0 <= i < k => InstallUpTo(a, d, blocks, i + 1))
  }

  ghost function LogWrites(a: Area, d: Disk, t: Txn, k: nat): seq<Disk>
    requires k <= |t.blocks| && a.start + |t.blocks| < |d|
    requires forall i :: 0 <= i < |t.blocks| ==> t.blocks[i] in t.data
  {
    seq(k, i requires 0 <= i < k => LogUpTo(a, d, t, i + 1))
  }

  /** The disk recovery ends with, but for the header. */
  ghost function Recovered(a: Area, d: Disk): (e: Disk)
    requires GoodDisk(a, d)
    ensures |e| == |d|
  {
    var blocks := Head(d[a.start]);
    InstallUpTo(a, d, blocks, |blocks|)
  }

  /** Every disk recover_from_log writes, in order. */
  ghost function RecoveryWrites(a: Area, d: Disk): seq<Disk>
    requires GoodDisk(a, d)
  {
    var blocks := Head(d[a.start]);
    InstallWrites(a, d, blocks, |blocks|) + [WithHead(a, Recovered(a, d), [])]
  }

  /** The disk at the commit point: log blocks and header written, nothing installed. */
  ghost function Committed(a: Area, d: Disk, t: Txn): (e: Disk)
    requires GoodTxn(a, t, |d|) && a.start + a.size <= |d|
    ensures |e| == |d|
  {
    WithHead(a, LogUpTo(a, d, t, |t.blocks|), t.blocks)
  }

  /** Every disk commit writes, in order. */
  ghost function CommitWrites(a: Area, d: Disk, t: Txn): seq<Disk>
    requires GoodTxn(a, t, |d|) && a.start + a.size <= |d|
  {
    var n := |t.blocks|;
    if n == 0 then [] else
      var c := Committed(a, d, t);
      LogWrites(a, d, t, n) + [c]
      + (InstallWrites(a, c, t.blocks, n) + [WithHead(a, InstallUpTo(a, c, t.blocks, n), [])])
  }

  // ---- what each write does ----

  lemma {:induction false} LogUpToAt(a: Area, d: Disk, t: Txn, k: nat, b: nat)
    requires k <= |t.blocks| && a.start + |t.blocks| < |d| && b < |d|
    requires forall i :: 0 <= i < |t.blocks| ==> t.blocks[i] in t.data
    ensures LogUpTo(a, d, t, k)[b] ==
            if a.start < b <= a.start + k then t.data[t.blocks[b - a.start - 1]] else d[b]
  {
    if k > 0 {
      LogUpToAt(a, d, t, k - 1, b);
    }
  }

  /** The last of the first k entries that names block b, or -1. */
  ghost function Slot(blocks: seq<nat>, b: nat, k: nat): (i: int)
    requires k <= |blocks|
    ensures -1 <= i < k && (i >= 0 ==> blocks[i] == b)
  {
    if k == 0 then -1 else if blocks[k - 1] == b then k - 1 else Slot(blocks, b, k - 1)
  }

  lemma {:induction false} SlotMember(blocks: seq<nat>, b: nat, k: nat, i: nat)
    requires i < k <= |blocks| && blocks[i] == b
    ensures Slot(blocks, b, k) >= i
  {
    if i < k - 1 {
      SlotMember(blocks, b, k - 1, i);
    }
  }

  /** A block is named exactly when it has a slot. */
  lemma SlotIn(blocks: seq<nat>, b: nat)
    ensures b in blocks <==> Slot(blocks, b, |blocks|) >= 0
  {
    if b in blocks {
      var i :| 0 <= i < |blocks| && blocks[i] == b;
      SlotMember(blocks, b, |blocks|, i);
    }
  }

  /** Installing copies the last log block that names a home block, and nothing else. */
  lemma {:induction false} InstallAt(a: Area, d: Disk, blocks: seq<nat>, k: nat, b: nat)
    requires k <= |blocks| && Loggable(a, blocks, |d|) && a.start + a.size <= |d| && b < |d|
    ensures InstallUpTo(a, d, blocks, k)[b] ==
            var i := Slot(blocks, b, k); if i >= 0 then d[a.start + 1 + i] else d[b]
    ensures a.Has(b) ==> InstallUpTo(a, d, blocks, k)[b] == d[b]
  {
    if k > 0 {
      InstallAt(a, d, blocks, k - 1, b);
    }
  }

  /** Installing again, from a disk on which the first k blocks are already in place. */
  lemma InstallAgain(a: Area, d: Disk, blocks: seq<nat>, k: nat, b: nat)
    requires k <= |blocks| && Loggable(a, blocks, |d|) && a.start + a.size <= |d| && b < |d|
    ensures InstallUpTo(a, InstallUpTo(a, d, blocks, k), blocks, |blocks|)[b]
         == InstallUpTo(a, d, blocks, |blocks|)[b]
  {
    var c := InstallUpTo(a, d, blocks, k);
    var n := |blocks|;
    InstallAt(a, d, blocks, n, b);
    InstallAt(a, c, blocks, n, b);
    var i := Slot(blocks, b, n);
    if i >= 0 {
      InstallAt(a, d, blocks, k, a.start + 1 + i);
    } else {
      InstallAt(a, d, blocks, k, b);
      var j := Slot(blocks, b, k);
      if j >= 0 {
        SlotMember(blocks, b, n, j);
      }
    }
  }

  // ---- recovery: idempotent, and deaf to crashes ----

  /** A crash after any number of recovery's writes leaves a good disk from which
      recovery reaches exactly the same home blocks. */
  lemma RecoveryCrash(a: Area, d: Disk, i: nat)
    requires GoodDisk(a, d) && i < |RecoveryWrites(a, d)|
    ensures GoodDisk(a, RecoveryWrites(a, d)[i])
    ensures SameHome(a, Recovered(a, RecoveryWrites(a, d)[i]), Recovered(a, d))
    ensures i == |RecoveryWrites(a, d)| - 1 ==>
              Clean(a, RecoveryWrites(a, d)[i]) && SameHome(a, RecoveryWrites(a, d)[i], Recovered(a, d))
  {
    hide GetWord, SetWord, PutHead;
    var blocks := Head(d[a.start]);
    var c := RecoveryWrites(a, d)[i];
    if i < |blocks| {
      assert c == InstallUpTo(a, d, blocks, i + 1);
      InstallAt(a, d, blocks, i + 1, a.start);
      forall b | 0 <= b < |d|
        ensures Recovered(a, c)[b] == Recovered(a, d)[b]
      {
        InstallAgain(a, d, blocks, i + 1, b);
      }
    } else {
      HeadRoundTrip(Recovered(a, d)[a.start], []);
    }
  }

  // ---- commit: all or nothing at every write ----

  /** Installing a committed transaction gives exactly its atomic effect. */
  lemma CommittedInstalls(a: Area, d: Disk, t: Txn)
    requires GoodTxn(a, t, |d|) && a.start + a.size <= |d|
    ensures GoodDisk(a, Committed(a, d, t)) && Head(Committed(a, d, t)[a.start]) == t.blocks
    ensures SameHome(a, Recovered(a, Committed(a, d, t)), Applied(d, t))
  {
    hide GetWord, SetWord, PutHead;
    var c := Committed(a, d, t);
    HeadRoundTrip(LogUpTo(a, d, t, |t.blocks|)[a.start], t.blocks);
    forall b | 0 <= b < |d| && !a.Has(b)
      ensures Recovered(a, c)[b] == Applied(d, t)[b]
    {
      var i := Slot(t.blocks, b, |t.blocks|);
      SlotIn(t.blocks, b);
      InstallAt(a, c, t.blocks, |t.blocks|, b);
      LogUpToAt(a, d, t, |t.blocks|, if i >= 0 then a.start + 1 + i else b);
    }
  }

  /** For every crash point of a commit: before the header write recovery finds all the old
      contents, from the header write on it finds all the logged contents; and a commit that
      is not interrupted leaves an empty log and the logged contents in place. */
  lemma CommitCrash(a: Area, d: Disk, t: Txn, i: nat)
    requires Clean(a, d) && GoodTxn(a, t, |d|) && i < |CommitWrites(a, d, t)|
    ensures GoodDisk(a, CommitWrites(a, d, t)[i])
    ensures SameHome(a, Recovered(a, CommitWrites(a, d, t)[i]), if i < |t.blocks| then d else Applied(d, t))
    ensures i == |CommitWrites(a, d, t)| - 1 ==>
              Clean(a, CommitWrites(a, d, t)[i]) && SameHome(a, CommitWrites(a, d, t)[i], Applied(d, t))
  {
    hide GetWord, SetWord, PutHead;
    var n := |t.blocks|;
    var ws := CommitWrites(a, d, t);
    if i < n {
      assert ws[i] == LogUpTo(a, d, t, i + 1);
      forall b | 0 <= b < |d|
        ensures (b == a.start || !a.Has(b)) ==> ws[i][b] == d[b]
      {
        LogUpToAt(a, d, t, i + 1, b);
      }
    } else {
      CommittedInstalls(a, d, t);
      var c := Committed(a, d, t);
      if i > n {
        assert ws[i] == RecoveryWrites(a, c)[i - n - 1];
        RecoveryCrash(a, c, i - n - 1);
      }
    }
  }

  // ---- whole runs with any number of crashes ----

  /** What can happen to the disk: a commit that completes or is cut off after k writes,
      a recovery that completes or is cut off after k writes. */
  datatype Event =
    | Commit(t: Txn)
    | CrashInCommit(t: Txn, k: nat)
    | CrashInRecovery(k: nat)
    | Recovery

  /** A machine is `up` once recovery has completed. */
  datatype Machine = Machine(disk: Disk, up: bool)

  ghost function AfterWrites(d: Disk, ws: seq<Disk>, k: nat): Disk
    requires k <= |ws|
  {
    if k == 0 then d else ws[k - 1]
  }

  ghost predicate Next(a: Area, m: Machine, e: Event, m': Machine) {
    && GoodDisk(a, m.disk)
    && match e
       case Commit(t) =>
         && m.up && GoodTxn(a, t, |m.disk|) && m'.up
         && m'.disk == AfterWrites(m.disk, CommitWrites(a, m.disk, t), |CommitWrites(a, m.disk, t)|)
       case CrashInCommit(t, k) =>
         && m.up && GoodTxn(a, t, |m.disk|) && !m'.up
         && k <= |CommitWrites(a, m.disk, t)| && m'.disk == AfterWrites(m.disk, CommitWrites(a, m.disk, t), k)
       case CrashInRecovery(k) =>
         && !m.up && !m'.up
         && k <= |RecoveryWrites(a, m.disk)| && m'.disk == AfterWrites(m.disk, RecoveryWrites(a, m.disk), k)
       case Recovery =>
         && !m.up && m'.up
         && m'.disk == AfterWrites(m.disk, RecoveryWrites(a, m.disk), |RecoveryWrites(a, m.disk)|)
  }

  /** The specification: a disk whose transactions are atomic. Only an interrupted commit
      leaves a choice, between all of the transaction and none of it. */
  ghost predicate AtomicNext(h: Disk, e: Event, h': Disk) {
    match e
    case Commit(t) => (forall i :: 0 <= i < |t.blocks| ==> t.blocks[i] in t.data) && h' == Applied(h, t)
    case CrashInCommit(t, k) =>
      (forall i :: 0 <= i < |t.blocks| ==> t.blocks[i] in t.data) && (h' == h || h' == Applied(h, t))
    case CrashInRecovery(k) => h' == h
    case Recovery => h' == h
  }

  /** How a machine stands for an atomic disk: recovery would produce it, and a machine
      that is up already shows it. */
  ghost predicate Refines(a: Area, m: Machine, h: Disk) {
    && GoodDisk(a, m.disk)
    && SameHome(a, Recovered(a, m.disk), h)
    && (m.up ==> Clean(a, m.disk))
  }

  lemma CleanRecovered(a: Area, d: Disk)
    requires Clean(a, d)
    ensures Recovered(a, d) == d
  {
  }

  /** One event of the machine is one step of the atomic disk. */
  lemma StepRefines(a: Area, m: Machine, h: Disk, e: Event, m': Machine) returns (h': Disk)
    requires Refines(a, m, h) && Next(a, m, e, m')
    ensures AtomicNext(h, e, h') && Refines(a, m', h')
  {
    hide GetWord, SetWord, PutHead, LogUpTo, InstallUpTo, Committed, Loggable;
    match e
    case Commit(t) =>
      CleanRecovered(a, m.disk);
      h' := Applied(h, t);
      var n := |CommitWrites(a, m.disk, t)|;
      if n > 0 {
        CommitCrash(a, m.disk, t, n - 1);
        CleanRecovered(a, m'.disk);
      }
    case CrashInCommit(t, k) =>
      CleanRecovered(a, m.disk);
      if k > |t.blocks| > 0 {
        h' := Applied(h, t);
      } else {
        h' := h;
      }
      if k > 0 {
        CommitCrash(a, m.disk, t, k - 1);
      }
    case CrashInRecovery(k) =>
      h' := h;
      if k > 0 {
        RecoveryCrash(a, m.disk, k - 1);
      }
    case Recovery =>
      h' := h;
      RecoveryCrash(a, m.disk, |RecoveryWrites(a, m.disk)| - 1);
      CleanRecovered(a, m'.disk);
  }

  lemma RecoveredRefines(a: Area, m: Machine)
    requires GoodDisk(a, m.disk) && !m.up
    ensures Refines(a, m, Recovered(a, m.disk))
  {
  }

  ghost predicate Run(a: Area, ms: seq<Machine>, es: seq<Event>) {
    && |ms| == |es| + 1
    && forall i :: 0 <= i < |es| ==> Next(a, ms[i], es[i], ms[i + 1])
  }

  ghost predicate AtomicRun(hs: seq<Disk>, es: seq<Event>) {
    && |hs| == |es| + 1
    && forall i :: 0 <= i < |es| ==> AtomicNext(hs[i], es[i], hs[i + 1])
  }

  /** Every run from a machine that stands for an atomic disk follows that disk. */
  lemma {:induction false} RunRefines(a: Area, ms: seq<Machine>, es: seq<Event>, h: Disk) returns (hs: seq<Disk>)
    requires Run(a, ms, es) && Refines(a, ms[0], h)
    ensures AtomicRun(hs, es) && hs[0] == h
    ensures forall i :: 0 <= i < |ms| ==> Refines(a, ms[i], hs[i])
  {
    hide Next, AtomicNext, Refines;
    if es == [] {
      hs := [h];
    } else {
      var n := |es|;
      hs := RunRefines(a, ms[..n], es[..n - 1], h);
      var h' := StepRefines(a, ms[n - 1], hs[n - 1], es[n - 1], ms[n]);
      hs := hs + [h'];
    }
  }

  /** Crash atomicity over every run: from any good disk, whatever the transactions and
      wherever the crashes fall in commits and in recoveries, the machine refines a disk
      with atomic transactions. */
  lemma CrashAtomicity(a: Area, ms: seq<Machine>, es: seq<Event>) returns (hs: seq<Disk>)
    requires Run(a, ms, es) && GoodDisk(a, ms[0].disk) && !ms[0].up
    ensures AtomicRun(hs, es) && hs[0] == Recovered(a, ms[0].disk)
    ensures forall i :: 0 <= i < |ms| ==> Refines(a, ms[i], hs[i])
  {
    hide AtomicRun, Refines, Next;
    RecoveredRefines(a, ms[0]);
    hs := RunRefines(a, ms, es, Recovered(a, ms[0].disk));
  }

  // ---- the code ----

  lemma LogStart(a: Area, d: Disk, t: Txn)
    requires a.start + |t.blocks| < |d| && forall i :: 0 <= i < |t.blocks| ==> t.blocks[i] in t.data
    ensures LogUpTo(a, d, t, 0) == d && LogWrites(a, d, t, 0) == []
  {
  }

  lemma LogStep(a: Area, d: Disk, t: Txn, k: nat)
    requires k < |t.blocks| && a.start + |t.blocks| < |d| && forall i :: 0 <= i < |t.blocks| ==> t.blocks[i] in t.data
    ensures LogUpTo(a, d, t, k + 1) == LogUpTo(a, d, t, k)[a.start + k + 1 := t.data[t.blocks[k]]]
    ensures LogWrites(a, d, t, k + 1) == LogWrites(a, d, t, k) + [LogUpTo(a, d, t, k + 1)]
  {
  }

  lemma InstallStart(a: Area, d: Disk, blocks: seq<nat>)
    requires Loggable(a, blocks, |d|) && a.start + a.size <= |d|
    ensures InstallUpTo(a, d, blocks, 0) == d && InstallWrites(a, d, blocks, 0) == []
  {
  }

  lemma InstallStep(a: Area, d: Disk, blocks: seq<nat>, k: nat)
    requires k < |blocks| && Loggable(a, blocks, |d|) && a.start + a.size <= |d|
    ensures InstallUpTo(a, d, blocks, k + 1) == InstallUpTo(a, d, blocks, k)[blocks[k] := d[a.start + k + 1]]
    ensures InstallWrites(a, d, blocks, k + 1) == InstallWrites(a, d, blocks, k) + [InstallUpTo(a, d, blocks, k + 1)]
  {
  }

  /** The in-memory log and the device. `cache` holds the blocks log_write pinned, which the
      buffer cache keeps until commit writes them; every other read comes from the disk. */
  class Log {
    const area: Area
    var disk: Disk
    var cache: map<nat, Block>
    var blocks: seq<nat>         // lh.block[0..lh.n]
    var outstanding: nat
    ghost var writes: seq<Disk>  // every disk written so far, the latest last

    ghost predicate Valid()
      reads this
    {
      && Clean(area, disk)
      && Loggable(area, blocks, |disk|)
      && Distinct(blocks)
      && cache.Keys == set b | b in blocks
    }

    ghost function Pending(): Txn
      reads this
    {
      Txn(blocks, cache)
    }

    /** A disk of n zero blocks: an empty log. */
    constructor (area: Area, n: nat)
      requires 0 < area.size && area.start + area.size <= n
      ensures Valid() && this.area == area && blocks == [] && disk == seq(n, _ => ZeroBlock()) && outstanding == 0
    {
      hide GetWord, WordsAt, ZeroBlock;
      this.area := area;
      disk := seq(n, _ => ZeroBlock());
      cache, blocks, outstanding, writes := map[], [], 0, [];
      new;
      ZeroWord(0);
      assert Head(ZeroBlock()) == WordsAt(ZeroBlock(), 1, 0);
    }

    /** What the file system sees through the cache. */
    ghost function View(): Disk
      requires Valid()
      reads this
    {
      Applied(disk, Pending())
    }

    function Read(b: nat): Block
      requires b < |disk|
      reads this
    {
      if b in cache then cache[b] else disk[b]
    }

    method Write(b: nat, data: Block)
      requires b < |disk|
      modifies this`disk, this`cache, this`writes
      ensures disk == old(disk)[b := data] && cache == old(cache) - {b}
      ensures writes == old(writes) + [disk]
    {
      disk := disk[b := data];
      cache := cache - {b};
      writes := writes + [disk];
    }

    method WriteHead()
      requires area.start < |disk| && area.start !in cache
      requires |blocks| < WORDS && forall i :: 0 <= i < |blocks| ==> blocks[i] < WORD_MAX
      modifies this`disk, this`cache, this`writes
      ensures disk == WithHead(area, old(disk), blocks)
      ensures cache == old(cache) && writes == old(writes) + [disk]
    {
      var buf := Read(area.start);
      var h := SetWord(buf, 0, |blocks|);
      for i := 0 to |blocks|
        invariant h == PutWords(buf, 0, [|blocks|] + blocks[..i])
      {
        h := SetWord(h, i + 1, blocks[i]);
        var ws := [|blocks|] + blocks[..i + 1];
        assert ws[..i + 1] == [|blocks|] + blocks[..i];
      }
      assert blocks[..|blocks|] == blocks;
      Write(area.start, h);
      assert cache == old(cache);
    }

    method ReadHead()
      requires GoodDisk(area, disk) && area.start !in cache
      modifies this`blocks
      ensures blocks == Head(disk[area.start])
    {
      var h := Read(area.start);
      var n := GetWord(h, 0);
      blocks := [];
      for i := 0 to n
        invariant blocks == Head(h)[..i]
      {
        blocks := blocks + [GetWord(h, i + 1)];
      }
    }

    method InstallTrans()
      requires area.start + area.size <= |disk| && Loggable(area, blocks, |disk|)
      requires forall b :: b in cache ==> !area.Has(b)
      modifies this`disk, this`cache, this`writes
      ensures disk == InstallUpTo(area, old(disk), blocks, |blocks|)
      ensures cache == old(cache) - (set b | b in blocks)
      ensures writes == old(writes) + InstallWrites(area, old(disk), blocks, |blocks|)
    {
      hide GetWord, SetWord, PutHead, InstallUpTo, InstallWrites;
      InstallStart(area, disk, blocks);
      for tail := 0 to |blocks|
        invariant |disk| == |old(disk)|
        invariant disk == InstallUpTo(area, old(disk), blocks, tail)
        invariant cache == old(cache) - (set b | b in blocks[..tail])
        invariant writes == old(writes) + InstallWrites(area, old(disk), blocks, tail)
      {
        InstallAt(area, old(disk), blocks, tail, area.start + tail + 1);
        var lbuf := Read(area.start + tail + 1);
        InstallStep(area, old(disk), blocks, tail);
        Write(blocks[tail], lbuf);
        assert blocks[..tail + 1] == blocks[..tail] + [blocks[tail]];
      }
      assert blocks[..|blocks|] == blocks;
    }

    method WriteLog()
      requires Valid()
      modifies this`disk, this`cache, this`writes
      ensures cache == old(cache)
      ensures disk == LogUpTo(area, old(disk), old(Pending()), |blocks|)
      ensures writes == old(writes) + LogWrites(area, old(disk), old(Pending()), |blocks|)
    {
      hide GetWord, SetWord, PutHead, Head, LogUpTo, LogWrites;
      ghost var t := Pending();
      LogStart(area, disk, t);
      for tail := 0 to |blocks|
        invariant cache == t.data && |disk| == |old(disk)|
        invariant disk == LogUpTo(area, old(disk), t, tail)
        invariant writes == old(writes) + LogWrites(area, old(disk), t, tail)
      {
        var from := Read(blocks[tail]);
        LogStep(area, old(disk), t, tail);
        Write(area.start + tail + 1, from);
        assert cache == t.data;
      }
    }

    /** Commit the pending transaction: every disk on the way is one of `CommitWrites`, and at
        the end what the file system sees is what the disk holds. */
    method CommitPending()
      requires Valid()
      modifies this`disk, this`cache, this`blocks, this`writes
      ensures Valid() && blocks == []
      ensures writes == old(writes) + CommitWrites(area, old(disk), old(Pending()))
      ensures SameHome(area, disk, old(View())) && SameHome(area, View(), old(View()))
    {
      hide GetWord, SetWord, PutHead, LogUpTo, InstallUpTo, LogWrites, InstallWrites;
      if |blocks| > 0 {
        ghost var t := Pending();
        WriteLog();
        WriteHead();
        assert disk == Committed(area, old(disk), t);
        InstallTrans();
        blocks := [];
        WriteHead();
        assert cache == map[];
        CommitCrash(area, old(disk), t, |CommitWrites(area, old(disk), t)| - 1);
      }
    }

    /** Recover after a crash: the cache is empty and the header on disk decides. */
    method RecoverFromLog()
      requires GoodDisk(area, disk) && cache == map[]
      modifies this`disk, this`cache, this`blocks, this`writes
      ensures Valid() && blocks == []
      ensures writes == old(writes) + RecoveryWrites(area, old(disk))
      ensures SameHome(area, disk, Recovered(area, old(disk)))
    {
      hide GetWord, SetWord, PutHead;
      ReadHead();
      InstallTrans();
      blocks := [];
      WriteHead();
      RecoveryCrash(area, old(disk), |RecoveryWrites(area, old(disk))| - 1);
    }

    /** Record a modified block; false is the panic. A block already in the log is absorbed,
        and either way the file system sees exactly the new contents in that block. */
    method LogWrite(b: nat, data: Block) returns (ok: bool)
      requires Valid() && b < |disk| && b < WORD_MAX && !area.Has(b)
      modifies this`cache, this`blocks
      ensures ok <==> |old(blocks)| < LOGSIZE && |old(blocks)| < area.size - 1 && outstanding >= 1
      ensures !ok ==> blocks == old(blocks) && cache == old(cache)
      ensures ok ==> Valid() && View() == old(View())[b := data]
      ensures ok ==> blocks == if b in old(blocks) then old(blocks) else old(blocks) + [b]
    {
      hide GetWord, SetWord, PutHead;
      if |blocks| >= LOGSIZE || |blocks| >= area.size - 1 {
        return false;
      }
      if outstanding < 1 {
        return false;
      }
      var i := 0;
      while i < |blocks| && blocks[i] != b
        invariant i <= |blocks|
        invariant forall j :: 0 <= j < i ==> blocks[j] != b
      {
        i := i + 1;
      }
      if i == |blocks| {
        blocks := blocks + [b];
      }
      cache := cache[b := data];
      return true;
    }
  }
}
