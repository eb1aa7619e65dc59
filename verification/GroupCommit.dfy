/** Group commit: begin_op, log_write and end_op of log.c interleaved by any number of
    processes.

    One step is one critical section of log.lock, except that log_write tests for a full
    log before it takes the lock, so its test and its append are two steps that other
    processes may come between. The on-disk side of commit is in module Log.
 */
module GroupCommit {
  import opened Params

  /** The log space set aside for a number of operations: MAXOPBLOCKS each. */
  function Reserved(ops: int): int {
    10 * ops
  }

  /** Where a process is. `mine` are the distinct blocks its operation has logged. */
  datatype Phase =
    | Idle
    | Asking                                  // in begin_op, about to test
    | Sleeping                                // in begin_op, asleep on the log
    | InOp(mine: set<nat>)                    // between begin_op and end_op
    | Appending(mine: set<nat>, block: nat)   // in log_write, past the test for a full log
    | Committing                              // in end_op, about to run commit
    | Committed                               // in end_op, commit done, about to wake the sleepers
  {
    predicate Active() {
      InOp? || Appending?
    }

    predicate Commits() {
      Committing? || Committed?
    }

    /** How many blocks of its reservation an operation has not used. */
    function Unused(): int {
      if Active() then MAXOPBLOCKS - |mine| else 0
    }
  }

  /** `blocks` are the entries of lh.block: log absorption keeps them distinct. */
  datatype State = State(procs: seq<Phase>, blocks: set<nat>, outstanding: int, committing: bool, panicked: bool)

  datatype Step =
    | Begin(p: nat)
    | TryBegin(p: nat)
    | Kick(p: nat)                  // a spurious wakeup, as by kill
    | TestWrite(p: nat, block: nat)
    | Append(p: nat)
    | End(p: nat)
    | DoCommit(p: nat)
    | Finish(p: nat)

  predicate Init(s: State) {
    && (forall p :: 0 <= p < |s.procs| ==> s.procs[p] == Idle)
    && s.blocks == {} && s.outstanding == 0 && !s.committing && !s.panicked
  }

  /** wakeup(&log) */
  function Wake(procs: seq<Phase>): (r: seq<Phase>)
    ensures |r| == |procs|
    ensures forall i :: 0 <= i < |r| ==> r[i] == if procs[i] == Sleeping then Asking else procs[i]
  {
    seq(|procs|, i requires 0 <= i < |procs| => if procs[i] == Sleeping then Asking else procs[i])
  }

  /** begin_op must wait. */
  predicate MustWait(s: State) {
    s.committing || |s.blocks| + Reserved(s.outstanding + 1) > LOGSIZE
  }

  /** The test at the head of log_write. */
  predicate TooBig(size: int, s: State) {
    |s.blocks| >= LOGSIZE || |s.blocks| >= size - 1 || s.outstanding < 1
  }

  /** A process may take a step when it is at that point; the one thing asked of the callers
      of log_write is that an operation logs at most MAXOPBLOCKS distinct blocks. */
  predicate Enabled(s: State, e: Step) {
    && !s.panicked
    && e.p < |s.procs|
    && var me := s.procs[e.p];
       match e
       case Begin(_) => me == Idle
       case TryBegin(_) => me == Asking
       case Kick(_) => me == Sleeping
       case TestWrite(_, b) => me.InOp? && |me.mine + {b}| <= MAXOPBLOCKS
       case Append(_) => me.Appending?
       case End(_) => me.InOp?
       case DoCommit(_) => me == Committing
       case Finish(_) => me == Committed
  }

  /** What a step does; `size` is log.size. */
  function Next(size: int, s: State, e: Step): State
    requires Enabled(s, e)
  {
    match e
    case Begin(p) => s.(procs := s.procs[p := Asking])
    case TryBegin(p) =>
      if MustWait(s) then s.(procs := s.procs[p := Sleeping])
      else s.(procs := s.procs[p := InOp({})], outstanding := s.outstanding + 1)
    case Kick(p) => s.(procs := s.procs[p := Asking])
    case TestWrite(p, b) =>
      if TooBig(size, s) then s.(panicked := true)
      else s.(procs := s.procs[p := Appending(s.procs[p].mine, b)])
    case Append(p) =>
      var b := s.procs[p].block;
      s.(procs := s.procs[p := InOp(s.procs[p].mine + {b})], blocks := s.blocks + {b})
    case End(p) =>
      if s.committing then s.(outstanding := s.outstanding - 1, panicked := true)
      else if s.outstanding - 1 == 0 then
        s.(procs := s.procs[p := Committing], outstanding := 0, committing := true)
      else s.(procs := Wake(s.procs[p := Idle]), outstanding := s.outstanding - 1)
    case DoCommit(p) => s.(procs := s.procs[p := Committed], blocks := {})
    case Finish(p) => s.(procs := Wake(s.procs[p := Idle]), committing := false)
  }

  ghost predicate Run(size: int, ss: seq<State>, es: seq<Step>) {
    && |ss| == |es| + 1
    && Init(ss[0])
    && forall i :: 0 <= i < |es| ==> Enabled(ss[i], es[i]) && ss[i + 1] == Next(size, ss[i], es[i])
  }

  ghost predicate Reachable(size: int, s: State) {
    exists ss: seq<State>, es: seq<Step> :: Run(size, ss, es) && ss[|es|] == s
  }

  // ---- counting over the processes ----

  function CountActive(procs: seq<Phase>): (n: nat)
    ensures n == 0 <==> forall p :: 0 <= p < |procs| ==> !procs[p].Active()
  {
    if procs == [] then 0
    else CountActive(procs[..|procs| - 1]) + if procs[|procs| - 1].Active() then 1 else 0
  }

  function CountCommits(procs: seq<Phase>): (n: nat)
    ensures n == 0 <==> forall p :: 0 <= p < |procs| ==> !procs[p].Commits()
  {
    if procs == [] then 0
    else CountCommits(procs[..|procs| - 1]) + if procs[|procs| - 1].Commits() then 1 else 0
  }

  function SumUnused(procs: seq<Phase>): int {
    if procs == [] then 0 else SumUnused(procs[..|procs| - 1]) + procs[|procs| - 1].Unused()
  }

  lemma {:induction false} UpdateActive(procs: seq<Phase>, p: nat, x: Phase)
    requires p < |procs|
    ensures CountActive(procs[p := x]) ==
            CountActive(procs) - (if procs[p].Active() then 1 else 0) + (if x.Active() then 1 else 0)
  {
    var n := |procs| - 1;
    if p == n {
      assert procs[p := x][..n] == procs[..n];
    } else {
      assert procs[p := x][..n] == procs[..n][p := x];
      UpdateActive(procs[..n], p, x);
    }
  }

  lemma {:induction false} UpdateCommits(procs: seq<Phase>, p: nat, x: Phase)
    requires p < |procs|
    ensures CountCommits(procs[p := x]) ==
            CountCommits(procs) - (if procs[p].Commits() then 1 else 0) + (if x.Commits() then 1 else 0)
  {
    var n := |procs| - 1;
    if p == n {
      assert procs[p := x][..n] == procs[..n];
    } else {
      assert procs[p := x][..n] == procs[..n][p := x];
      UpdateCommits(procs[..n], p, x);
    }
  }

  lemma {:induction false} UpdateUnused(procs: seq<Phase>, p: nat, x: Phase)
    requires p < |procs|
    ensures SumUnused(procs[p := x]) == SumUnused(procs) - procs[p].Unused() + x.Unused()
  {
    var n := |procs| - 1;
    if p == n {
      assert procs[p := x][..n] == procs[..n];
    } else {
      assert procs[p := x][..n] == procs[..n][p := x];
      UpdateUnused(procs[..n], p, x);
    }
  }

  lemma UpdateCounts(procs: seq<Phase>, p: nat, x: Phase)
    requires p < |procs|
    ensures CountActive(procs[p := x]) ==
            CountActive(procs) - (if procs[p].Active() then 1 else 0) + (if x.Active() then 1 else 0)
    ensures CountCommits(procs[p := x]) ==
            CountCommits(procs) - (if procs[p].Commits() then 1 else 0) + (if x.Commits() then 1 else 0)
    ensures SumUnused(procs[p := x]) == SumUnused(procs) - procs[p].Unused() + x.Unused()
  {
    hide CountActive, CountCommits, SumUnused;
    UpdateActive(procs, p, x);
    UpdateCommits(procs, p, x);
    UpdateUnused(procs, p, x);
  }

  lemma {:induction false} WakeCounts(procs: seq<Phase>)
    ensures CountActive(Wake(procs)) == CountActive(procs)
    ensures CountCommits(Wake(procs)) == CountCommits(procs)
    ensures SumUnused(Wake(procs)) == SumUnused(procs)
  {
    if procs != [] {
      var n := |procs| - 1;
      assert Wake(procs)[..n] == Wake(procs[..n]);
      WakeCounts(procs[..n]);
    }
  }

  /** With a single commit under way, no other process is in commit. */
  lemma OneCommit(procs: seq<Phase>, p: nat, q: nat)
    requires p < |procs| && q < |procs| && procs[p].Commits() && procs[q].Commits() && CountCommits(procs) == 1
    ensures p == q
  {
    UpdateCounts(procs, p, Idle);
    var rest := procs[p := Idle];
    assert !rest[q].Commits();
  }

  /** One operation's unused reservation is part of the sum. */
  lemma {:induction false} UnusedBelowSum(procs: seq<Phase>, p: nat)
    requires p < |procs|
    requires forall i :: 0 <= i < |procs| ==> procs[i].Unused() >= 0
    ensures 0 <= procs[p].Unused() <= SumUnused(procs)
  {
    var n := |procs| - 1;
    if p < n {
      UnusedBelowSum(procs[..n], p);
    } else if n > 0 {
      UnusedBelowSum(procs[..n], 0);
    }
  }

  // ---- the invariant ----

  /** The counts agree with the processes. */
  ghost predicate Counted(s: State) {
    && s.outstanding == CountActive(s.procs)
    // a commit excludes operations and other commits
    && (s.committing ==> s.outstanding == 0)
    && CountCommits(s.procs) == (if s.committing then 1 else 0)
    // the blocks in the log and the unused reservations fit in the log
    && |s.blocks| + SumUnused(s.procs) <= LOGSIZE
    // between transactions the log is empty
    && (s.outstanding == 0 && !s.committing ==> s.blocks == {})
  }

  ghost predicate GoodPhase(x: Phase, blocks: set<nat>) {
    && (x.Active() ==> x.mine <= blocks && |x.mine| <= MAXOPBLOCKS)
    && (x.Appending? ==> |x.mine + {x.block}| <= MAXOPBLOCKS)
  }

  /** A process is where it may be; it sleeps in begin_op only while it has to wait, so that no wakeup
      is ever lost. */
  ghost predicate Placed(s: State, x: Phase) {
    && GoodPhase(x, s.blocks)
    && (x == Committed ==> s.blocks == {})
    && (x == Sleeping ==> MustWait(s))
  }

  /** What every interleaving keeps. */
  ghost predicate Inv(s: State) {
    Counted(s) && forall p :: 0 <= p < |s.procs| ==> Placed(s, s.procs[p])
  }

  lemma {:induction false} InitSum(procs: seq<Phase>)
    requires forall p :: 0 <= p < |procs| ==> procs[p] == Idle
    ensures SumUnused(procs) == 0
  {
    if procs != [] {
      InitSum(procs[..|procs| - 1]);
    }
  }

  lemma InvInit(s: State)
    requires Init(s)
    ensures Inv(s)
  {
    InitSum(s.procs);
  }

  /** The new block takes its place in the log out of the operation's reservation, unless
      somebody has logged it already. */
  lemma AppendFits(s: State, p: nat)
    requires Inv(s) && p < |s.procs| && s.procs[p].Appending?
    ensures var x := s.procs[p];
            |s.blocks + {x.block}| + InOp(x.mine + {x.block}).Unused() <= |s.blocks| + x.Unused()
  {
    var x := s.procs[p];
    if x.block in x.mine {
      assert x.mine + {x.block} == x.mine;
    }
    if x.block in s.blocks {
      assert s.blocks + {x.block} == s.blocks;
    }
  }

  lemma AppendCounted(size: int, s: State, p: nat)
    requires Counted(s) && Enabled(s, Append(p))
    requires var x := s.procs[p];
             |s.blocks + {x.block}| + InOp(x.mine + {x.block}).Unused() <= |s.blocks| + x.Unused()
    ensures Counted(Next(size, s, Append(p))) && s.outstanding > 0 && !s.committing && CountCommits(s.procs) == 0
  {
    hide CountActive, CountCommits, SumUnused, Phase.Unused;
    UpdateCounts(s.procs, p, InOp(s.procs[p].mine + {s.procs[p].block}));
  }

  lemma AppendPlaced(size: int, s: State, p: nat)
    requires Enabled(s, Append(p)) && forall q :: 0 <= q < |s.procs| ==> Placed(s, s.procs[q])
    requires s.outstanding > 0 && !s.committing && CountCommits(s.procs) == 0
    ensures var s' := Next(size, s, Append(p)); forall q :: 0 <= q < |s'.procs| ==> Placed(s', s'.procs[q])
  {
    hide CountCommits;
    var s' := Next(size, s, Append(p));
    assert |s.blocks| <= |s'.blocks| by {
      if s.procs[p].block in s.blocks {
        assert s'.blocks == s.blocks;
      }
    }
    assert MustWait(s) ==> MustWait(s');
    assert Placed(s, s.procs[p]);
    forall q | 0 <= q < |s'.procs|
      ensures Placed(s', s'.procs[q])
    {
      assert Placed(s, s.procs[q]);
    }
  }

  lemma InvAppend(size: int, s: State, p: nat)
    requires Inv(s) && Enabled(s, Append(p))
    ensures Inv(Next(size, s, Append(p)))
  {
    AppendFits(s, p);
    hide Placed, Counted, Phase.Unused;
    AppendCounted(size, s, p);
    AppendPlaced(size, s, p);
  }

  /** Moving to begin_op's test changes no count. */
  lemma InvAsk(s: State, p: nat)
    requires Inv(s) && p < |s.procs| && s.procs[p] in {Idle, Sleeping}
    ensures Inv(s.(procs := s.procs[p := Asking]))
  {
    hide CountActive, CountCommits, SumUnused;
    UpdateCounts(s.procs, p, Asking);
  }

  lemma SameUnused(mine: set<nat>, b: nat)
    ensures Appending(mine, b).Unused() == InOp(mine).Unused()
  {
  }

  lemma TestWriteCounted(s: State, p: nat, b: nat)
    requires Counted(s) && p < |s.procs| && s.procs[p].InOp?
    ensures Counted(s.(procs := s.procs[p := Appending(s.procs[p].mine, b)]))
  {
    hide CountActive, CountCommits, SumUnused, Phase.Unused;
    UpdateCounts(s.procs, p, Appending(s.procs[p].mine, b));
    SameUnused(s.procs[p].mine, b);
  }

  lemma TestWritePlaced(s: State, p: nat, b: nat)
    requires Enabled(s, TestWrite(p, b)) && forall q :: 0 <= q < |s.procs| ==> Placed(s, s.procs[q])
    ensures var s' := s.(procs := s.procs[p := Appending(s.procs[p].mine, b)]);
            forall q :: 0 <= q < |s'.procs| ==> Placed(s', s'.procs[q])
  {
    var s' := s.(procs := s.procs[p := Appending(s.procs[p].mine, b)]);
    assert Placed(s, s.procs[p]);
    forall q | 0 <= q < |s'.procs|
      ensures Placed(s', s'.procs[q])
    {
      assert Placed(s, s.procs[q]);
    }
  }

  /** Placed looks at the log, the flag and the count only. */
  lemma SamePlaces(s: State, s': State)
    requires s' == s.(panicked := s'.panicked) && Inv(s)
    ensures Inv(s')
  {
    forall q | 0 <= q < |s'.procs|
      ensures Placed(s', s'.procs[q])
    {
      assert Placed(s, s.procs[q]);
    }
  }

  lemma InvTestWrite(size: int, s: State, p: nat, b: nat)
    requires Inv(s) && Enabled(s, TestWrite(p, b))
    ensures Inv(Next(size, s, TestWrite(p, b)))
  {
    hide Counted, Placed;
    if !TooBig(size, s) {
      TestWriteCounted(s, p, b);
      TestWritePlaced(s, p, b);
    } else {
      SamePlaces(s, s.(panicked := true));
    }
  }

  lemma InvDoCommit(size: int, s: State, p: nat)
    requires Inv(s) && Enabled(s, DoCommit(p))
    ensures Inv(Next(size, s, DoCommit(p)))
  {
    hide CountActive, CountCommits, SumUnused;
    UpdateCounts(s.procs, p, Committed);
  }

  lemma InvFinish(size: int, s: State, p: nat)
    requires Inv(s) && Enabled(s, Finish(p))
    ensures Inv(Next(size, s, Finish(p)))
  {
    hide CountActive, CountCommits, SumUnused;
    UpdateCounts(s.procs, p, Idle);
    WakeCounts(s.procs[p := Idle]);
  }

  lemma {:induction false} SumBound(procs: seq<Phase>)
    ensures SumUnused(procs) <= Reserved(CountActive(procs))
  {
    if procs != [] {
      SumBound(procs[..|procs| - 1]);
    }
  }

  lemma TryBeginCounted(size: int, s: State, p: nat)
    requires Counted(s) && Enabled(s, TryBegin(p))
    ensures Counted(Next(size, s, TryBegin(p)))
  {
    hide CountActive, CountCommits, SumUnused;
    if MustWait(s) {
      UpdateCounts(s.procs, p, Sleeping);
    } else {
      UpdateCounts(s.procs, p, InOp({}));
      SumBound(s.procs);
    }
  }

  lemma TryBeginPlaced(size: int, s: State, p: nat)
    requires Enabled(s, TryBegin(p)) && forall q :: 0 <= q < |s.procs| ==> Placed(s, s.procs[q])
    ensures var s' := Next(size, s, TryBegin(p)); forall q :: 0 <= q < |s'.procs| ==> Placed(s', s'.procs[q])
  {
    var s' := Next(size, s, TryBegin(p));
    forall q | 0 <= q < |s'.procs|
      ensures Placed(s', s'.procs[q])
    {
      assert Placed(s, s.procs[q]);
    }
  }

  lemma InvTryBegin(size: int, s: State, p: nat)
    requires Inv(s) && Enabled(s, TryBegin(p))
    ensures Inv(Next(size, s, TryBegin(p)))
  {
    hide Placed, Counted;
    TryBeginCounted(size, s, p);
    TryBeginPlaced(size, s, p);
  }

  lemma EndCounted(size: int, s: State, p: nat)
    requires Counted(s) && Enabled(s, End(p)) && s.procs[p].Unused() >= 0
    ensures Counted(Next(size, s, End(p))) && !s.committing
  {
    hide CountActive, CountCommits, SumUnused;
    if s.outstanding == 1 {
      UpdateCounts(s.procs, p, Committing);
    } else {
      UpdateCounts(s.procs, p, Idle);
      WakeCounts(s.procs[p := Idle]);
    }
  }

  lemma EndPlaced(size: int, s: State, p: nat)
    requires Enabled(s, End(p)) && !s.committing && forall q :: 0 <= q < |s.procs| ==> Placed(s, s.procs[q])
    ensures var s' := Next(size, s, End(p)); forall q :: 0 <= q < |s'.procs| ==> Placed(s', s'.procs[q])
  {
    var s' := Next(size, s, End(p));
    forall q | 0 <= q < |s'.procs|
      ensures Placed(s', s'.procs[q])
    {
      assert Placed(s, s.procs[q]);
    }
  }

  lemma InvEnd(size: int, s: State, p: nat)
    requires Inv(s) && Enabled(s, End(p))
    ensures Inv(Next(size, s, End(p))) && !Next(size, s, End(p)).panicked
  {
    assert s.procs[p].Unused() >= 0 by {
      assert Placed(s, s.procs[p]);
    }
    hide Placed, Counted, Phase.Unused;
    EndCounted(size, s, p);
    EndPlaced(size, s, p);
  }

  lemma InvStep(size: int, s: State, e: Step)
    requires Inv(s) && Enabled(s, e)
    ensures Inv(Next(size, s, e))
    ensures Next(size, s, e).panicked ==> e.TestWrite? && TooBig(size, s)
  {
    hide Inv;
    match e
    case Begin(p) => InvAsk(s, p);
    case Kick(p) => InvAsk(s, p);
    case TryBegin(p) => InvTryBegin(size, s, p);
    case TestWrite(p, b) => InvTestWrite(size, s, p, b);
    case Append(p) => InvAppend(size, s, p);
    case End(p) => InvEnd(size, s, p);
    case DoCommit(p) => InvDoCommit(size, s, p);
    case Finish(p) => InvFinish(size, s, p);
  }

  /** Group commit is safe under every interleaving. */
  lemma {:induction false} InvHolds(size: int, ss: seq<State>, es: seq<Step>, i: nat)
    requires Run(size, ss, es) && i < |ss|
    ensures Inv(ss[i])
  {
    if i == 0 {
      InvInit(ss[0]);
    } else {
      InvHolds(size, ss, es, i - 1);
      InvStep(size, ss[i - 1], es[i - 1]);
    }
  }

  // ---- what the invariant means ----

  /** While commit runs the log is frozen and end_op's panic is out of reach: nobody is inside
      an operation, and only the committing process can change the log or the flag. */
  lemma CommitFrozen(size: int, s: State, e: Step, c: nat)
    requires Inv(s) && Enabled(s, e) && c < |s.procs| && s.procs[c].Commits()
    ensures forall p :: 0 <= p < |s.procs| ==> !s.procs[p].Active()
    ensures e.p != c ==>
              var s' := Next(size, s, e);
              s'.blocks == s.blocks && s'.committing && s'.procs[c] == s.procs[c] && !s'.panicked
  {
    assert s.committing;
    if s.procs[e.p].Commits() {
      OneCommit(s.procs, c, e.p);
    }
  }

  /** Whoever sleeps in begin_op has somebody left to wake it: an operation in progress or a
      commit under way. */
  lemma SleeperHasWaker(s: State, p: nat)
    requires Inv(s) && p < |s.procs| && s.procs[p] == Sleeping
    ensures exists q :: 0 <= q < |s.procs| && (s.procs[q].Active() || s.procs[q].Commits())
  {
    assert MustWait(s);
  }

  lemma LogBound(s: State)
    requires Inv(s)
    ensures |s.blocks| <= LOGSIZE
    ensures forall p :: 0 <= p < |s.procs| ==> |s.blocks| + s.procs[p].Unused() <= LOGSIZE
  {
    hide CountActive, CountCommits, SumUnused;
    assert forall p :: 0 <= p < |s.procs| ==> Placed(s, s.procs[p]);
    forall p | 0 <= p < |s.procs|
      ensures 0 <= s.procs[p].Unused() && |s.blocks| + s.procs[p].Unused() <= LOGSIZE
    {
      UnusedBelowSum(s.procs, p);
    }
    if |s.procs| == 0 {
      InitSum(s.procs);
    }
  }

  /** The log never overflows its LOGSIZE entries, although the test in log_write is made
      without the lock and may be out of date when the block is appended. */
  lemma NoOverflow(size: int, s: State, e: Step)
    requires Inv(s) && Enabled(s, e)
    ensures |s.blocks| <= LOGSIZE && |Next(size, s, e).blocks| <= LOGSIZE
    ensures |s.blocks| == LOGSIZE && e.Append? ==> s.procs[e.p].block in s.blocks
  {
    hide Counted, Next;
    InvStep(size, s, e);
    LogBound(s);
    LogBound(Next(size, s, e));
    if e.Append? && |s.blocks| == LOGSIZE {
      var x := s.procs[e.p];
      assert Placed(s, x) && x.Unused() <= 0;
      if x.block !in s.blocks {
        assert false;
      }
    }
  }

  /** begin_op, exactly: it lets the operation in, adding it to those in progress and changing
      nothing else, if no commit runs and ten blocks for each operation in progress and for this
      one fit in the thirty of the log beside what is logged; else the process goes to sleep. */
  lemma BeginAdmits(size: int, s: State, p: nat)
    requires Inv(s) && Enabled(s, TryBegin(p))
    ensures var s' := Next(size, s, TryBegin(p));
            if !s.committing && |s.blocks| + 10 * (CountActive(s.procs) + 1) <= 30
            then CountActive(s'.procs) == CountActive(s.procs) + 1 && s' == s.(procs := s.procs[p := InOp({})],
                                                                               outstanding := s'.outstanding)
            else s' == s.(procs := s.procs[p := Sleeping])
  {
    hide CountActive;
    UpdateActive(s.procs, p, InOp({}));
  }

  /** The blocks appended to the log by steps i to j of a run. */
  ghost function Logged(ss: seq<State>, es: seq<Step>, i: nat, j: nat): set<nat>
    requires i <= j <= |es| && |ss| == |es| + 1
  {
    set k | i <= k < j && es[k].Append? && Enabled(ss[k], es[k]) :: ss[k].procs[es[k].p].block
  }

  lemma NoneLogged(ss: seq<State>, es: seq<Step>, i: nat)
    requires i <= |es| && |ss| == |es| + 1
    ensures Logged(ss, es, i, i) == {}
  {
  }

  lemma LoggedMore(ss: seq<State>, es: seq<Step>, i: nat, j: nat)
    requires i <= j < |es| && |ss| == |es| + 1 && Enabled(ss[j], es[j])
    ensures Logged(ss, es, i, j + 1) ==
            Logged(ss, es, i, j) + if es[j].Append? then {ss[j].procs[es[j].p].block} else {}
  {
    var more := Logged(ss, es, i, j) + if es[j].Append? then {ss[j].procs[es[j].p].block} else {};
    forall b | b in Logged(ss, es, i, j + 1)
      ensures b in more
    {
      var k :| i <= k < j + 1 && es[k].Append? && Enabled(ss[k], es[k]) && ss[k].procs[es[k].p].block == b;
    }
  }

  lemma BlocksAfter(size: int, s: State, e: Step)
    requires Enabled(s, e) && !e.DoCommit?
    ensures Next(size, s, e).blocks == s.blocks + if e.Append? then {s.procs[e.p].block} else {}
  {
  }

  /** From one commit to the next the log holds what the operations have appended, all of it and
      nothing else: no operation's end takes anything out. */
  lemma {:induction false} HoldsAllLogged(size: int, ss: seq<State>, es: seq<Step>, i: nat, j: nat)
    requires Run(size, ss, es) && i <= j <= |es| && ss[i].blocks == {}
    requires forall k :: i <= k < j ==> !es[k].DoCommit?
    ensures ss[j].blocks == Logged(ss, es, i, j)
  {
    hide Next, Logged, Init;
    if i == j {
      NoneLogged(ss, es, i);
    } else {
      HoldsAllLogged(size, ss, es, i, j - 1);
      BlocksAfter(size, ss[j - 1], es[j - 1]);
      LoggedMore(ss, es, i, j - 1);
    }
  }

  /** A process between its test and its append is not moved by the others. */
  lemma {:induction false} StaysAppending(size: int, ss: seq<State>, es: seq<Step>, i: nat, j: nat, p: nat)
    requires Run(size, ss, es) && i <= j <= |es| && p < |ss[i].procs| && ss[i].procs[p].Appending?
    requires forall k :: i <= k < j ==> es[k].p != p
    ensures p < |ss[j].procs| && ss[j].procs[p] == ss[i].procs[p]
  {
    if i < j {
      StaysAppending(size, ss, es, i, j - 1, p);
    }
  }

  /** log_write of block b, whatever others do between its test and its append, adds b to the log
      and to the operation's own blocks, and adds nothing else. */
  lemma LogWriteLogs(size: int, ss: seq<State>, es: seq<Step>, i: nat, j: nat, b: nat)
    requires Run(size, ss, es) && i < j < |es| && es[i].TestWrite? && es[i].block == b && !ss[i + 1].panicked
    requires es[j] == Append(es[i].p) && forall k :: i < k < j ==> es[k].p != es[i].p
    ensures var p := es[i].p;
            && ss[j + 1] == ss[j].(procs := ss[j + 1].procs, blocks := ss[j].blocks + {b})
            && p < |ss[j].procs| && ss[j + 1].procs == ss[j].procs[p := InOp(ss[i].procs[p].mine + {b})]
  {
    StaysAppending(size, ss, es, i + 1, j, es[i].p);
  }

  // ---- when log_write can panic ----

  /** An operation that has logged fewer than MAXOPBLOCKS blocks is never refused, provided the
      log area holds more than LOGSIZE blocks. */
  lemma RoomyLogNeverPanics(size: int, s: State, e: Step)
    requires size > LOGSIZE && Inv(s) && Enabled(s, e)
    requires e.TestWrite? ==> |s.procs[e.p].mine| < MAXOPBLOCKS
    ensures !Next(size, s, e).panicked
  {
    InvStep(size, s, e);
    if e.TestWrite? {
      UnusedBelowSum(s.procs, e.p);
      assert s.procs[e.p].Active();
    }
  }

  lemma InitReachable(size: int, n: nat) returns (s: State)
    ensures Reachable(size, s) && Init(s) && |s.procs| == n
  {
    s := State(seq(n, _ => Idle), {}, 0, false, false);
    var ss, es: seq<Step> := [s], [];
    assert Run(size, ss, es) && ss[|es|] == s;
  }

  lemma StepReachable(size: int, s: State, e: Step)
    requires Reachable(size, s) && Enabled(s, e)
    ensures Reachable(size, Next(size, s, e))
  {
    hide Next, Enabled, Init;
    var ss, es :| Run(size, ss, es) && ss[|es|] == s;
    var ss', es' := ss + [Next(size, s, e)], es + [e];
    assert Run(size, ss', es') && ss'[|es'|] == Next(size, s, e);
  }

  lemma ReachableInv(size: int, s: State)
    requires Reachable(size, s)
    ensures Inv(s)
  {
    var ss, es :| Run(size, ss, es) && ss[|es|] == s;
    InvHolds(size, ss, es, |es|);
  }

  /** Process p begins an operation when nothing makes it wait. */
  lemma BeginReachable(size: int, s: State, p: nat) returns (s': State)
    requires Reachable(size, s) && !s.panicked && p < |s.procs| && s.procs[p] == Idle && !MustWait(s)
    ensures Reachable(size, s') && s' == s.(procs := s.procs[p := InOp({})], outstanding := s.outstanding + 1)
  {
    var t := Next(size, s, Begin(p));
    StepReachable(size, s, Begin(p));
    StepReachable(size, t, TryBegin(p));
    s' := Next(size, t, TryBegin(p));
  }

  /** Process p logs k blocks that nobody has logged, while there is room. */
  lemma {:induction false} FillReachable(size: int, s: State, p: nat, k: nat) returns (s': State)
    requires Reachable(size, s) && !s.panicked && p < |s.procs| && s.procs[p].InOp?
    requires |s.procs[p].mine| + k <= MAXOPBLOCKS && s.outstanding >= 1
    requires |s.blocks| + k <= LOGSIZE && |s.blocks| + k <= size - 1
    requires forall b :: b in s.blocks ==> b < |s.blocks|
    requires s.procs[p].mine <= s.blocks
    ensures Reachable(size, s') && !s'.panicked && s'.outstanding == s.outstanding && !s'.committing == !s.committing
    ensures |s'.procs| == |s.procs| && forall q :: 0 <= q < |s.procs| && q != p ==> s'.procs[q] == s.procs[q]
    ensures s'.procs[p].InOp? && |s'.procs[p].mine| == |s.procs[p].mine| + k && s'.procs[p].mine <= s'.blocks
    ensures |s'.blocks| == |s.blocks| + k && forall b :: b in s'.blocks ==> b < |s'.blocks|
    decreases k
  {
    if k == 0 {
      s' := s;
    } else {
      var b := |s.blocks|;
      assert b !in s.blocks && b !in s.procs[p].mine;
      var t := Next(size, s, TestWrite(p, b));
      StepReachable(size, s, TestWrite(p, b));
      var u := Next(size, t, Append(p));
      StepReachable(size, t, Append(p));
      s' := FillReachable(size, u, p, k - 1);
    }
  }

  /** Three operations at once, having logged n blocks in all, the last one fewest. */
  lemma ThreeOps(size: int, n: nat) returns (s: State)
    requires n <= LOGSIZE && n <= size - 1
    ensures Reachable(size, s) && !s.panicked && |s.procs| == 3 && s.procs[2].InOp?
    ensures |s.blocks| == n && s.outstanding == 3
    ensures |s.procs[2].mine| == (if n > 20 then n - 20 else 0) && s.procs[2].mine <= s.blocks
  {
    s := InitReachable(size, 3);
    s := BeginReachable(size, s, 0);
    s := BeginReachable(size, s, 1);
    s := BeginReachable(size, s, 2);
    var first := if n < 10 then n else 10;
    s := FillReachable(size, s, 0, first);
    var second := if n - first < 10 then n - first else 10;
    s := FillReachable(size, s, 1, second);
    s := FillReachable(size, s, 2, n - first - second);
  }

  /** With LOGSIZE or fewer blocks of log, as mkfs makes it, three operations inside their
      reservations suffice to reach the panic. */
  lemma TightLogPanics(size: int) returns (s: State, b: nat)
    requires size <= LOGSIZE
    ensures Reachable(size, s) && Enabled(s, TestWrite(2, b)) && |s.procs[2].mine| < MAXOPBLOCKS
    ensures Next(size, s, TestWrite(2, b)).panicked
  {
    if size <= 1 {
      s := InitReachable(size, 3);
      s := BeginReachable(size, s, 2);
      b := 0;
      assert s.procs[2].mine + {b} == {0};
    } else {
      s := ThreeOps(size, size - 1);
      b := |s.blocks|;
      assert |s.procs[2].mine + {b}| <= |s.procs[2].mine| + 1;
    }
  }

  /** Freedom from the panic, exactly: operations that call log_write only while they have used
      less than their reservation are safe in every reachable state if and only if the log area
      has more than LOGSIZE blocks. */
  lemma PanicFreeIff(size: int)
    ensures size > LOGSIZE <==>
            forall s: State, p: nat, b: nat ::
              Reachable(size, s) && Enabled(s, TestWrite(p, b)) && |s.procs[p].mine| < MAXOPBLOCKS
              ==> !Next(size, s, TestWrite(p, b)).panicked
  {
    if size > LOGSIZE {
      forall s: State, p: nat, b: nat | Reachable(size, s) && Enabled(s, TestWrite(p, b))
                                        && |s.procs[p].mine| < MAXOPBLOCKS
        ensures !Next(size, s, TestWrite(p, b)).panicked
      {
        ReachableInv(size, s);
        RoomyLogNeverPanics(size, s, TestWrite(p, b));
      }
    } else {
      var s, b := TightLogPanics(size);
    }
  }

  /** However large the log area is, an operation that has logged MAXOPBLOCKS blocks may panic
      when it merely writes one of them again: the test does not look for absorption. */
  lemma AbsorbedWritePanics(size: int) returns (s: State, b: nat)
    requires size > LOGSIZE
    ensures Reachable(size, s) && Enabled(s, TestWrite(2, b)) && b in s.procs[2].mine
    ensures Next(size, s, TestWrite(2, b)).panicked
  {
    s := ThreeOps(size, LOGSIZE);
    b :| b in s.procs[2].mine;
    assert s.procs[2].mine + {b} == s.procs[2].mine;
  }
}
