/** Sleep locks: acquiresleep and releasesleep of sleeplock.c over sleep, wakeup and kill
    of proc.c, for any number of processes and any number of locks.

    One step is one statement between spinlock operations; a process that wants a
    spinlock somebody holds cannot step. sched() hands ptable.lock to the scheduler,
    which frees it, and the scheduler hands it back to a process it resumes.
 */
module SleepLock {

  /** Where a process is, and on which sleep lock l it works. */
  datatype Pc =
    | Running                 // outside both functions
    | AcqSpin(l: nat)         // acquiresleep: about to take lk->lk
    | AcqTest(l: nat)         // about to test lk->locked
    | SlpTable(l: nat)        // sleep: about to take ptable.lock
    | SlpRelease(l: nat)      // about to release lk->lk
    | SlpMark(l: nat)         // about to set chan and state and call sched
    | Asleep(l: nat)          // switched out in sched
    | SlpWoken(l: nat)        // resumed, holding ptable.lock
    | SlpRetake(l: nat)       // about to take lk->lk again
    | AcqSet(l: nat)          // about to set locked and pid
    | AcqDone(l: nat)         // about to release lk->lk
    | RelSpin(l: nat)         // releasesleep: about to take lk->lk
    | RelClear(l: nat)        // about to clear locked
    | RelTable(l: nat)        // wakeup: about to take ptable.lock
    | RelWake(l: nat)         // about to wake the sleepers
    | RelWoke(l: nat)         // about to release ptable.lock
    | RelDone(l: nat)         // about to release lk->lk
  {
    /** Holds lk->lk of lock m here. */
    predicate Spins(m: nat) {
      match this
      case AcqTest(l) => l == m
      case SlpTable(l) => l == m
      case SlpRelease(l) => l == m
      case AcqSet(l) => l == m
      case AcqDone(l) => l == m
      case RelClear(l) => l == m
      case RelTable(l) => l == m
      case RelWake(l) => l == m
      case RelWoke(l) => l == m
      case RelDone(l) => l == m
      case _ => false
    }

    /** Holds ptable.lock here. */
    predicate Tables() {
      SlpRelease? || SlpMark? || SlpWoken? || RelWake? || RelWoke?
    }

    /** Has cleared lock m and not yet woken its sleepers. */
    predicate WillWake(m: nat) {
      this == RelTable(m) || this == RelWake(m)
    }
  }

  /** `sleeping` is state == SLEEPING; a process that was woken is RUNNABLE. */
  datatype Proc = Proc(pc: Pc, sleeping: bool, chan: int, held: set<nat>)

  /** `spin[l]` and `table` name the process that holds the spinlock, or -1. */
  datatype State = State(procs: seq<Proc>, spin: seq<int>, table: int, locked: seq<bool>, owner: seq<int>)

  datatype Step =
    | Acquire(p: nat, l: nat)     // process p calls acquiresleep
    | Release(p: nat, l: nat)     // process p calls releasesleep
    | Move(p: nat)                // process p takes its next step
    | Kill(p: nat)                // kill wakes p if it sleeps

  predicate Init(s: State) {
    && |s.locked| == |s.spin| == |s.owner| && s.table == -1
    && (forall l :: 0 <= l < |s.spin| ==> s.spin[l] == -1 && !s.locked[l])
    && forall p :: 0 <= p < |s.procs| ==> s.procs[p].pc == Running && !s.procs[p].sleeping && s.procs[p].held == {}
  }

  predicate Enabled(s: State, e: Step) {
    && e.p < |s.procs|
    && var x := s.procs[e.p];
       match e
       case Acquire(_, l) => x.pc == Running && l < |s.spin|
       case Release(_, l) => x.pc == Running && l in x.held
       case Kill(_) => s.table == -1
       case Move(_) =>
         match x.pc
         case Running => false
         case AcqSpin(l) => l < |s.spin| && s.spin[l] == -1
         case SlpTable(_) => s.table == -1
         case Asleep(_) => !x.sleeping && s.table == -1
         case SlpRetake(l) => l < |s.spin| && s.spin[l] == -1
         case RelSpin(l) => l < |s.spin| && s.spin[l] == -1
         case RelTable(_) => s.table == -1
         case _ => true
  }

  function At(s: State, p: nat, pc: Pc): State
    requires p < |s.procs|
  {
    s.(procs := s.procs[p := s.procs[p].(pc := pc)])
  }

  /** wakeup1: every process sleeping on the lock becomes runnable. */
  function Woken(procs: seq<Proc>, l: nat): (r: seq<Proc>)
    ensures |r| == |procs|
    ensures forall i :: 0 <= i < |r| ==>
              r[i] == if procs[i].sleeping && procs[i].chan == l then procs[i].(sleeping := false) else procs[i]
  {
    seq(|procs|, i requires 0 <= i < |procs| =>
      if procs[i].sleeping && procs[i].chan == l then procs[i].(sleeping := false) else procs[i])
  }

  predicate Known(s: State, pc: Pc) {
    |s.spin| == |s.locked| == |s.owner| && (pc.Running? || pc.l < |s.spin|)
  }

  function Next(s: State, e: Step): State
    requires Enabled(s, e) && Known(s, s.procs[e.p].pc)
  {
    var x := s.procs[e.p];
    match e
    case Acquire(p, l) => At(s, p, AcqSpin(l))
    case Release(p, l) => At(s, p, RelSpin(l))
    case Kill(p) => s.(procs := s.procs[p := x.(sleeping := false)])
    case Move(p) =>
      match x.pc
      case Running => s
      case AcqSpin(l) => At(s, p, AcqTest(l)).(spin := s.spin[l := p])
      case AcqTest(l) => At(s, p, if s.locked[l] then SlpTable(l) else AcqSet(l))
      case SlpTable(l) => At(s, p, SlpRelease(l)).(table := p)
      case SlpRelease(l) => At(s, p, SlpMark(l)).(spin := s.spin[l := -1])
      case SlpMark(l) => s.(procs := s.procs[p := x.(pc := Asleep(l), sleeping := true, chan := l)], table := -1)
      case Asleep(l) => At(s, p, SlpWoken(l)).(table := p)
      case SlpWoken(l) => s.(procs := s.procs[p := x.(pc := SlpRetake(l), chan := -1)], table := -1)
      case SlpRetake(l) => At(s, p, AcqTest(l)).(spin := s.spin[l := p])
      case AcqSet(l) =>
        s.(procs := s.procs[p := x.(pc := AcqDone(l), held := x.held + {l})],
           locked := s.locked[l := true], owner := s.owner[l := p])
      case AcqDone(l) => At(s, p, Running).(spin := s.spin[l := -1])
      case RelSpin(l) => At(s, p, RelClear(l)).(spin := s.spin[l := p])
      case RelClear(l) =>
        s.(procs := s.procs[p := x.(pc := RelTable(l), held := x.held - {l})],
           locked := s.locked[l := false], owner := s.owner[l := -1])
      case RelTable(l) => At(s, p, RelWake(l)).(table := p)
      case RelWake(l) => At(s.(procs := Woken(s.procs, l)), p, RelWoke(l))
      case RelWoke(l) => At(s, p, RelDone(l)).(table := -1)
      case RelDone(l) => At(s, p, Running).(spin := s.spin[l := -1])
  }

  // ---- the invariant ----

  /** The lock is taken, or its holder of lk->lk has yet to wake the sleepers. */
  predicate TakenOrWaking(s: State, l: nat)
    requires l < |s.locked| && l < |s.spin|
  {
    s.locked[l] || (0 <= s.spin[l] < |s.procs| && s.procs[s.spin[l]].pc.WillWake(l))
  }

  ghost predicate ProcOk(s: State, p: nat)
    requires p < |s.procs| && |s.spin| == |s.locked| == |s.owner|
  {
    var x := s.procs[p];
    && (x.pc.Running? || x.pc.l < |s.spin|)
    // spinlocks are exclusive
    && (forall l :: 0 <= l < |s.spin| ==> (s.spin[l] == p <==> x.pc.Spins(l)))
    && (s.table == p <==> x.pc.Tables())
    // a sleep lock in `held` is locked by this process and no other
    && (forall l :: l in x.held ==> l < |s.spin| && s.locked[l] && s.owner[l] == p)
    && (x.pc.RelSpin? || x.pc.RelClear? || x.pc.AcqDone? ==> x.pc.l in x.held)
    // between spinlock operations what was tested stays true
    && (x.pc.SlpTable? || x.pc.SlpRelease? ==> s.locked[x.pc.l])
    && (x.pc.AcqSet? || x.pc.RelTable? || x.pc.RelWake? || x.pc.RelWoke? || x.pc.RelDone? ==> !s.locked[x.pc.l])
    // nobody sleeps, or is about to, on a lock that is free for good
    && (x.sleeping ==> x.pc.Asleep? && x.chan == x.pc.l)
    && (x.sleeping || x.pc.SlpMark? ==> TakenOrWaking(s, x.pc.l))
  }

  ghost predicate Inv(s: State) {
    && |s.spin| == |s.locked| == |s.owner|
    && -1 <= s.table < |s.procs|
    && (forall l :: 0 <= l < |s.spin| ==> -1 <= s.spin[l] < |s.procs|)
    && (forall l :: 0 <= l < |s.spin| && s.locked[l] ==> 0 <= s.owner[l] < |s.procs| && l in s.procs[s.owner[l]].held)
    && forall p :: 0 <= p < |s.procs| ==> ProcOk(s, p)
  }

  lemma InvInit(s: State)
    requires Init(s)
    ensures Inv(s)
  {
  }

  lemma GlobalOk(s: State, e: Step)
    requires Inv(s) && Enabled(s, e)
    ensures Known(s, s.procs[e.p].pc)
    ensures var s' := Next(s, e);
            && |s'.procs| == |s.procs| && |s'.spin| == |s'.locked| == |s'.owner|
            && -1 <= s'.table < |s'.procs|
            && (forall l :: 0 <= l < |s'.spin| ==> -1 <= s'.spin[l] < |s'.procs|)
            && (forall l :: 0 <= l < |s'.spin| && s'.locked[l] ==>
                 0 <= s'.owner[l] < |s'.procs| && l in s'.procs[s'.owner[l]].held)
  {
    assert ProcOk(s, e.p);
  }

  lemma NoMove(s: State, e: Step)
    requires Enabled(s, e) && e.Move?
    ensures !s.procs[e.p].pc.Running?
  {
  }

  /** Calls, and kill. */
  lemma CallOk(s: State, e: Step, q: nat)
    requires Inv(s) && Enabled(s, e) && Known(s, s.procs[e.p].pc) && q < |s.procs|
    requires !e.Move?
    ensures ProcOk(Next(s, e), q)
  {
    assert ProcOk(s, q) && ProcOk(s, e.p);
  }

  /** Taking lk->lk. */
  lemma SpinOk(s: State, e: Step, q: nat)
    requires Inv(s) && Enabled(s, e) && Known(s, s.procs[e.p].pc) && q < |s.procs|
    requires e.Move? && (s.procs[e.p].pc.AcqSpin? || s.procs[e.p].pc.SlpRetake? || s.procs[e.p].pc.RelSpin?)
    ensures ProcOk(Next(s, e), q)
  {
    assert ProcOk(s, q) && ProcOk(s, e.p);
  }

  /** Releasing lk->lk. */
  lemma UnspinOk(s: State, e: Step, q: nat)
    requires Inv(s) && Enabled(s, e) && Known(s, s.procs[e.p].pc) && q < |s.procs|
    requires e.Move? && (s.procs[e.p].pc.SlpRelease? || s.procs[e.p].pc.AcqDone? || s.procs[e.p].pc.RelDone?)
    ensures ProcOk(Next(s, e), q)
  {
    assert ProcOk(s, q) && ProcOk(s, e.p);
  }

  /** Taking ptable.lock. */
  lemma TableOk(s: State, e: Step, q: nat)
    requires Inv(s) && Enabled(s, e) && Known(s, s.procs[e.p].pc) && q < |s.procs|
    requires e.Move? && (s.procs[e.p].pc.SlpTable? || s.procs[e.p].pc.Asleep? || s.procs[e.p].pc.RelTable?)
    ensures ProcOk(Next(s, e), q)
  {
    assert ProcOk(s, q) && ProcOk(s, e.p);
  }

  /** Releasing ptable.lock. */
  lemma UntableOk(s: State, e: Step, q: nat)
    requires Inv(s) && Enabled(s, e) && Known(s, s.procs[e.p].pc) && q < |s.procs|
    requires e.Move? && (s.procs[e.p].pc.SlpMark? || s.procs[e.p].pc.SlpWoken? || s.procs[e.p].pc.RelWoke?)
    ensures ProcOk(Next(s, e), q)
  {
    assert ProcOk(s, q) && ProcOk(s, e.p);
  }

  /** Testing the lock. */
  lemma TestOk(s: State, e: Step, q: nat)
    requires Inv(s) && Enabled(s, e) && Known(s, s.procs[e.p].pc) && q < |s.procs|
    requires e.Move? && s.procs[e.p].pc.AcqTest?
    ensures ProcOk(Next(s, e), q)
  {
    assert ProcOk(s, q) && ProcOk(s, e.p);
  }

  /** Taking the sleep lock. */
  lemma SetOk(s: State, e: Step, q: nat)
    requires Inv(s) && Enabled(s, e) && Known(s, s.procs[e.p].pc) && q < |s.procs|
    requires e.Move? && s.procs[e.p].pc.AcqSet?
    ensures ProcOk(Next(s, e), q)
  {
    assert ProcOk(s, q) && ProcOk(s, e.p);
  }

  /** Clearing the sleep lock: its sleepers now depend on this process. */
  lemma ClearOk(s: State, e: Step, q: nat)
    requires Inv(s) && Enabled(s, e) && Known(s, s.procs[e.p].pc) && q < |s.procs|
    requires e.Move? && s.procs[e.p].pc.RelClear?
    ensures ProcOk(Next(s, e), q)
  {
    assert ProcOk(s, q) && ProcOk(s, e.p);
  }

  /** Waking the sleepers. */
  lemma WakeOk(s: State, e: Step, q: nat)
    requires Inv(s) && Enabled(s, e) && Known(s, s.procs[e.p].pc) && q < |s.procs|
    requires e.Move? && s.procs[e.p].pc.RelWake?
    ensures ProcOk(Next(s, e), q)
  {
    assert ProcOk(s, q) && ProcOk(s, e.p);
  }

  lemma StepOk(s: State, e: Step, q: nat)
    requires Inv(s) && Enabled(s, e) && Known(s, s.procs[e.p].pc) && q < |s.procs|
    ensures ProcOk(Next(s, e), q)
  {
    hide Inv, ProcOk, Next;
    if !e.Move? {
      CallOk(s, e, q);
    } else {
      match s.procs[e.p].pc
      case AcqSpin(_) => SpinOk(s, e, q);
      case SlpRetake(_) => SpinOk(s, e, q);
      case RelSpin(_) => SpinOk(s, e, q);
      case SlpRelease(_) => UnspinOk(s, e, q);
      case AcqDone(_) => UnspinOk(s, e, q);
      case RelDone(_) => UnspinOk(s, e, q);
      case SlpTable(_) => TableOk(s, e, q);
      case Asleep(_) => TableOk(s, e, q);
      case RelTable(_) => TableOk(s, e, q);
      case SlpMark(_) => UntableOk(s, e, q);
      case SlpWoken(_) => UntableOk(s, e, q);
      case RelWoke(_) => UntableOk(s, e, q);
      case AcqTest(_) => TestOk(s, e, q);
      case AcqSet(_) => SetOk(s, e, q);
      case RelClear(_) => ClearOk(s, e, q);
      case RelWake(_) => WakeOk(s, e, q);
      case Running => NoMove(s, e);
    }
  }

  /** Every step of every process keeps the invariant. */
  lemma InvStep(s: State, e: Step)
    requires Inv(s) && Enabled(s, e)
    ensures Known(s, s.procs[e.p].pc) && Inv(Next(s, e))
  {
    hide ProcOk, Next, Enabled;
    GlobalOk(s, e);
    var s' := Next(s, e);
    forall q | 0 <= q < |s'.procs|
      ensures ProcOk(s', q)
    {
      StepOk(s, e, q);
    }
  }

  // ---- over every run ----

  ghost predicate Run(ss: seq<State>, es: seq<Step>) {
    && |ss| == |es| + 1
    && Init(ss[0])
    && forall i :: 0 <= i < |es| ==>
         Enabled(ss[i], es[i]) && Known(ss[i], ss[i].procs[es[i].p].pc) && ss[i + 1] == Next(ss[i], es[i])
  }

  lemma {:induction false} InvHolds(ss: seq<State>, es: seq<Step>, i: nat)
    requires Run(ss, es) && i < |ss|
    ensures Inv(ss[i])
  {
    hide Inv, Next, Enabled, Known;
    if i == 0 {
      InvInit(ss[0]);
    } else {
      InvHolds(ss, es, i - 1);
      InvStep(ss[i - 1], es[i - 1]);
    }
  }

  /** A sleep lock has at most one holder, in every reachable state; and what holdingsleep tests
      is exactly who holds it. */
  lemma MutualExclusion(ss: seq<State>, es: seq<Step>, i: nat, p: nat, q: nat, l: nat)
    requires Run(ss, es) && i < |ss| && p < |ss[i].procs| && q < |ss[i].procs| && l < |ss[i].spin|
    ensures l in ss[i].procs[p].held && l in ss[i].procs[q].held ==> p == q
    ensures l < |ss[i].locked| && l < |ss[i].owner|
    ensures l in ss[i].procs[p].held <==> ss[i].locked[l] && ss[i].owner[l] == p
  {
    hide Next, Enabled, Run;
    InvHolds(ss, es, i);
    assert ProcOk(ss[i], p) && ProcOk(ss[i], q);
  }

  /** No lost wakeup, in every reachable state and despite kill: whenever a lock is free while a
      process sleeps on it, the process that cleared it still holds lk->lk and has the wakeup
      before it, and that wakeup will reach the sleeper. */
  lemma NoLostWakeup(ss: seq<State>, es: seq<Step>, i: nat, p: nat, l: nat)
    requires Run(ss, es) && i < |ss| && p < |ss[i].procs| && l < |ss[i].spin|
    requires ss[i].procs[p].sleeping && ss[i].procs[p].chan == l
    ensures l < |ss[i].locked|
    ensures !ss[i].locked[l] ==>
              var r := ss[i].spin[l];
              && 0 <= r < |ss[i].procs| && r != p && ss[i].procs[r].pc.WillWake(l) && Known(ss[i], ss[i].procs[r].pc)
              && (ss[i].procs[r].pc.RelWake? ==> !Next(ss[i], Move(r)).procs[p].sleeping)
  {
    hide Run;
    InvHolds(ss, es, i);
    assert ProcOk(ss[i], p);
    if !ss[i].locked[l] {
      assert ProcOk(ss[i], ss[i].spin[l]);
    }
  }

  /** The spinlocks cannot deadlock: the holder of ptable.lock can step, and when nobody holds it
      the holder of any lk->lk can. */
  lemma SpinProgress(ss: seq<State>, es: seq<Step>, i: nat, l: nat)
    requires Run(ss, es) && i < |ss| && l < |ss[i].spin|
    ensures ss[i].table >= 0 ==> ss[i].table < |ss[i].procs| && Enabled(ss[i], Move(ss[i].table))
    ensures ss[i].table < 0 && ss[i].spin[l] >= 0 ==>
              ss[i].spin[l] < |ss[i].procs| && Enabled(ss[i], Move(ss[i].spin[l]))
  {
    hide Run;
    InvHolds(ss, es, i);
    if ss[i].table >= 0 {
      assert ProcOk(ss[i], ss[i].table);
    } else if ss[i].spin[l] >= 0 {
      assert ProcOk(ss[i], ss[i].spin[l]);
    }
  }

  // ---- what the two calls do ----

  /** Process p is in acquiresleep of l, and held h when it called; or it is back, with l. */
  predicate Acquiring(x: Proc, l: nat, h: set<nat>) {
    if x.pc.Running? then x.held == h + {l}
    else
      && x.pc.l == l && x.held == (if x.pc.AcqDone? then h + {l} else h)
      && (x.pc.AcqSpin? || x.pc.AcqTest? || x.pc.SlpTable? || x.pc.SlpRelease? || x.pc.SlpMark? || x.pc.Asleep?
          || x.pc.SlpWoken? || x.pc.SlpRetake? || x.pc.AcqSet? || x.pc.AcqDone?)
  }

  /** Process p is in releasesleep of l; or it is back, without l. */
  predicate Releasing(x: Proc, l: nat, h: set<nat>) {
    if x.pc.Running? then x.held == h - {l}
    else
      && x.pc.l == l && x.held == (if x.pc.RelSpin? || x.pc.RelClear? then h else h - {l})
      && (x.pc.RelSpin? || x.pc.RelClear? || x.pc.RelTable? || x.pc.RelWake? || x.pc.RelWoke? || x.pc.RelDone?)
  }

  /** Steps of others, and kill, leave a process where it is. */
  lemma OthersLeave(s: State, e: Step, p: nat)
    requires Enabled(s, e) && Known(s, s.procs[e.p].pc) && p < |s.procs| && (e.p != p || e.Kill?)
    ensures p < |Next(s, e).procs|
    ensures Next(s, e).procs[p].pc == s.procs[p].pc && Next(s, e).procs[p].held == s.procs[p].held
  {
  }

  lemma AcquireStart(s: State, p: nat, l: nat)
    requires Enabled(s, Acquire(p, l)) && Known(s, s.procs[p].pc)
    ensures p < |s.procs| && Acquiring(Next(s, Acquire(p, l)).procs[p], l, s.procs[p].held)
  {
  }

  lemma AcquireStep(s: State, e: Step, p: nat, l: nat, h: set<nat>)
    requires Enabled(s, e) && Known(s, s.procs[e.p].pc) && p < |s.procs|
    requires !s.procs[p].pc.Running? && Acquiring(s.procs[p], l, h)
    ensures p < |Next(s, e).procs| && Acquiring(Next(s, e).procs[p], l, h)
  {
    if e.p != p || e.Kill? {
      OthersLeave(s, e, p);
    }
  }

  lemma ReleaseStart(s: State, p: nat, l: nat)
    requires Enabled(s, Release(p, l)) && Known(s, s.procs[p].pc)
    ensures p < |s.procs| && Releasing(Next(s, Release(p, l)).procs[p], l, s.procs[p].held)
  {
  }

  lemma ReleaseStep(s: State, e: Step, p: nat, l: nat, h: set<nat>)
    requires Enabled(s, e) && Known(s, s.procs[e.p].pc) && p < |s.procs|
    requires !s.procs[p].pc.Running? && Releasing(s.procs[p], l, h)
    ensures p < |Next(s, e).procs| && Releasing(Next(s, e).procs[p], l, h)
  {
    if e.p != p || e.Kill? {
      OthersLeave(s, e, p);
    }
  }

  /** Process p is outside both functions for the first time after state i. */
  ghost predicate BackAt(ss: seq<State>, p: nat, i: nat, j: nat) {
    && i < j < |ss| && (forall k :: i < k <= j ==> p < |ss[k].procs|)
    && ss[j].procs[p].pc == Running && forall k :: i < k < j ==> ss[k].procs[p].pc != Running
  }

  lemma {:induction false} AcquireSoFar(ss: seq<State>, es: seq<Step>, i: nat, j: nat, k: nat, p: nat, l: nat)
    requires Run(ss, es) && i < |es| && es[i] == Acquire(p, l) && BackAt(ss, p, i, j) && i < k <= j
    ensures p < |ss[i].procs| && Acquiring(ss[k].procs[p], l, ss[i].procs[p].held)
    decreases k
  {
    hide Next, Enabled, Known, Acquiring;
    if k == i + 1 {
      assert ss[i + 1] == Next(ss[i], es[i]);
      AcquireStart(ss[i], p, l);
    } else {
      AcquireSoFar(ss, es, i, j, k - 1, p, l);
      assert ss[k] == Next(ss[k - 1], es[k - 1]);
      AcquireStep(ss[k - 1], es[k - 1], p, l, ss[i].procs[p].held);
    }
  }

  /** acquiresleep returns with the lock, whatever happens in between: the process holds exactly what it held and
      this lock, and the lock says so. */
  lemma AcquireTakes(ss: seq<State>, es: seq<Step>, i: nat, j: nat, p: nat, l: nat)
    requires Run(ss, es) && i < |es| && es[i] == Acquire(p, l) && BackAt(ss, p, i, j)
    ensures p < |ss[i].procs| && ss[j].procs[p].held == ss[i].procs[p].held + {l}
    ensures l < |ss[j].locked| && l < |ss[j].owner| && ss[j].locked[l] && ss[j].owner[l] == p
  {
    AcquireSoFar(ss, es, i, j, j, p, l);
    hide Run, Next, Enabled, Known;
    InvHolds(ss, es, j);
    assert ProcOk(ss[j], p);
  }

  lemma {:induction false} ReleaseSoFar(ss: seq<State>, es: seq<Step>, i: nat, j: nat, k: nat, p: nat, l: nat)
    requires Run(ss, es) && i < |es| && es[i] == Release(p, l) && BackAt(ss, p, i, j) && i < k <= j
    ensures p < |ss[i].procs| && Releasing(ss[k].procs[p], l, ss[i].procs[p].held)
    decreases k
  {
    hide Next, Enabled, Known, Releasing;
    if k == i + 1 {
      assert ss[i + 1] == Next(ss[i], es[i]);
      ReleaseStart(ss[i], p, l);
    } else {
      ReleaseSoFar(ss, es, i, j, k - 1, p, l);
      assert ss[k] == Next(ss[k - 1], es[k - 1]);
      ReleaseStep(ss[k - 1], es[k - 1], p, l, ss[i].procs[p].held);
    }
  }

  /** releasesleep returns without the lock, and with every other lock the process held. */
  lemma ReleaseGives(ss: seq<State>, es: seq<Step>, i: nat, j: nat, p: nat, l: nat)
    requires Run(ss, es) && i < |es| && es[i] == Release(p, l) && BackAt(ss, p, i, j)
    ensures p < |ss[i].procs| && l in ss[i].procs[p].held && ss[j].procs[p].held == ss[i].procs[p].held - {l}
  {
    ReleaseSoFar(ss, es, i, j, j, p, l);
    assert Enabled(ss[i], es[i]);
  }

  /** The step wakes process p out of its sleep on lock l: kill, or the wakeup in releasesleep of l. */
  predicate Wakes(s: State, e: Step, p: nat, l: nat) {
    e == Kill(p) || (e.Move? && e.p < |s.procs| && s.procs[e.p].pc == RelWake(l))
  }

  lemma StaysAsleep(s: State, e: Step, p: nat, l: nat)
    requires Enabled(s, e) && Known(s, s.procs[e.p].pc) && p < |s.procs| && !Wakes(s, e, p, l)
    requires s.procs[p].pc == Asleep(l) && s.procs[p].sleeping && s.procs[p].chan == l
    ensures p < |Next(s, e).procs| && Next(s, e).procs[p] == s.procs[p]
  {
  }

  /** A process switches itself out, on the lock's channel. */
  lemma FallsAsleep(s: State, e: Step, p: nat)
    requires Enabled(s, e) && Known(s, s.procs[e.p].pc) && p < |s.procs|
    requires !s.procs[p].pc.Asleep? && Next(s, e).procs[p].pc.Asleep?
    ensures Next(s, e).procs[p].sleeping && Next(s, e).procs[p].chan == Next(s, e).procs[p].pc.l
  {
  }

  /** From state i + 1, in which p has just gone to sleep, up to state k nobody wakes it: it is still asleep. */
  lemma {:induction false} AsleepUntil(ss: seq<State>, es: seq<Step>, i: nat, k: nat, p: nat, l: nat)
    requires Run(ss, es) && i < k < |ss| && p < |ss[i].procs| && p < |ss[i + 1].procs|
    requires !ss[i].procs[p].pc.Asleep? && ss[i + 1].procs[p].pc == Asleep(l)
    requires forall m :: i < m < k ==> !Wakes(ss[m], es[m], p, l)
    ensures p < |ss[k].procs| && ss[k].procs[p] == ss[i + 1].procs[p]
    ensures ss[k].procs[p].sleeping && ss[k].procs[p].chan == l
    decreases k
  {
    hide Next, Enabled, Known;
    assert ss[i + 1] == Next(ss[i], es[i]);
    FallsAsleep(ss[i], es[i], p);
    if k > i + 1 {
      AsleepUntil(ss, es, i, k - 1, p, l);
      assert ss[k] == Next(ss[k - 1], es[k - 1]);
      StaysAsleep(ss[k - 1], es[k - 1], p, l);
    }
  }

  /** A process that waits for a lock sleeps until a wakeup on that lock, or a kill: it does not run, and then it
      can. */
  lemma SleepsUntilWoken(ss: seq<State>, es: seq<Step>, i: nat, k: nat, p: nat, l: nat)
    requires Run(ss, es) && i < k < |es| && p < |ss[i].procs| && p < |ss[i + 1].procs|
    requires !ss[i].procs[p].pc.Asleep? && ss[i + 1].procs[p].pc == Asleep(l)
    requires forall m :: i < m < k ==> !Wakes(ss[m], es[m], p, l)
    ensures p < |ss[k].procs| && !Enabled(ss[k], Move(p)) && p < |ss[k + 1].procs|
    ensures Wakes(ss[k], es[k], p, l) ==> !ss[k + 1].procs[p].sleeping
  {
    AsleepUntil(ss, es, i, k, p, l);
    assert ss[k + 1] == Next(ss[k], es[k]);
  }

  // ---- a process on its own ----

  /** The state after n steps of process p, if it can take them. */
  ghost predicate Alone(s: State, p: nat, n: nat, s': State)
    decreases n
  {
    if n == 0 then s' == s
    else
      && Enabled(s, Move(p)) && Known(s, s.procs[p].pc)
      && Alone(Next(s, Move(p)), p, n - 1, s')
  }

  /** With the spinlocks free, a free lock is taken without waiting for anybody. */
  lemma AloneAcquires(s: State, p: nat, l: nat) returns (n: nat, s': State)
    requires Enabled(s, Acquire(p, l)) && Known(s, s.procs[p].pc)
    requires l < |s.locked| && !s.locked[l] && s.spin[l] == -1
    ensures Alone(Next(s, Acquire(p, l)), p, n, s') && p < |s'.procs| && s'.procs[p].pc == Running
    ensures s'.procs[p].held == s.procs[p].held + {l} && s'.locked == s.locked[l := true]
    ensures s'.owner == s.owner[l := p] && s'.spin == s.spin
  {
    var s1 := Next(s, Acquire(p, l));
    var s2 := Next(s1, Move(p));
    var s3 := Next(s2, Move(p));
    var s4 := Next(s3, Move(p));
    n, s' := 4, Next(s4, Move(p));
    assert Alone(s', p, 0, s');
    assert Alone(s4, p, 1, s');
    assert Alone(s3, p, 2, s');
    assert Alone(s2, p, 3, s');
  }

  /** With the spinlocks free, releasesleep frees the lock and wakes everybody who sleeps on it, and nobody else. */
  lemma AloneReleases(s: State, p: nat, l: nat) returns (n: nat, s': State)
    requires Inv(s) && Enabled(s, Release(p, l)) && l < |s.spin| && s.spin[l] == -1 && s.table == -1
    ensures Known(s, s.procs[p].pc) && Alone(Next(s, Release(p, l)), p, n, s') && |s'.procs| == |s.procs|
    ensures s'.procs[p].pc == Running && s'.procs[p].held == s.procs[p].held - {l}
    ensures s'.locked == s.locked[l := false] && s'.spin == s.spin && s'.table == -1
    ensures forall q :: 0 <= q < |s.procs| && q != p ==>
              s'.procs[q] == if s.procs[q].sleeping && s.procs[q].chan == l then s.procs[q].(sleeping := false)
                             else s.procs[q]
  {
    assert ProcOk(s, p);
    hide Inv, ProcOk;
    var s1 := Next(s, Release(p, l));
    var s2 := Next(s1, Move(p));
    var s3 := Next(s2, Move(p));
    var s4 := Next(s3, Move(p));
    var s5 := Next(s4, Move(p));
    var s6 := Next(s5, Move(p));
    n, s' := 6, Next(s6, Move(p));
    assert Alone(s', p, 0, s');
    assert Alone(s6, p, 1, s');
    assert Alone(s5, p, 2, s');
    assert Alone(s4, p, 3, s');
    assert Alone(s3, p, 4, s');
    assert Alone(s2, p, 5, s');
  }
}
