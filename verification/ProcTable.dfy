/** The process table of proc.c: allocproc, fork, exit, wait, sleep, wakeup, kill and the
    scheduler's state changes, for a table of any length.

    Each method is one critical section of ptable.lock, or one of the unlocked stages of
    fork, during which other processes may take any steps. `forking` is how far a
    process has come in fork; `pages` are the free pages kalloc hands out, of which a
    process owns a kernel stack and a page directory.
 */
module ProcTable {
  import opened Params

  /** wait() sleeps on the process's own table entry, everybody else on something else. */
  datatype Chan = Self | Other(c: nat)

  /** The stages of fork: a slot, then a stack, then a page directory and the parent link. */
  datatype Fork = No | Slot(np: nat) | Stack(np: nat) | Full(np: nat)

  datatype Proc = Proc(
    state: ProcState,
    pid: nat,
    parent: int,         // a slot, or -1
    chan: Chan,
    killed: bool,
    tickets: int,
    kstack: nat,         // a page, or 0
    pgdir: nat,          // a page; stale when `owns` is false
    owns: bool,          // pgdir is this process's own
    forking: Fork)
  {
    /** Past EMBRYO. */
    predicate Born() {
      state != UNUSED && state != EMBRYO
    }

    /** Can still run. */
    predicate Alive() {
      state == SLEEPING || state == RUNNABLE || state == RUNNING
    }
  }

  type Table = seq<Proc>

  // ---- wakeup1 ----

  function WokenProc(p: Proc, own: bool, chan: Chan): Proc {
    if p.state == SLEEPING && (if chan.Self? then own && p.chan.Self? else p.chan == chan)
    then p.(state := RUNNABLE)
    else p
  }

  function WokenUpTo(t: Table, q: int, chan: Chan, k: nat): (r: Table)
    requires k <= |t|
    ensures |r| == |t|
    ensures forall i :: 0 <= i < |t| ==> r[i] == if i < k then WokenProc(t[i], i == q, chan) else t[i]
  {
    if k == 0 then t else WokenUpTo(t, q, chan, k - 1)[k - 1 := WokenProc(t[k - 1], k - 1 == q, chan)]
  }

  /** wakeup1 on the table entry of process q, or on another channel. */
  function Woken(t: Table, q: int, chan: Chan): (r: Table)
    ensures |r| == |t| && forall i :: 0 <= i < |t| ==> r[i] == WokenProc(t[i], i == q, chan)
  {
    WokenUpTo(t, q, chan, |t|)
  }

  // ---- exit ----

  /** Some child of c among the first k entries is a zombie. */
  ghost predicate ZombieChild(t: Table, c: nat, k: nat)
    requires k <= |t|
  {
    exists i :: 0 <= i < k && t[i].parent == c && t[i].state == ZOMBIE
  }

  /** The table after exit's loop has looked at the first k entries. */
  function Adopted(t: Table, c: nat, init: nat, k: nat): (r: Table)
    requires k <= |t|
    ensures |r| == |t|
  {
    if k == 0 then t
    else
      var r := Adopted(t, c, init, k - 1);
      if r[k - 1].parent == c then
        var r' := r[k - 1 := r[k - 1].(parent := init)];
        if r'[k - 1].state == ZOMBIE then Woken(r', init, Self) else r'
      else r
  }

  lemma ZombieStep(t: Table, c: nat, k: nat)
    requires k <= |t|
    ensures k == 0 ==> !ZombieChild(t, c, k)
    ensures k > 0 ==>
              (ZombieChild(t, c, k) <==> ZombieChild(t, c, k - 1) || (t[k - 1].parent == c && t[k - 1].state == ZOMBIE))
  {
  }

  /** One turn of the loop, entry by entry. */
  lemma AdoptStep(r: Table, c: nat, init: nat, k: nat, i: nat)
    requires k < |r| && i < |r|
    ensures var adopt, p := r[k].parent == c, r[i].(parent := if i == k && r[k].parent == c then init else r[i].parent);
            var r' := r[k := r[k].(parent := init)];
            (if adopt then (if r'[k].state == ZOMBIE then Woken(r', init, Self) else r') else r)[i]
              == if adopt && r[k].state == ZOMBIE then WokenProc(p, i == init, Self) else p
  {
    hide Woken, WokenProc;
  }

  /** p is q, given to init if adopted, and woken if so. */
  predicate AdoptedFrom(p: Proc, q: Proc, init: nat, adopted: bool, woken: bool, own: bool) {
    && p.(state := q.state, parent := q.parent) == q
    && p.parent == (if adopted then init else q.parent)
    && p.state == (if woken then WokenProc(q, own, Self).state else q.state)
  }

  lemma NotAdopted(q: Proc, init: nat, own: bool)
    ensures AdoptedFrom(q, q, init, false, false, own)
  {
  }

  lemma Untouched(p: Proc, q: Proc, init: nat, woken: bool, own: bool)
    requires AdoptedFrom(p, q, init, false, woken, own)
    ensures p.parent == q.parent && (p.state == ZOMBIE <==> q.state == ZOMBIE)
  {
  }

  lemma AdoptTurn(p: Proc, q: Proc, init: nat, adopted: bool, woken: bool, own: bool, now: bool, wake: bool)
    requires AdoptedFrom(p, q, init, adopted, woken, own)
    ensures var e := p.(parent := if now then init else p.parent);
            AdoptedFrom(if wake then WokenProc(e, own, Self) else e, q, init, adopted || now, woken || wake, own)
  {
  }

  /** What the loop amounts to: the children go to init, and init is woken if one is a zombie. */
  lemma {:induction false} AdoptedAt(t: Table, c: nat, init: nat, k: nat, i: nat)
    requires k <= |t| && i < |t| && c != init
    ensures AdoptedFrom(Adopted(t, c, init, k)[i], t[i], init,
                        i < k && t[i].parent == c, ZombieChild(t, c, k), i == init)
  {
    hide Woken, WokenProc, ZombieChild, AdoptedFrom;
    ZombieStep(t, c, k);
    if k == 0 {
      NotAdopted(t[i], init, i == init);
    } else {
      AdoptedAt(t, c, init, k - 1, i);
      AdoptedAt(t, c, init, k - 1, k - 1);
      var r := Adopted(t, c, init, k - 1);
      Untouched(r[k - 1], t[k - 1], init, ZombieChild(t, c, k - 1), k - 1 == init);
      AdoptStep(r, c, init, k - 1, i);
      AdoptTurn(r[i], t[i], init, i < k - 1 && t[i].parent == c, ZombieChild(t, c, k - 1), i == init,
                i == k - 1 && r[i].parent == c, r[k - 1].parent == c && r[k - 1].state == ZOMBIE);
    }
  }

  function Exited(t: Table, c: nat, init: nat): (r: Table)
    requires c < |t|
    ensures |r| == |t|
  {
    var t1 := Woken(t, t[c].parent, Self);
    var t2 := Adopted(t1, c, init, |t|);
    t2[c := t2[c].(state := ZOMBIE)]
  }

  // ---- wait ----

  /** The first zombie child of c, or |t|. */
  function FirstZombie(t: Table, c: nat, k: nat): (z: nat)
    requires k <= |t|
    ensures k <= z <= |t|
    ensures z < |t| ==> t[z].parent == c && t[z].state == ZOMBIE
    ensures forall i :: k <= i < z ==> !(t[i].parent == c && t[i].state == ZOMBIE)
    decreases |t| - k
  {
    if k == |t| || (t[k].parent == c && t[k].state == ZOMBIE) then k else FirstZombie(t, c, k + 1)
  }

  predicate HasKids(t: Table, c: nat) {
    exists i :: 0 <= i < |t| && t[i].parent == c
  }

  /** A zombie's entry once wait has reaped it. */
  function Reaped(p: Proc): Proc {
    p.(kstack := 0, owns := false, pid := 0, parent := -1, killed := false, state := UNUSED)
  }

  // ---- finding an entry ----

  function FirstUnused(t: Table, k: nat): (i: nat)
    requires k <= |t|
    ensures k <= i <= |t| && (i < |t| ==> t[i].state == UNUSED)
    ensures forall j :: k <= j < i ==> t[j].state != UNUSED
    decreases |t| - k
  {
    if k == |t| || t[k].state == UNUSED then k else FirstUnused(t, k + 1)
  }

  function FirstPid(t: Table, pid: nat, k: nat): (i: nat)
    requires k <= |t|
    ensures k <= i <= |t| && (i < |t| ==> t[i].pid == pid)
    ensures forall j :: k <= j < i ==> t[j].pid != pid
    decreases |t| - k
  {
    if k == |t| || t[k].pid == pid then k else FirstPid(t, pid, k + 1)
  }

  // ---- the steps ----

  datatype World = World(t: Table, nextpid: nat, init: nat, pages: set<nat>)

  datatype Step =
    | Alloc(p: nat)                  // fork: allocproc under the lock
    | AllocStack(p: nat, page: nat)  // allocproc's kalloc; page 0 when it fails
    | CopyVm(p: nat, page: nat)      // copyuvm, then parent and tickets; page 0 when it fails
    | Publish(p: nat)                // the child becomes RUNNABLE
    | Schedule(p: nat)
    | Yield(p: nat)
    | Sleep(p: nat, c: nat)
    | Wakeup(c: nat)
    | Kill(pid: nat)
    | Exit(p: nat)
    | Wait(p: nat)
    | SetTickets(p: nat, n: int)

  predicate Runs(w: World, p: nat) {
    p < |w.t| && w.t[p].state == RUNNING
  }

  /** A process takes its own steps while it runs, and finishes a fork before anything else. */
  predicate Enabled(w: World, e: Step) {
    match e
    case Alloc(p) => Runs(w, p) && w.t[p].forking == No
    case AllocStack(p, page) => Runs(w, p) && w.t[p].forking.Slot? && (page == 0 || page in w.pages)
    case CopyVm(p, page) => Runs(w, p) && w.t[p].forking.Stack? && (page == 0 || page in w.pages)
    case Publish(p) => Runs(w, p) && w.t[p].forking.Full?
    case Schedule(p) => p < |w.t| && w.t[p].state == RUNNABLE
    case Yield(p) => Runs(w, p)
    case Sleep(p, _) => Runs(w, p)
    case Wakeup(_) => true
    case Kill(_) => true
    case Exit(p) => Runs(w, p) && w.t[p].forking == No && p != w.init
    case Wait(p) => Runs(w, p) && w.t[p].forking == No
    case SetTickets(p, n) => Runs(w, p) && w.t[p].forking == No && n >= 10
  }

  function Set(w: World, p: nat, x: Proc): World
    requires p < |w.t|
  {
    w.(t := w.t[p := x])
  }

  function AllocNext(w: World, p: nat): World
    requires p < |w.t|
  {
    var i := FirstUnused(w.t, 0);
    if i == |w.t| then w
    else
      var w1 := Set(w, i, w.t[i].(state := EMBRYO, pid := w.nextpid)).(nextpid := w.nextpid + 1);
      Set(w1, p, w1.t[p].(forking := Slot(i)))
  }

  function AllocStackNext(w: World, p: nat, page: nat): World
    requires p < |w.t| && w.t[p].forking.Slot? && w.t[p].forking.np < |w.t|
  {
    var i := w.t[p].forking.np;
    var w1 := Set(w, i, if page == 0 then w.t[i].(kstack := 0, state := UNUSED) else w.t[i].(kstack := page));
    Set(w1, p, w1.t[p].(forking := if page == 0 then No else Stack(i))).(pages := w.pages - {page})
  }

  function CopyVmNext(w: World, p: nat, page: nat): World
    requires p < |w.t| && w.t[p].forking.Stack? && w.t[p].forking.np < |w.t|
  {
    var i := w.t[p].forking.np;
    var x := w.t[i];
    if page == 0 then
      var w1 := Set(w, i, x.(pgdir := 0, kstack := 0, state := UNUSED)).(pages := w.pages + {x.kstack});
      Set(w1, p, w1.t[p].(forking := No))
    else
      var tickets := if 10 < w.t[p].tickets then w.t[p].tickets else 10;
      var w1 := Set(w, i, x.(pgdir := page, owns := true, parent := p, tickets := tickets)).(pages := w.pages - {page});
      Set(w1, p, w1.t[p].(forking := Full(i)))
  }

  function PublishNext(w: World, p: nat): World
    requires p < |w.t| && w.t[p].forking.Full? && w.t[p].forking.np < |w.t|
  {
    var i := w.t[p].forking.np;
    var w1 := Set(w, i, w.t[i].(state := RUNNABLE));
    Set(w1, p, w1.t[p].(forking := No))
  }

  function WaitNext(w: World, p: nat): World
    requires p < |w.t|
  {
    var z := FirstZombie(w.t, p, 0);
    if z < |w.t| then Set(w, z, Reaped(w.t[z])).(pages := w.pages + {w.t[z].kstack, w.t[z].pgdir})
    else if !HasKids(w.t, p) || w.t[p].killed then w
    else Set(w, p, w.t[p].(state := SLEEPING, chan := Self))
  }

  function KillNext(w: World, pid: nat): World {
    var i := FirstPid(w.t, pid, 0);
    if i == |w.t| then w
    else Set(w, i, w.t[i].(killed := true, state := if w.t[i].state == SLEEPING then RUNNABLE else w.t[i].state))
  }

  function TicketsNext(w: World, p: nat, n: int): World
    requires p < |w.t|
  {
    var i := FirstPid(w.t, w.t[p].pid, 0);
    if i == |w.t| then w else Set(w, i, w.t[i].(tickets := n))
  }

  ghost predicate Ready(w: World) {
    forall p :: 0 <= p < |w.t| && w.t[p].forking != No ==> w.t[p].forking.np < |w.t|
  }

  ghost function Next(w: World, e: Step): World
    requires Enabled(w, e) && Ready(w)
  {
    match e
    case Alloc(p) => AllocNext(w, p)
    case AllocStack(p, page) => AllocStackNext(w, p, page)
    case CopyVm(p, page) => CopyVmNext(w, p, page)
    case Publish(p) => PublishNext(w, p)
    case Schedule(p) => Set(w, p, w.t[p].(state := RUNNING))
    case Yield(p) => Set(w, p, w.t[p].(state := RUNNABLE))
    case Sleep(p, c) => Set(w, p, w.t[p].(state := SLEEPING, chan := Other(c)))
    case Wakeup(c) => w.(t := Woken(w.t, -1, Other(c)))
    case Kill(pid) => KillNext(w, pid)
    case Exit(p) => w.(t := Exited(w.t, p, w.init))
    case Wait(p) => WaitNext(w, p)
    case SetTickets(p, n) => TicketsNext(w, p, n)
  }

  // ---- the invariant ----

  /** What is true of one entry by itself. */
  predicate EntryOk(p: Proc, nextpid: nat) {
    && p.pid < nextpid
    && (p.Born() ==> p.pid != 0 && p.kstack != 0 && p.owns && p.tickets >= 10)
    && (p.state == UNUSED ==> p.kstack == 0 && !p.owns && p.parent == -1)
    && (p.forking != No ==> p.Alive())
  }

  /** How an entry relates to its parent. */
  predicate FamilyOk(t: Table, i: nat, init: nat)
    requires i < |t|
  {
    && -1 <= t[i].parent < |t| && t[i].parent != i
    && (t[i].Born() && i != init ==> t[i].parent >= 0)
    && (t[i].parent >= 0 ==> t[t[i].parent].Alive())
    && (t[i].state == EMBRYO && t[i].parent >= 0 ==> t[t[i].parent].forking == Full(i))
  }

  /** How a process in fork relates to the entry it is making. */
  predicate ForkOk(t: Table, c: nat)
    requires c < |t|
  {
    match t[c].forking
    case No => true
    case Slot(i) =>
      && i < |t| && t[i].state == EMBRYO && t[i].kstack == 0 && !t[i].owns && t[i].parent == -1
      && t[i].pid != 0
    case Stack(i) =>
      && i < |t| && t[i].state == EMBRYO && t[i].kstack != 0 && !t[i].owns && t[i].parent == -1
      && t[i].pid != 0
    case Full(i) =>
      && i < |t| && t[i].state == EMBRYO && t[i].kstack != 0 && t[i].owns && t[i].parent == c
      && t[i].tickets >= 10 && t[i].pid != 0
  }

  /** Nobody sleeps in wait while a child of its is a zombie. */
  predicate WaitOk(t: Table, i: nat, j: nat)
    requires i < |t| && j < |t|
  {
    t[i].state == SLEEPING && t[i].chan == Self && t[j].parent == i ==> t[j].state != ZOMBIE
  }

  ghost predicate PidsOk(t: Table) {
    forall i, j :: 0 <= i < j < |t| && t[i].pid == t[j].pid ==> t[i].pid == 0
  }

  ghost predicate ForksApart(t: Table) {
    forall c, d :: 0 <= c < d < |t| && t[c].forking != No && t[d].forking != No ==> t[c].forking.np != t[d].forking.np
  }

  /** Pages are free or owned, and owned once. */
  ghost predicate PagesOk(t: Table, pages: set<nat>) {
    && 0 !in pages
    && (forall i :: 0 <= i < |t| ==> t[i].kstack !in pages && (t[i].owns ==> t[i].pgdir != 0 && t[i].pgdir !in pages))
    && (forall i, j :: 0 <= i < j < |t| && t[i].kstack == t[j].kstack ==> t[i].kstack == 0)
    && (forall i, j :: 0 <= i < j < |t| && t[i].owns && t[j].owns ==> t[i].pgdir != t[j].pgdir)
    && (forall i, j :: 0 <= i < |t| && 0 <= j < |t| && t[j].owns ==> t[i].kstack != t[j].pgdir)
  }

  ghost predicate Inv(w: World) {
    && w.init < |w.t| && w.t[w.init].Alive() && w.t[w.init].parent == -1 && w.nextpid > 0
    && (forall i :: 0 <= i < |w.t| ==> EntryOk(w.t[i], w.nextpid))
    && (forall i :: 0 <= i < |w.t| ==> FamilyOk(w.t, i, w.init))
    && (forall i :: 0 <= i < |w.t| ==> ForkOk(w.t, i))
    && (forall i, j :: 0 <= i < |w.t| && 0 <= j < |w.t| ==> WaitOk(w.t, i, j))
    && PidsOk(w.t) && ForksApart(w.t) && PagesOk(w.t, w.pages)
  }

  lemma InvReady(w: World)
    requires Inv(w)
    ensures Ready(w)
  {
    forall p | 0 <= p < |w.t| && w.t[p].forking != No
      ensures w.t[p].forking.np < |w.t|
    {
      assert ForkOk(w.t, p);
    }
  }

  /** A change that leaves family, fork and memory alone, and the living alive. */
  predicate Quiet(x: Proc, y: Proc) {
    && y == x.(state := y.state, chan := y.chan, killed := y.killed, tickets := y.tickets)
    && (if x.Alive() then y.Alive() else y.state == x.state)
    && (x.tickets >= 10 ==> y.tickets >= 10)
  }

  ghost predicate AllQuiet(t: Table, t': Table) {
    |t'| == |t| && forall i :: 0 <= i < |t| ==> Quiet(t[i], t'[i])
  }

  ghost predicate WaitsOk(t: Table) {
    forall i, j :: 0 <= i < |t| && 0 <= j < |t| ==> WaitOk(t, i, j)
  }

  lemma QuietEntry(w: World, t': Table, i: nat)
    requires Inv(w) && AllQuiet(w.t, t') && i < |t'|
    ensures EntryOk(t'[i], w.nextpid) && FamilyOk(t', i, w.init) && ForkOk(t', i)
  {
    hide PidsOk, PagesOk, ForksApart, WaitOk;
    assert Quiet(w.t[i], t'[i]) && EntryOk(w.t[i], w.nextpid) && FamilyOk(w.t, i, w.init) && ForkOk(w.t, i);
    if w.t[i].parent >= 0 {
      assert Quiet(w.t[w.t[i].parent], t'[w.t[i].parent]);
    }
    if w.t[i].forking != No {
      assert Quiet(w.t[w.t[i].forking.np], t'[w.t[i].forking.np]);
    }
  }

  lemma QuietTable(t: Table, t': Table, pages: set<nat>)
    requires AllQuiet(t, t') && PidsOk(t) && ForksApart(t) && PagesOk(t, pages)
    ensures PidsOk(t') && ForksApart(t') && PagesOk(t', pages)
  {
    assert forall i :: 0 <= i < |t| ==> Quiet(t[i], t'[i]) && t'[i].pid == t[i].pid && t'[i].forking == t[i].forking
                                        && t'[i].kstack == t[i].kstack && t'[i].owns == t[i].owns
                                        && t'[i].pgdir == t[i].pgdir;
  }

  /** Quiet changes keep the invariant, provided waiting stays in order. */
  lemma InvQuiet(w: World, t': Table)
    requires Inv(w) && AllQuiet(w.t, t') && WaitsOk(t')
    ensures Inv(w.(t := t'))
  {
    hide PidsOk, PagesOk, ForksApart, WaitOk, FamilyOk, ForkOk, EntryOk;
    QuietTable(w.t, t', w.pages);
    assert Quiet(w.t[w.init], t'[w.init]);
    forall i | 0 <= i < |t'|
      ensures EntryOk(t'[i], w.nextpid) && FamilyOk(t', i, w.init) && ForkOk(t', i)
    {
      QuietEntry(w, t', i);
    }
  }

  /** Waiting stays in order when no process newly sleeps in wait and no child newly dies. */
  lemma WaitsQuiet(w: World, t': Table)
    requires Inv(w) && AllQuiet(w.t, t')
    requires forall i :: 0 <= i < |t'| && t'[i].state == SLEEPING && t'[i].chan == Self ==>
              w.t[i].state == SLEEPING && w.t[i].chan == Self
    ensures WaitsOk(t')
  {
    forall i, j | 0 <= i < |t'| && 0 <= j < |t'|
      ensures WaitOk(t', i, j)
    {
      assert WaitOk(w.t, i, j) && Quiet(w.t[j], t'[j]);
    }
  }

  lemma QuietStep(w: World, e: Step)
    requires Enabled(w, e) && Ready(w)
    requires e.Schedule? || e.Yield? || e.Sleep? || e.Wakeup? || e.Kill? || e.SetTickets?
    ensures var w' := Next(w, e);
            && w' == w.(t := w'.t) && AllQuiet(w.t, w'.t)
            && forall i :: 0 <= i < |w.t| && w'.t[i].state == SLEEPING && w'.t[i].chan == Self ==>
                 w.t[i].state == SLEEPING && w.t[i].chan == Self
  {
  }

  lemma InvSimple(w: World, e: Step)
    requires Inv(w) && Enabled(w, e)
    requires e.Schedule? || e.Yield? || e.Sleep? || e.Wakeup? || e.Kill? || e.SetTickets?
    ensures Ready(w) && Inv(Next(w, e))
  {
    hide Inv;
    InvReady(w);
    var t' := Next(w, e).t;
    QuietStep(w, e);
    WaitsQuiet(w, t');
    InvQuiet(w, t');
  }

  lemma ReapTable(t: Table, z: nat, pages: set<nat>)
    requires PidsOk(t) && ForksApart(t) && PagesOk(t, pages)
    requires z < |t| && t[z].kstack != 0 && t[z].owns
    ensures var t' := t[z := Reaped(t[z])];
            PidsOk(t') && ForksApart(t') && PagesOk(t', pages + {t[z].kstack, t[z].pgdir})
  {
  }

  lemma InvReap(w: World, z: nat)
    requires Inv(w) && z < |w.t| && w.t[z].state == ZOMBIE
    ensures Inv(Set(w, z, Reaped(w.t[z])).(pages := w.pages + {w.t[z].kstack, w.t[z].pgdir}))
  {
    hide PagesOk, PidsOk, ForksApart;
    var t' := w.t[z := Reaped(w.t[z])];
    assert EntryOk(w.t[z], w.nextpid);
    forall i | 0 <= i < |t'|
      ensures EntryOk(t'[i], w.nextpid) && FamilyOk(t', i, w.init) && ForkOk(t', i)
    {
      assert EntryOk(w.t[i], w.nextpid) && FamilyOk(w.t, i, w.init) && ForkOk(w.t, i);
    }
    forall i, j | 0 <= i < |t'| && 0 <= j < |t'|
      ensures WaitOk(t', i, j)
    {
      assert WaitOk(w.t, i, j);
    }
    ReapTable(w.t, z, w.pages);
  }

  /** One call of wait: reap, fail, or sleep because no child is a zombie. */
  lemma InvWait(w: World, p: nat)
    requires Inv(w) && Enabled(w, Wait(p))
    ensures Inv(WaitNext(w, p))
  {
    var z := FirstZombie(w.t, p, 0);
    if z < |w.t| {
      InvReap(w, z);
    } else if HasKids(w.t, p) && !w.t[p].killed {
      var t' := WaitNext(w, p).t;
      forall i, j | 0 <= i < |t'| && 0 <= j < |t'|
        ensures WaitOk(t', i, j)
      {
        assert WaitOk(w.t, i, j);
      }
      InvQuiet(w, t');
    }
  }

  // ---- fork ----

  lemma AllocEntry(w: World, p: nat, j: nat)
    requires Inv(w) && Enabled(w, Alloc(p)) && FirstUnused(w.t, 0) < |w.t| && j < |w.t|
    ensures var w' := AllocNext(w, p);
            EntryOk(w'.t[j], w'.nextpid) && FamilyOk(w'.t, j, w.init) && ForkOk(w'.t, j)
  {
    hide PagesOk, PidsOk, WaitOk, FirstUnused;
    var i := FirstUnused(w.t, 0);
    assert EntryOk(w.t[i], w.nextpid);
    assert EntryOk(w.t[j], w.nextpid) && FamilyOk(w.t, j, w.init) && ForkOk(w.t, j);
  }

  /** Pids are smaller than the next one, and nobody in fork is making an unused entry. */
  lemma NotYetUsed(w: World, i: nat, j: nat)
    requires Inv(w) && i < |w.t| && j < |w.t| && w.t[i].state == UNUSED
    ensures w.t[j].pid < w.nextpid && (w.t[j].forking != No ==> w.t[j].forking.np != i)
  {
    hide PagesOk, FamilyOk, WaitOk, PidsOk, ForksApart;
    assert EntryOk(w.t[j], w.nextpid) && ForkOk(w.t, j);
  }

  lemma AllocPids(w: World, p: nat)
    requires Inv(w) && Enabled(w, Alloc(p)) && FirstUnused(w.t, 0) < |w.t|
    ensures PidsOk(AllocNext(w, p).t) && ForksApart(AllocNext(w, p).t)
  {
    hide PagesOk, FamilyOk, WaitOk, FirstUnused, EntryOk, ForkOk;
    var i, t' := FirstUnused(w.t, 0), AllocNext(w, p).t;
    forall j | 0 <= j < |w.t|
      ensures w.t[j].pid < w.nextpid && (w.t[j].forking != No ==> w.t[j].forking.np != i)
    {
      NotYetUsed(w, i, j);
    }
    assert forall j :: 0 <= j < |w.t| ==> t'[j].pid == if j == i then w.nextpid else w.t[j].pid;
    assert forall j :: 0 <= j < |w.t| ==> t'[j].forking == if j == p then Slot(i) else w.t[j].forking;
    hide AllocNext;
  }

  lemma AllocPages(w: World, p: nat)
    requires Inv(w) && Enabled(w, Alloc(p)) && FirstUnused(w.t, 0) < |w.t|
    ensures PagesOk(AllocNext(w, p).t, AllocNext(w, p).pages)
  {
    hide FamilyOk, WaitOk, EntryOk, PidsOk, ForksApart, ForkOk, FirstUnused;
    var t' := AllocNext(w, p).t;
    assert forall j :: 0 <= j < |w.t| ==>
             t'[j].kstack == w.t[j].kstack && t'[j].owns == w.t[j].owns && t'[j].pgdir == w.t[j].pgdir;
  }

  /** Steps of fork do not disturb waiting: they touch the embryo and its maker only. */
  lemma WaitsForked(w: World, w': World, p: nat, i: nat)
    requires WaitsOk(w.t) && |w'.t| == |w.t| && p < |w.t| && i < |w.t| && p != i
    requires forall j :: 0 <= j < |w.t| && j != i ==> w'.t[j] == w.t[j].(forking := w'.t[j].forking)
    requires w'.t[i].state != ZOMBIE && w'.t[i].state != SLEEPING
    ensures WaitsOk(w'.t)
  {
    forall a, b | 0 <= a < |w.t| && 0 <= b < |w.t|
      ensures WaitOk(w'.t, a, b)
    {
      assert WaitOk(w.t, a, b);
    }
  }

  lemma InvAlloc(w: World, p: nat)
    requires Inv(w) && Enabled(w, Alloc(p)) && FirstUnused(w.t, 0) < |w.t|
    ensures Inv(AllocNext(w, p))
  {
    hide PagesOk, PidsOk, ForksApart, EntryOk, FamilyOk, WaitOk;
    var i := FirstUnused(w.t, 0);
    assert EntryOk(w.t[i], w.nextpid);
    var w' := AllocNext(w, p);
    forall j | 0 <= j < |w.t|
      ensures EntryOk(w'.t[j], w'.nextpid) && FamilyOk(w'.t, j, w.init) && ForkOk(w'.t, j)
    {
      AllocEntry(w, p, j);
    }
    WaitsForked(w, w', p, i);
    AllocPids(w, p);
    AllocPages(w, p);
  }

  lemma AllocStackEntry(w: World, p: nat, page: nat, j: nat)
    requires Inv(w) && Enabled(w, AllocStack(p, page)) && w.t[p].forking.np < |w.t| && j < |w.t|
    ensures var w' := AllocStackNext(w, p, page);
            EntryOk(w'.t[j], w'.nextpid) && FamilyOk(w'.t, j, w.init) && ForkOk(w'.t, j)
  {
    hide PagesOk, PidsOk, WaitOk;
    var i := w.t[p].forking.np;
    assert ForkOk(w.t, p);
    assert EntryOk(w.t[j], w.nextpid) && FamilyOk(w.t, j, w.init) && ForkOk(w.t, j);
  }

  lemma AllocStackPids(w: World, p: nat, page: nat)
    requires Inv(w) && Enabled(w, AllocStack(p, page)) && w.t[p].forking.np < |w.t|
    ensures PidsOk(AllocStackNext(w, p, page).t) && ForksApart(AllocStackNext(w, p, page).t)
  {
    hide PagesOk, FamilyOk, WaitOk;
    var i := w.t[p].forking.np;
    assert ForkOk(w.t, p);
    assert forall j :: 0 <= j < |w.t| ==> EntryOk(w.t[j], w.nextpid) && ForkOk(w.t, j);
  }

  lemma AllocStackPages(w: World, p: nat, page: nat)
    requires Inv(w) && Enabled(w, AllocStack(p, page)) && w.t[p].forking.np < |w.t|
    ensures PagesOk(AllocStackNext(w, p, page).t, AllocStackNext(w, p, page).pages)
  {
    hide FamilyOk, WaitOk, EntryOk, PidsOk, ForksApart;
    var i := w.t[p].forking.np;
    assert ForkOk(w.t, p);
  }

  lemma InvAllocStack(w: World, p: nat, page: nat)
    requires Inv(w) && Enabled(w, AllocStack(p, page)) && w.t[p].forking.np < |w.t|
    ensures Inv(AllocStackNext(w, p, page))
  {
    hide PagesOk, PidsOk, ForksApart, EntryOk, FamilyOk, WaitOk;
    var i := w.t[p].forking.np;
    assert ForkOk(w.t, p);
    var w' := AllocStackNext(w, p, page);
    forall j | 0 <= j < |w.t|
      ensures EntryOk(w'.t[j], w'.nextpid) && FamilyOk(w'.t, j, w.init) && ForkOk(w'.t, j)
    {
      AllocStackEntry(w, p, page, j);
    }
    WaitsForked(w, w', p, i);
    AllocStackPids(w, p, page);
    AllocStackPages(w, p, page);
  }

  lemma CopyVmFails(w: World, p: nat, j: nat)
    requires Inv(w) && Enabled(w, CopyVm(p, 0)) && w.t[p].forking.np < |w.t| && j < |w.t|
    ensures var w' := CopyVmNext(w, p, 0);
            EntryOk(w'.t[j], w'.nextpid) && FamilyOk(w'.t, j, w.init) && ForkOk(w'.t, j)
  {
    hide PagesOk, PidsOk, WaitOk;
    assert ForkOk(w.t, p) && EntryOk(w.t[p], w.nextpid) && FamilyOk(w.t, p, w.init);
    assert EntryOk(w.t[j], w.nextpid) && FamilyOk(w.t, j, w.init) && ForkOk(w.t, j);
  }

  lemma CopyVmWorks(w: World, p: nat, page: nat, j: nat)
    requires Inv(w) && Enabled(w, CopyVm(p, page)) && page != 0 && w.t[p].forking.np < |w.t| && j < |w.t|
    ensures var w' := CopyVmNext(w, p, page);
            EntryOk(w'.t[j], w'.nextpid) && FamilyOk(w'.t, j, w.init) && ForkOk(w'.t, j)
  {
    hide PagesOk, PidsOk, WaitOk;
    assert ForkOk(w.t, p) && EntryOk(w.t[p], w.nextpid) && FamilyOk(w.t, p, w.init);
    assert EntryOk(w.t[j], w.nextpid) && FamilyOk(w.t, j, w.init) && ForkOk(w.t, j);
  }

  lemma CopyVmEntry(w: World, p: nat, page: nat, j: nat)
    requires Inv(w) && Enabled(w, CopyVm(p, page)) && w.t[p].forking.np < |w.t| && j < |w.t|
    ensures var w' := CopyVmNext(w, p, page);
            EntryOk(w'.t[j], w'.nextpid) && FamilyOk(w'.t, j, w.init) && ForkOk(w'.t, j)
  {
    hide PagesOk, PidsOk, WaitOk, EntryOk, FamilyOk, ForkOk;
    if page == 0 {
      CopyVmFails(w, p, j);
    } else {
      CopyVmWorks(w, p, page, j);
    }
  }

  lemma CopyVmPids(w: World, p: nat, page: nat)
    requires Inv(w) && Enabled(w, CopyVm(p, page)) && w.t[p].forking.np < |w.t|
    ensures PidsOk(CopyVmNext(w, p, page).t) && ForksApart(CopyVmNext(w, p, page).t)
  {
    hide PagesOk, FamilyOk, WaitOk;
    var i := w.t[p].forking.np;
    assert ForkOk(w.t, p);
    assert forall j :: 0 <= j < |w.t| ==> EntryOk(w.t[j], w.nextpid) && ForkOk(w.t, j);
  }

  lemma CopyVmPages(w: World, p: nat, page: nat)
    requires Inv(w) && Enabled(w, CopyVm(p, page)) && w.t[p].forking.np < |w.t|
    ensures PagesOk(CopyVmNext(w, p, page).t, CopyVmNext(w, p, page).pages)
  {
    hide FamilyOk, WaitOk, EntryOk, PidsOk, ForksApart;
    var i := w.t[p].forking.np;
    assert ForkOk(w.t, p);
  }

  lemma InvCopyVm(w: World, p: nat, page: nat)
    requires Inv(w) && Enabled(w, CopyVm(p, page)) && w.t[p].forking.np < |w.t|
    ensures Inv(CopyVmNext(w, p, page))
  {
    hide PagesOk, PidsOk, ForksApart, EntryOk, FamilyOk, WaitOk;
    var i := w.t[p].forking.np;
    assert ForkOk(w.t, p);
    var w' := CopyVmNext(w, p, page);
    forall j | 0 <= j < |w.t|
      ensures EntryOk(w'.t[j], w'.nextpid) && FamilyOk(w'.t, j, w.init) && ForkOk(w'.t, j)
    {
      CopyVmEntry(w, p, page, j);
    }
    WaitsForked(w, w', p, i);
    CopyVmPids(w, p, page);
    CopyVmPages(w, p, page);
  }

  lemma PublishEntry(w: World, p: nat, j: nat)
    requires Inv(w) && Enabled(w, Publish(p)) && w.t[p].forking.np < |w.t| && j < |w.t|
    ensures var w' := PublishNext(w, p);
            EntryOk(w'.t[j], w'.nextpid) && FamilyOk(w'.t, j, w.init) && ForkOk(w'.t, j)
  {
    hide PagesOk, PidsOk, WaitOk;
    var i := w.t[p].forking.np;
    assert ForkOk(w.t, p);
    assert EntryOk(w.t[j], w.nextpid) && FamilyOk(w.t, j, w.init) && ForkOk(w.t, j);
  }

  lemma PublishPids(w: World, p: nat)
    requires Inv(w) && Enabled(w, Publish(p)) && w.t[p].forking.np < |w.t|
    ensures PidsOk(PublishNext(w, p).t) && ForksApart(PublishNext(w, p).t)
  {
    hide PagesOk, FamilyOk, WaitOk;
    var i := w.t[p].forking.np;
    assert ForkOk(w.t, p);
    assert forall j :: 0 <= j < |w.t| ==> EntryOk(w.t[j], w.nextpid) && ForkOk(w.t, j);
  }

  lemma PublishPages(w: World, p: nat)
    requires Inv(w) && Enabled(w, Publish(p)) && w.t[p].forking.np < |w.t|
    ensures PagesOk(PublishNext(w, p).t, PublishNext(w, p).pages)
  {
    hide FamilyOk, WaitOk, EntryOk, PidsOk, ForksApart;
    var i := w.t[p].forking.np;
    assert ForkOk(w.t, p);
  }

  lemma InvPublish(w: World, p: nat)
    requires Inv(w) && Enabled(w, Publish(p)) && w.t[p].forking.np < |w.t|
    ensures Inv(PublishNext(w, p))
  {
    hide PagesOk, PidsOk, ForksApart, EntryOk, FamilyOk, WaitOk;
    var i := w.t[p].forking.np;
    assert ForkOk(w.t, p);
    var w' := PublishNext(w, p);
    forall j | 0 <= j < |w.t|
      ensures EntryOk(w'.t[j], w'.nextpid) && FamilyOk(w'.t, j, w.init) && ForkOk(w'.t, j)
    {
      PublishEntry(w, p, j);
    }
    WaitsForked(w, w', p, i);
    PublishPids(w, p);
    PublishPages(w, p);
  }

  // ---- exit ----

  /** What exit does to each entry. */
  lemma ExitedAt(t: Table, c: nat, init: nat, i: nat)
    requires c < |t| && i < |t| && c != init && t[c].state != ZOMBIE
    ensures var x, q := Exited(t, c, init)[i], t[c].parent;
            && x == t[i].(state := x.state, parent := x.parent)
            && x.parent == (if t[i].parent == c then init else t[i].parent)
            && x.state == (if i == c then ZOMBIE
                           else if i == q || (i == init && ZombieChild(t, c, |t|))
                             then WokenProc(t[i], true, Self).state
                           else t[i].state)
  {
    hide Adopted, Woken;
    var t1 := Woken(t, t[c].parent, Self);
    AdoptedAt(t1, c, init, |t|, i);
    assert ZombieChild(t1, c, |t|) <==> ZombieChild(t, c, |t|) by {
      assert forall j :: 0 <= j < |t| ==>
               t1[j].parent == t[j].parent && (t1[j].state == ZOMBIE <==> t[j].state == ZOMBIE);
    }
  }

  lemma ExitEntry(w: World, c: nat, i: nat)
    requires Inv(w) && Enabled(w, Exit(c)) && i < |w.t|
    ensures var t' := Exited(w.t, c, w.init);
            EntryOk(t'[i], w.nextpid) && FamilyOk(t', i, w.init) && ForkOk(t', i)
  {
    hide PagesOk, PidsOk, ForksApart, Exited, WaitOk;
    ExitedAt(w.t, c, w.init, i);
    ExitedAt(w.t, c, w.init, w.init);
    assert EntryOk(w.t[i], w.nextpid) && FamilyOk(w.t, i, w.init) && ForkOk(w.t, i);
    if w.t[i].parent >= 0 {
      ExitedAt(w.t, c, w.init, w.t[i].parent);
    }
    if w.t[i].forking != No {
      var np := w.t[i].forking.np;
      ExitedAt(w.t, c, w.init, np);
      assert FamilyOk(w.t, np, w.init);
    }
  }

  lemma ExitWait(w: World, c: nat, i: nat, j: nat)
    requires Inv(w) && Enabled(w, Exit(c)) && i < |w.t| && j < |w.t|
    ensures WaitOk(Exited(w.t, c, w.init), i, j)
  {
    hide PagesOk, PidsOk, ForksApart, Exited, ForkOk, EntryOk;
    ExitedAt(w.t, c, w.init, i);
    ExitedAt(w.t, c, w.init, j);
    assert WaitOk(w.t, i, j) && FamilyOk(w.t, c, w.init);
  }

  lemma ExitTable(w: World, c: nat)
    requires Inv(w) && Enabled(w, Exit(c))
    ensures var t' := Exited(w.t, c, w.init);
            PidsOk(t') && ForksApart(t') && PagesOk(t', w.pages)
  {
    hide Exited, EntryOk, FamilyOk, WaitOk, ForkOk;
    var t' := Exited(w.t, c, w.init);
    forall i | 0 <= i < |w.t|
      ensures t'[i].pid == w.t[i].pid && t'[i].forking == w.t[i].forking
      ensures t'[i].kstack == w.t[i].kstack && t'[i].owns == w.t[i].owns && t'[i].pgdir == w.t[i].pgdir
    {
      ExitedAt(w.t, c, w.init, i);
    }
  }

  lemma InvExit(w: World, c: nat)
    requires Inv(w) && Enabled(w, Exit(c))
    ensures Inv(w.(t := Exited(w.t, c, w.init)))
  {
    hide PagesOk, PidsOk, ForksApart, Exited, WaitOk;
    var t' := Exited(w.t, c, w.init);
    forall i | 0 <= i < |w.t|
      ensures EntryOk(t'[i], w.nextpid) && FamilyOk(t', i, w.init) && ForkOk(t', i)
    {
      ExitEntry(w, c, i);
    }
    ExitedAt(w.t, c, w.init, w.init);
    forall i, j | 0 <= i < |w.t| && 0 <= j < |w.t|
      ensures WaitOk(t', i, j)
    {
      ExitWait(w, c, i, j);
    }
    ExitTable(w, c);
  }

  // ---- over every run ----

  /** Every step of every process keeps the invariant. */
  lemma InvStep(w: World, e: Step)
    requires Inv(w) && Enabled(w, e)
    ensures Ready(w) && Inv(Next(w, e))
  {
    hide Inv;
    InvReady(w);
    match e
    case Alloc(p) =>
      if FirstUnused(w.t, 0) < |w.t| {
        InvAlloc(w, p);
      }
    case AllocStack(p, page) => InvAllocStack(w, p, page);
    case CopyVm(p, page) => InvCopyVm(w, p, page);
    case Publish(p) => InvPublish(w, p);
    case Exit(p) => InvExit(w, p);
    case Wait(p) => InvWait(w, p);
    case _ => InvSimple(w, e);
  }

  ghost predicate Init(w: World) {
    && w.init < |w.t| && w.nextpid == 2
    && (forall i :: 0 <= i < |w.t| && i != w.init ==>
         && w.t[i].state == UNUSED && w.t[i].pid == 0 && w.t[i].kstack == 0 && !w.t[i].owns && w.t[i].parent == -1
         && w.t[i].forking == No)
    && var x := w.t[w.init];
       && x.state == RUNNABLE && x.pid == 1 && x.parent == -1 && x.tickets == 10 && x.forking == No
       && x.kstack != 0 && x.owns && x.pgdir != 0 && x.kstack != x.pgdir
       && x.kstack !in w.pages && x.pgdir !in w.pages && 0 !in w.pages
  }

  lemma InvInit(w: World)
    requires Init(w)
    ensures Inv(w)
  {
  }

  ghost predicate Run(ws: seq<World>, es: seq<Step>) {
    && |ws| == |es| + 1 && Init(ws[0])
    && forall i :: 0 <= i < |es| ==> Enabled(ws[i], es[i]) && Ready(ws[i]) && ws[i + 1] == Next(ws[i], es[i])
  }

  lemma {:induction false} InvHolds(ws: seq<World>, es: seq<Step>, i: nat)
    requires Run(ws, es) && i < |ws|
    ensures Inv(ws[i])
  {
    hide Inv, Next, Enabled, Ready, Init;
    if i == 0 {
      InvInit(ws[0]);
    } else {
      InvHolds(ws, es, i - 1);
      InvStep(ws[i - 1], es[i - 1]);
    }
  }

  /** The process life cycle, in every reachable state: each process past EMBRYO other than init has
      a parent that can still run, two entries never share a nonzero pid, nobody sleeps in wait
      while it has a zombie child, and whoever can be scheduled holds ten tickets or more. */
  lemma LifeCycle(ws: seq<World>, es: seq<Step>, i: nat, p: nat, q: nat)
    requires Run(ws, es) && i < |ws| && p < |ws[i].t| && q < |ws[i].t|
    ensures var t := ws[i].t;
            && (t[p].Born() && p != ws[i].init ==> 0 <= t[p].parent < |t| && t[t[p].parent].Alive())
            && (p != q && t[p].pid == t[q].pid ==> t[p].pid == 0)
            && (t[p].state == SLEEPING && t[p].chan == Self && t[q].parent == p ==> t[q].state != ZOMBIE)
            && (t[p].state == RUNNABLE ==> t[p].tickets >= 10)
  {
    hide Run, ForksApart, PagesOk, ForkOk;
    InvHolds(ws, es, i);
    var t := ws[i].t;
    assert FamilyOk(t, p, ws[i].init) && EntryOk(t[p], ws[i].nextpid) && WaitOk(t, p, q);
    if p < q {
      assert t[p].pid == t[q].pid ==> t[p].pid == 0;
    } else if q < p {
      assert t[q].pid == t[p].pid ==> t[q].pid == 0;
    }
  }

  lemma ZombieExit(w: World, p: nat, z: nat)
    requires Enabled(w, Exit(p)) && z < |w.t| && w.t[z].state == ZOMBIE
    ensures Exited(w.t, p, w.init)[z].state == ZOMBIE
  {
    hide Exited;
    ExitedAt(w.t, p, w.init, z);
  }

  lemma ZombieFork(w: World, e: Step, z: nat)
    requires Inv(w) && Enabled(w, e) && Ready(w) && z < |w.t| && w.t[z].state == ZOMBIE
    requires e.Alloc? || e.AllocStack? || e.CopyVm? || e.Publish?
    ensures |Next(w, e).t| == |w.t| && Next(w, e).t[z].state == ZOMBIE
  {
    hide ForksApart, PidsOk, PagesOk, FamilyOk, WaitOk, EntryOk;
    assert ForkOk(w.t, e.p);
  }

  lemma ZombieWait(w: World, p: nat, z: nat)
    requires Inv(w) && Enabled(w, Wait(p)) && z < |w.t| && w.t[z].state == ZOMBIE
    ensures |WaitNext(w, p).t| == |w.t|
    ensures WaitNext(w, p).t[z].state != ZOMBIE ==>
              && p == w.t[z].parent && WaitNext(w, p).t[z] == Reaped(w.t[z])
              && w.t[z].kstack !in w.pages && w.t[z].pgdir !in w.pages && w.t[z].kstack != w.t[z].pgdir
              && WaitNext(w, p).pages == w.pages + {w.t[z].kstack, w.t[z].pgdir}
  {
    hide ForksApart, PidsOk, FamilyOk, WaitOk, ForkOk;
    assert EntryOk(w.t[z], w.nextpid);
  }

  /** A zombie goes away in one way only: its parent's wait reaps it, which frees its stack and page
      directory, and neither was free before. */
  lemma ReapedOnce(w: World, e: Step, z: nat)
    requires Inv(w) && Enabled(w, e) && Ready(w) && z < |w.t| && w.t[z].state == ZOMBIE
    ensures |Next(w, e).t| == |w.t|
    ensures Next(w, e).t[z].state != ZOMBIE ==>
              && e.Wait? && e.p == w.t[z].parent && Next(w, e).t[z] == Reaped(w.t[z])
              && w.t[z].kstack !in w.pages && w.t[z].pgdir !in w.pages && w.t[z].kstack != w.t[z].pgdir
              && Next(w, e).pages == w.pages + {w.t[z].kstack, w.t[z].pgdir}
  {
    hide Inv, Enabled, AllocNext, AllocStackNext, CopyVmNext, PublishNext, KillNext, TicketsNext, Exited, Woken;
    match e
    case Exit(p) => ZombieExit(w, p, z);
    case Alloc(p) => ZombieFork(w, e, z);
    case AllocStack(p, _) => ZombieFork(w, e, z);
    case CopyVm(p, _) => ZombieFork(w, e, z);
    case Publish(p) => ZombieFork(w, e, z);
    case Wait(p) => ZombieWait(w, p, z);
    case _ => QuietStep(w, e);
  }

  // ---- pages are conserved ----

  ghost function Stacks(t: Table): set<nat> {
    set i | 0 <= i < |t| && t[i].kstack != 0 :: t[i].kstack
  }

  ghost function Dirs(t: Table): set<nat> {
    set i | 0 <= i < |t| && t[i].owns :: t[i].pgdir
  }

  /** All the pages there are: free, or owned by some process. */
  ghost function AllPages(w: World): set<nat> {
    w.pages + Stacks(w.t) + Dirs(w.t)
  }

  /** The pages of one entry. */
  function EntrySet(p: Proc): set<nat> {
    (if p.kstack != 0 then {p.kstack} else {}) + (if p.owns then {p.pgdir} else {})
  }

  lemma Rest(w: World, z: nat)
    requires z < |w.t|
    ensures AllPages(w) == w.pages + EntrySet(w.t[z])
                           + (set i | 0 <= i < |w.t| && i != z && w.t[i].kstack != 0 :: w.t[i].kstack)
                           + (set i | 0 <= i < |w.t| && i != z && w.t[i].owns :: w.t[i].pgdir)
  {
  }

  /** When one entry changes hands with the free list, the whole stays the same. */
  lemma EntryPages(w: World, w': World, z: nat)
    requires |w'.t| == |w.t| && z < |w.t|
    requires forall i :: 0 <= i < |w.t| && i != z ==>
               w'.t[i].kstack == w.t[i].kstack && w'.t[i].owns == w.t[i].owns && w'.t[i].pgdir == w.t[i].pgdir
    requires w'.pages + EntrySet(w'.t[z]) == w.pages + EntrySet(w.t[z])
    ensures AllPages(w') == AllPages(w)
  {
    Rest(w, z);
    Rest(w', z);
    var a := set i | 0 <= i < |w.t| && i != z && w.t[i].kstack != 0 :: w.t[i].kstack;
    var a' := set i | 0 <= i < |w'.t| && i != z && w'.t[i].kstack != 0 :: w'.t[i].kstack;
    var b := set i | 0 <= i < |w.t| && i != z && w.t[i].owns :: w.t[i].pgdir;
    var b' := set i | 0 <= i < |w'.t| && i != z && w'.t[i].owns :: w'.t[i].pgdir;
    assert a == a' && b == b';
  }

  lemma StackPages(w: World, p: nat, page: nat)
    requires Inv(w) && Enabled(w, AllocStack(p, page)) && w.t[p].forking.np < |w.t|
    ensures AllPages(AllocStackNext(w, p, page)) == AllPages(w)
  {
    hide FamilyOk, WaitOk, PidsOk, EntryOk, AllPages;
    assert ForkOk(w.t, p);
    EntryPages(w, AllocStackNext(w, p, page), w.t[p].forking.np);
  }

  lemma VmPages(w: World, p: nat, page: nat)
    requires Inv(w) && Enabled(w, CopyVm(p, page)) && w.t[p].forking.np < |w.t|
    ensures AllPages(CopyVmNext(w, p, page)) == AllPages(w)
  {
    hide FamilyOk, WaitOk, PidsOk, EntryOk, AllPages;
    assert ForkOk(w.t, p);
    EntryPages(w, CopyVmNext(w, p, page), w.t[p].forking.np);
  }

  lemma SamePages(w: World, w': World)
    requires |w'.t| == |w.t| && w'.pages == w.pages
    requires forall i :: 0 <= i < |w.t| ==>
               && w'.t[i].kstack == w.t[i].kstack && w'.t[i].owns == w.t[i].owns
               && (w.t[i].owns ==> w'.t[i].pgdir == w.t[i].pgdir)
    ensures AllPages(w') == AllPages(w)
  {
    assert Stacks(w'.t) == Stacks(w.t);
    assert Dirs(w'.t) == Dirs(w.t);
  }

  lemma LinkPages(w: World, e: Step)
    requires Enabled(w, e) && Ready(w) && (e.Alloc? || e.Publish?)
    ensures AllPages(Next(w, e)) == AllPages(w)
  {
    hide AllPages;
    SamePages(w, Next(w, e));
  }

  lemma ReapPages(w: World, p: nat)
    requires Inv(w) && Enabled(w, Wait(p))
    ensures AllPages(WaitNext(w, p)) == AllPages(w)
  {
    hide FamilyOk, WaitOk, PidsOk, ForkOk, AllPages;
    var z := FirstZombie(w.t, p, 0);
    if z < |w.t| {
      assert EntryOk(w.t[z], w.nextpid);
      EntryPages(w, WaitNext(w, p), z);
    } else {
      SamePages(w, WaitNext(w, p));
    }
  }

  lemma ExitPages(w: World, p: nat)
    requires Enabled(w, Exit(p))
    ensures AllPages(w.(t := Exited(w.t, p, w.init))) == AllPages(w)
  {
    hide Exited, AllPages;
    var w' := w.(t := Exited(w.t, p, w.init));
    forall i | 0 <= i < |w.t|
      ensures w'.t[i].kstack == w.t[i].kstack && w'.t[i].owns == w.t[i].owns && w'.t[i].pgdir == w.t[i].pgdir
    {
      ExitedAt(w.t, p, w.init, i);
    }
    SamePages(w, w');
  }

  /** No step creates or loses a page. */
  lemma PagesConserved(w: World, e: Step)
    requires Inv(w) && Enabled(w, e) && Ready(w)
    ensures AllPages(Next(w, e)) == AllPages(w)
  {
    hide Inv, AllocNext, AllocStackNext, CopyVmNext, PublishNext, WaitNext, KillNext, TicketsNext, Exited, Woken,
      AllPages;
    match e
    case AllocStack(p, page) => StackPages(w, p, page);
    case CopyVm(p, page) => VmPages(w, p, page);
    case Alloc(p) => LinkPages(w, e);
    case Publish(p) => LinkPages(w, e);
    case Wait(p) => ReapPages(w, p);
    case Exit(p) => ExitPages(w, p);
    case _ =>
      QuietStep(w, e);
      SamePages(w, Next(w, e));
  }

  // ---- the code ----

  datatype Waited = Pid(pid: nat) | NoChild | Slept

  /** A running process's pid leads back to its own entry. */
  lemma OwnPid(w: World, p: nat)
    requires Inv(w) && Runs(w, p)
    ensures FirstPid(w.t, w.t[p].pid, 0) == p
  {
    hide FamilyOk, WaitOk, ForkOk, PagesOk, ForksApart;
    assert EntryOk(w.t[p], w.nextpid);
    var i := FirstPid(w.t, w.t[p].pid, 0);
    assert i <= p;
  }

  // ---- field by field ----

  /** The first entry with this pid. */
  predicate HasPid(t: Table, i: nat, pid: nat) {
    i < |t| && t[i].pid == pid && forall j :: 0 <= j < i ==> t[j].pid != pid
  }

  predicate IsUnused(t: Table, i: nat) {
    i < |t| && t[i].state == UNUSED && forall j :: 0 <= j < i ==> t[j].state != UNUSED
  }

  predicate ZombieOf(x: Proc, c: nat) {
    x.parent == c && x.state == ZOMBIE
  }

  /** The zombie that a wait of c reaps: its first. */
  predicate Reapable(t: Table, i: nat, c: nat) {
    i < |t| && ZombieOf(t[i], c) && forall j :: 0 <= j < i ==> !ZombieOf(t[j], c)
  }

  /** A wait of c goes to sleep: there is a child but no zombie, and c has not been killed. */
  ghost predicate Waits(t: Table, c: nat) {
    && c < |t| && !t[c].killed && (exists i :: 0 <= i < |t| && t[i].parent == c)
    && forall i :: 0 <= i < |t| ==> !ZombieOf(t[i], c)
  }

  /** exit of c wakes process i out of its wait: it is the parent, or init gets a zombie. */
  ghost predicate WokenByExit(t: Table, c: nat, init: nat, i: nat) {
    && c < |t| && i < |t| && t[i].state == SLEEPING && t[i].chan == Self
    && (i == t[c].parent || (i == init && exists j :: 0 <= j < |t| && ZombieOf(t[j], c)))
  }

  /** The step is a stage of fork by a process that makes entry i, and fails or not. */
  predicate Making(w: World, e: Step, i: nat, page: nat) {
    && (e.AllocStack? || e.CopyVm?) && e.p < |w.t| && w.t[e.p].forking != No && w.t[e.p].forking.np == i
    && e.page == page
  }

  predicate Publishes(w: World, e: Step, i: nat) {
    e.Publish? && e.p < |w.t| && w.t[e.p].forking == Full(i)
  }

  /** The state of every entry after every step. */
  ghost function StateAfter(w: World, e: Step, i: nat): ProcState
    requires i < |w.t|
  {
    var x := w.t[i].state;
    if e.Alloc? && IsUnused(w.t, i) then EMBRYO
    else if Making(w, e, i, 0) then UNUSED
    else if Publishes(w, e, i) then RUNNABLE
    else if e == Schedule(i) then RUNNING
    else if e == Yield(i) then RUNNABLE
    else if e.Sleep? && e.p == i then SLEEPING
    else if e.Wakeup? && x == SLEEPING && w.t[i].chan == Other(e.c) then RUNNABLE
    else if e.Kill? && HasPid(w.t, i, e.pid) && x == SLEEPING then RUNNABLE
    else if e == Exit(i) then ZOMBIE
    else if e.Exit? && WokenByExit(w.t, e.p, w.init, i) then RUNNABLE
    else if e.Wait? && Reapable(w.t, i, e.p) then UNUSED
    else if e == Wait(i) && Waits(w.t, i) then SLEEPING
    else x
  }

  ghost function ForkingAfter(w: World, e: Step, i: nat): Fork
    requires i < |w.t|
  {
    var f := w.t[i].forking;
    if e == Alloc(i) && FirstUnused(w.t, 0) < |w.t| then Slot(FirstUnused(w.t, 0))
    else if e.AllocStack? && e.p == i && f != No then if e.page == 0 then No else Stack(f.np)
    else if e.CopyVm? && e.p == i && f != No then if e.page == 0 then No else Full(f.np)
    else if e == Publish(i) then No
    else f
  }

  function Larger(a: int, b: int): int {
    if a < b then b else a
  }

  /** Every entry after every step, field by field: who is killed, who waits for what, who is whose child, and who has
      which pid, how many tickets and which pages. */
  ghost function EntryAfter(w: World, e: Step, i: nat): Proc
    requires i < |w.t|
  {
    var x := w.t[i];
    var reaped := e.Wait? && Reapable(w.t, i, e.p);
    var born := e.CopyVm? && !Making(w, e, i, 0) && Making(w, e, i, e.page);
    Proc(
      StateAfter(w, e, i),
      if e.Alloc? && IsUnused(w.t, i) then w.nextpid else if reaped then 0 else x.pid,
      if born then e.p else if reaped then -1 else if e.Exit? && x.parent == e.p then w.init else x.parent,
      if e.Sleep? && e.p == i then Other(e.c) else if e == Wait(i) && Waits(w.t, i) then Self else x.chan,
      if e.Kill? && HasPid(w.t, i, e.pid) then true else if reaped then false else x.killed,
      if born then Larger(10, w.t[e.p].tickets) else if e.SetTickets? && e.p == i then e.n else x.tickets,
      if reaped || Making(w, e, i, 0) then 0 else if e.AllocStack? && Making(w, e, i, e.page) then e.page else x.kstack,
      if e.CopyVm? && Making(w, e, i, e.page) then e.page else x.pgdir,
      if reaped then false else born || x.owns,
      ForkingAfter(w, e, i))
  }

  /** Entry i and the counters after step e are as told field by field. */
  ghost predicate ByField(w: World, e: Step, i: nat)
    requires Enabled(w, e) && Ready(w) && i < |w.t|
  {
    var w' := Next(w, e);
    && |w'.t| == |w.t| && w'.t[i] == EntryAfter(w, e, i) && w'.init == w.init
    && w'.nextpid == w.nextpid + if e.Alloc? && exists j :: 0 <= j < |w.t| && w.t[j].state == UNUSED then 1 else 0
  }

  lemma SchedByField(w: World, e: Step, i: nat)
    requires Inv(w) && Enabled(w, e) && Ready(w) && i < |w.t| && (e.Schedule? || e.Yield? || e.Sleep? || e.Wakeup?)
    ensures ByField(w, e, i)
  {
    hide Exited, PagesOk, ForksApart, PidsOk, WaitOk, FamilyOk;
  }

  lemma KillByField(w: World, e: Step, i: nat)
    requires Inv(w) && Enabled(w, e) && Ready(w) && i < |w.t| && e.Kill?
    ensures ByField(w, e, i)
  {
    hide Exited, PagesOk, ForksApart, PidsOk, WaitOk, FamilyOk;
  }

  lemma AllocByField(w: World, e: Step, i: nat)
    requires Inv(w) && Enabled(w, e) && Ready(w) && i < |w.t| && e.Alloc?
    ensures ByField(w, e, i)
  {
    hide Exited, PagesOk, ForksApart, PidsOk, WaitOk, FamilyOk;
  }

  lemma StackByField(w: World, e: Step, i: nat)
    requires Inv(w) && Enabled(w, e) && Ready(w) && i < |w.t| && e.AllocStack?
    ensures ByField(w, e, i)
  {
    hide Exited, PagesOk, ForksApart, PidsOk, WaitOk, FamilyOk;
    assert ForkOk(w.t, e.p);
  }

  lemma CopyByField(w: World, e: Step, i: nat)
    requires Inv(w) && Enabled(w, e) && Ready(w) && i < |w.t| && e.CopyVm?
    ensures ByField(w, e, i)
  {
    hide Exited, PagesOk, ForksApart, PidsOk, WaitOk, FamilyOk;
    assert ForkOk(w.t, e.p);
  }

  lemma PublishByField(w: World, e: Step, i: nat)
    requires Inv(w) && Enabled(w, e) && Ready(w) && i < |w.t| && e.Publish?
    ensures ByField(w, e, i)
  {
    hide Exited, PagesOk, ForksApart, PidsOk, WaitOk, FamilyOk;
    assert ForkOk(w.t, e.p);
  }

  lemma ExitByField(w: World, e: Step, i: nat)
    requires Inv(w) && Enabled(w, e) && Ready(w) && i < |w.t| && e.Exit?
    ensures ByField(w, e, i)
  {
    hide Exited, PagesOk, ForksApart, PidsOk, WaitOk, ForkOk;
    ExitedAt(w.t, e.p, w.init, i);
  }

  lemma WaitByField(w: World, e: Step, i: nat)
    requires Inv(w) && Enabled(w, e) && Ready(w) && i < |w.t| && e.Wait?
    ensures ByField(w, e, i)
  {
    hide Exited, PagesOk, ForksApart, PidsOk, WaitOk, FamilyOk;
  }

  lemma TicketsByField(w: World, e: Step, i: nat)
    requires Inv(w) && Enabled(w, e) && Ready(w) && i < |w.t| && e.SetTickets?
    ensures ByField(w, e, i)
  {
    hide Exited, PagesOk, ForksApart, PidsOk, WaitOk, FamilyOk;
    OwnPid(w, e.p);
  }

  /** Every step changes every entry exactly so. */
  lemma StepByField(w: World, e: Step, i: nat)
    requires Inv(w) && Enabled(w, e) && Ready(w) && i < |w.t|
    ensures ByField(w, e, i)
  {
    hide Inv, ByField, Ready, Enabled;
    match e
    case Alloc(_) => AllocByField(w, e, i);
    case AllocStack(_, _) => StackByField(w, e, i);
    case CopyVm(_, _) => CopyByField(w, e, i);
    case Publish(_) => PublishByField(w, e, i);
    case Schedule(_) => SchedByField(w, e, i);
    case Yield(_) => SchedByField(w, e, i);
    case Sleep(_, _) => SchedByField(w, e, i);
    case Wakeup(_) => SchedByField(w, e, i);
    case Kill(_) => KillByField(w, e, i);
    case Exit(_) => ExitByField(w, e, i);
    case Wait(_) => WaitByField(w, e, i);
    case SetTickets(_, _) => TicketsByField(w, e, i);
  }

  /** The process table and what its critical sections do to it, loop by loop. */
  class Ptable {
    var t: Table
    var nextpid: nat
    var init: nat
    var pages: set<nat>

    ghost function W(): World
      reads this
    {
      World(t, nextpid, init, pages)
    }

    method Wakeup1(q: int, chan: Chan)
      modifies this`t
      ensures t == Woken(old(t), q, chan)
    {
      for i := 0 to |t|
        invariant |t| == |old(t)| && t == WokenUpTo(old(t), q, chan, i)
      {
        if t[i].state == SLEEPING && (if chan.Self? then i == q && t[i].chan.Self? else t[i].chan == chan) {
          t := t[i := t[i].(state := RUNNABLE)];
        }
      }
    }

    /** exit, from the lock to sched. */
    method Exit(c: nat)
      requires Inv(W()) && Enabled(W(), Step.Exit(c))
      modifies this`t
      ensures Ready(old(W())) && W() == Next(old(W()), Step.Exit(c)) && Inv(W())
    {
      hide Inv;
      InvStep(W(), Step.Exit(c));
      Wakeup1(t[c].parent, Self);
      ghost var t1 := t;
      for i := 0 to |t|
        invariant |t| == |t1| && t == Adopted(t1, c, init, i)
      {
        if t[i].parent == c {
          t := t[i := t[i].(parent := init)];
          if t[i].state == ZOMBIE {
            Wakeup1(init, Self);
          }
        }
      }
      t := t[c := t[c].(state := ZOMBIE)];
    }

    /** One turn of wait's outer loop. */
    method Wait(c: nat) returns (r: Waited)
      requires Inv(W()) && Enabled(W(), Step.Wait(c))
      modifies this`t, this`pages
      ensures Ready(old(W())) && W() == Next(old(W()), Step.Wait(c)) && Inv(W())
      ensures r.Pid? <==> exists i :: 0 <= i < |old(t)| && old(t)[i].parent == c && old(t)[i].state == ZOMBIE
      ensures r.Pid? ==>
                exists i: nat :: Reapable(old(t), i, c) && r.pid == old(t)[i].pid
                                 && t == old(t)[i := old(t)[i].(kstack := 0, owns := false, pid := 0, parent := -1,
                                                                killed := false, state := UNUSED)]
      ensures r == Slept <==> Waits(old(t), c)
      ensures r == Slept ==> t == old(t)[c := old(t)[c].(state := SLEEPING, chan := Self)]
      ensures r == NoChild ==> t == old(t)
      ensures r == NoChild <==>
                && (forall i :: 0 <= i < |old(t)| ==> !ZombieOf(old(t)[i], c))
                && (old(t)[c].killed || forall i :: 0 <= i < |old(t)| ==> old(t)[i].parent != c)
    {
      hide Inv;
      InvStep(W(), Step.Wait(c));
      var havekids := false;
      for i := 0 to |t|
        invariant t == old(t) && pages == old(pages)
        invariant havekids <==> exists j :: 0 <= j < i && t[j].parent == c
        invariant FirstZombie(t, c, 0) == FirstZombie(t, c, i)
      {
        if t[i].parent == c {
          havekids := true;
          if t[i].state == ZOMBIE {
            assert Reapable(old(t), i, c);
            var pid := t[i].pid;
            pages := pages + {t[i].kstack, t[i].pgdir};
            t := t[i := Reaped(t[i])];
            return Pid(pid);
          }
        }
      }
      if !havekids || t[c].killed {
        return NoChild;
      }
      t := t[c := t[c].(state := SLEEPING, chan := Self)];
      return Slept;
    }

    method Kill(pid: nat) returns (ok: bool)
      requires Inv(W())
      modifies this`t
      ensures Ready(old(W())) && W() == Next(old(W()), Step.Kill(pid)) && Inv(W())
      ensures ok <==> exists i :: 0 <= i < |old(t)| && old(t)[i].pid == pid
      ensures !ok ==> t == old(t)
      ensures ok ==>
                exists i: nat :: HasPid(old(t), i, pid) && t == old(t)[i := old(t)[i].(killed := true,
                  state := if old(t)[i].state == SLEEPING then RUNNABLE else old(t)[i].state)]
    {
      hide Inv;
      InvStep(W(), Step.Kill(pid));
      for i := 0 to |t|
        invariant t == old(t) && FirstPid(t, pid, 0) == FirstPid(t, pid, i)
      {
        if t[i].pid == pid {
          assert HasPid(old(t), i, pid);
          t := t[i := t[i].(killed := true)];
          if t[i].state == SLEEPING {
            t := t[i := t[i].(state := RUNNABLE)];
          }
          return true;
        }
      }
      return false;
    }

    /** allocproc's search: the first unused entry gets a new pid. */
    method AllocSlot(p: nat) returns (ok: bool)
      requires Inv(W()) && Enabled(W(), Alloc(p))
      modifies this`t, this`nextpid
      ensures Ready(old(W())) && W() == Next(old(W()), Alloc(p)) && Inv(W())
      ensures ok <==> exists i :: 0 <= i < |old(t)| && old(t)[i].state == UNUSED
      ensures !ok ==> t == old(t) && nextpid == old(nextpid)
      ensures ok ==>
                && nextpid == old(nextpid) + 1
                && exists i: nat :: IsUnused(old(t), i) && i != p
                               && t == old(t)[i := old(t)[i].(state := EMBRYO, pid := old(nextpid))]
                                             [p := old(t)[p].(forking := Slot(i))]
    {
      hide Inv;
      InvStep(W(), Alloc(p));
      for i := 0 to |t|
        invariant t == old(t) && nextpid == old(nextpid) && FirstUnused(t, 0) == FirstUnused(t, i)
      {
        if t[i].state == UNUSED {
          assert IsUnused(old(t), i);
          t := t[i := t[i].(state := EMBRYO, pid := nextpid)];
          nextpid := nextpid + 1;
          t := t[p := t[p].(forking := Slot(i))];
          return true;
        }
      }
      return false;
    }

    method SetTicket(pid: int, n: int) returns (r: int)
      modifies this`t
      ensures r == 0 || r == -1
      ensures r == -1 <==> forall i :: 0 <= i < |old(t)| ==> old(t)[i].pid != pid
      ensures r == -1 ==> t == old(t)
      ensures r == 0 ==>
                && pid >= 0
                && var i := FirstPid(old(t), pid, 0);
                   i < |old(t)| && t == old(t)[i := old(t)[i].(tickets := n)]
    {
      for i := 0 to |t|
        invariant t == old(t) && (pid >= 0 ==> FirstPid(t, pid, 0) == FirstPid(t, pid, i))
        invariant forall j :: 0 <= j < i ==> t[j].pid != pid
      {
        if t[i].pid == pid {
          t := t[i := t[i].(tickets := n)];
          return 0;
        }
      }
      return -1;
    }

    /** settickets: fewer than ten are refused; otherwise a process changes its own entry and no other. */
    method SysSetTickets(p: nat, n: int) returns (r: int)
      requires Inv(W()) && Runs(W(), p) && t[p].forking == No
      modifies this`t
      ensures Inv(W()) && (r == if n < 10 then -1 else 0)
      ensures n < 10 ==> t == old(t)
      ensures n >= 10 ==> Ready(old(W())) && W() == Next(old(W()), SetTickets(p, n))
      ensures n >= 10 ==> t == old(t)[p := old(t)[p].(tickets := n)]
    {
      if n < 10 {
        return -1;
      }
      OwnPid(W(), p);
      hide Inv, EntryOk, ForkOk, FirstPid;
      InvStep(W(), SetTickets(p, n));
      r := SetTicket(t[p].pid, n);
      return 0;
    }
  }
}
