/** Open files, file descriptors and pipe ends: file.c, sysfile.c, pipe.c, proc.c.

    A file counts the references to it. Between system calls they are the descriptors that
    name it; during one, the kernel holds some in hand.
 */
module Descriptors {

  const NFILE: nat := 100
  const NPROC: nat := 64
  const NOFILE: nat := 16

  datatype Kind = NoFile | OnInode(ip: nat) | OnPipe(page: nat)

  datatype File = File(ref: nat, kind: Kind, readable: bool, writable: bool, off: nat)

  datatype Ends = Ends(readopen: bool, writeopen: bool) {
    predicate Open(writable: bool) {
      if writable then writeopen else readopen
    }

    /** With one end shut. */
    function Shut(writable: bool): Ends {
      if writable then Ends(readopen, false) else Ends(false, writeopen)
    }
  }

  type Files = seq<File>
  type Pipes = map<nat, Ends>

  function InodeOf(f: File): multiset<nat> {
    if f.kind.OnInode? then multiset{f.kind.ip} else multiset{}
  }

  /** The inode references that open files hold. */
  function InodesOf(files: Files): multiset<nat> {
    if files == [] then multiset{}
    else
      var n := |files| - 1;
      InodesOf(files[..n]) + InodeOf(files[n])
  }

  lemma {:induction false} InodesUpdate(files: Files, i: nat, f: File)
    requires i < |files|
    ensures InodeOf(files[i]) <= InodesOf(files)
    ensures InodesOf(files[i := f]) == InodesOf(files) - InodeOf(files[i]) + InodeOf(f)
  {
    hide InodeOf;
    var n := |files| - 1;
    var g := files[i := f];
    if i == n {
      assert g[..n] == files[..n];
    } else {
      InodesUpdate(files[..n], i, f);
      assert g[..n] == files[..n][i := f] && g[n] == files[n];
    }
  }

  /** A change that keeps what the file is open on keeps the inode references. */
  lemma InodesSame(files: Files, i: nat, f: File)
    requires i < |files| && InodeOf(f) == InodeOf(files[i])
    ensures InodesOf(files[i := f]) == InodesOf(files)
  {
    hide InodeOf, InodesOf;
    InodesUpdate(files, i, f);
  }

  // ---- what is kept ----

  /** File f is open on an end of the pipe in this page. */
  predicate AtEnd(files: Files, f: int, page: nat, writable: bool) {
    0 <= f < |files| && files[f].kind == OnPipe(page) && files[f].writable == writable
  }

  ghost predicate FileOk(file: File, f: int, refs: nat, blank: set<int>) {
    && file.ref == refs
    && (file.ref == 0 ==> file.kind == NoFile)
    && (file.kind == NoFile && file.ref > 0 ==> f in blank)
  }

  /** Every file counts the descriptors that name it and the references in hand; one with none is
      closed, and one in use has been set up, unless it is blank. */
  ghost predicate RefsOk(files: Files, slots: seq<int>, hand: multiset<int>, blank: set<int>) {
    && |files| == NFILE && |slots| == NPROC * NOFILE
    && (forall k :: 0 <= k < |slots| ==> -1 <= slots[k] < NFILE)
    && (forall f :: f in hand ==> 0 <= f < NFILE)
    && (forall f :: 0 <= f < NFILE ==> FileOk(files[f], f, multiset(slots)[f] + hand[f], blank))
  }

  /** Each end of a pipe is open as long as a file is on it, and only one is. */
  ghost predicate PipesOk(files: Files, pipes: Pipes) {
    && (forall f, p, w :: AtEnd(files, f, p, w) ==> p in pipes && pipes[p].Open(w))
    && (forall f, g, p, w :: AtEnd(files, f, p, w) && AtEnd(files, g, p, w) ==> f == g)
    && (forall p, w: bool :: p in pipes && pipes[p].Open(w) ==> exists f :: AtEnd(files, f, p, w))
    && (forall p :: p in pipes ==> pipes[p].readopen || pipes[p].writeopen)
  }

  /** Every page is on the free list, once, or holds a pipe. */
  ghost predicate PagesOk(free: seq<nat>, pipes: Pipes, pages: set<nat>) {
    && (forall i, j :: 0 <= i < j < |free| ==> free[i] != free[j])
    && (forall p :: p in pages <==> p in free || p in pipes)
    && (forall p :: p in free ==> p !in pipes)
  }

  /** The open-file table, all descriptor slots in one row, the pipes, the free pages, and the inode
      references that files hold. */
  datatype Sys = Sys(files: Files, slots: seq<int>, pipes: Pipes, free: seq<nat>, irefs: multiset<nat>)

  ghost predicate Inv(s: Sys, pages: set<nat>, hand: multiset<int>, blank: set<int>) {
    && RefsOk(s.files, s.slots, hand, blank) && PipesOk(s.files, s.pipes) && PagesOk(s.free, s.pipes, pages)
    && s.irefs == InodesOf(s.files)
  }

  predicate NamesPipe(files: Files, f: int, page: nat) {
    0 <= f < |files| && files[f].kind == OnPipe(page)
  }

  /** Between system calls a pipe has its page exactly as long as some descriptor names a file on it;
      then the page is free. */
  lemma PipeAlive(s: Sys, pages: set<nat>, page: nat)
    requires Inv(s, pages, multiset{}, {}) && page in pages
    ensures page in s.pipes <==> exists k :: 0 <= k < |s.slots| && NamesPipe(s.files, s.slots[k], page)
    ensures page in s.free <==> page !in s.pipes
  {
    var files, slots, pipes := s.files, s.slots, s.pipes;
    if page in pipes {
      var w := !pipes[page].readopen;
      assert pipes[page].Open(w);
      var f :| AtEnd(files, f, page, w);
      assert FileOk(files[f], f, multiset(slots)[f] + multiset{}[f], {});
      assert f in multiset(slots);
      var k :| 0 <= k < |slots| && slots[k] == f;
      assert NamesPipe(files, slots[k], page);
    }
    forall k | 0 <= k < |slots| && NamesPipe(files, slots[k], page)
      ensures page in pipes
    {
      assert AtEnd(files, slots[k], page, files[slots[k]].writable);
    }
  }

  // ---- one step at a time ----

  /** Files that agree on what they are open on leave the pipes alone. */
  lemma PipesFrame(files: Files, files': Files, pipes: Pipes)
    requires PipesOk(files, pipes) && |files| == |files'|
    requires forall f, p, w :: AtEnd(files', f, p, w) <==> AtEnd(files, f, p, w)
    ensures PipesOk(files', pipes)
  {
    hide AtEnd;
    forall p, w: bool | p in pipes && pipes[p].Open(w)
      ensures exists f :: AtEnd(files', f, p, w)
    {
      var f :| AtEnd(files, f, p, w);
      assert AtEnd(files', f, p, w);
    }
  }

  /** A change of one file and of the references to it. */
  lemma RefsChange(files: Files, slots: seq<int>, slots': seq<int>, hand: multiset<int>, hand': multiset<int>,
                   blank: set<int>, blank': set<int>, f: nat, file: File)
    requires RefsOk(files, slots, hand, blank) && f < NFILE && |slots'| == |slots|
    requires forall k :: 0 <= k < |slots'| ==> -1 <= slots'[k] < NFILE
    requires forall g :: g in hand' ==> 0 <= g < NFILE
    requires forall g :: 0 <= g < NFILE && g != f ==>
              multiset(slots')[g] + hand'[g] == multiset(slots)[g] + hand[g] && (g in blank ==> g in blank')
    requires FileOk(file, f, multiset(slots')[f] + hand'[f], blank')
    ensures RefsOk(files[f := file], slots', hand', blank')
  {
    var files' := files[f := file];
    forall g | 0 <= g < NFILE
      ensures FileOk(files'[g], g, multiset(slots')[g] + hand'[g], blank')
    {
      assert FileOk(files[g], g, multiset(slots)[g] + hand[g], blank);
    }
  }

  /** A free file is taken. */
  lemma AllocOk(s: Sys, pages: set<nat>, hand: multiset<int>, blank: set<int>, f: nat)
    requires Inv(s, pages, hand, blank) && f < NFILE && s.files[f].ref == 0
    ensures Inv(s.(files := s.files[f := s.files[f].(ref := 1)]), pages, hand + multiset{f}, blank + {f})
  {
    hide InodesOf, PagesOk;
    var file := s.files[f].(ref := 1);
    assert FileOk(s.files[f], f, multiset(s.slots)[f] + hand[f], blank);
    InodesUpdate(s.files, f, file);
    RefsChange(s.files, s.slots, s.slots, hand, hand + multiset{f}, blank, blank + {f}, f, file);
    PipesFrame(s.files, s.files[f := file], s.pipes);
  }

  function Bumped(files: Files, f: nat): Files
    requires f < |files|
  {
    files[f := files[f].(ref := files[f].ref + 1)]
  }

  /** One more reference to a file in use. */
  lemma BumpOk(s: Sys, pages: set<nat>, hand: multiset<int>, blank: set<int>, f: nat)
    requires Inv(s, pages, hand, blank) && f < NFILE && s.files[f].ref >= 1
    ensures Inv(s.(files := Bumped(s.files, f)), pages, hand + multiset{f}, blank)
  {
    hide InodesOf, PagesOk;
    var file := s.files[f].(ref := s.files[f].ref + 1);
    assert FileOk(s.files[f], f, multiset(s.slots)[f] + hand[f], blank);
    InodesSame(s.files, f, file);
    hide InodeOf;
    RefsChange(s.files, s.slots, s.slots, hand, hand + multiset{f}, blank, blank, f, file);
    PipesFrame(s.files, s.files[f := file], s.pipes);
  }

  lemma SlotSet(slots: seq<int>, k: nat, f: int)
    requires k < |slots|
    ensures forall g :: multiset(slots[k := f])[g] ==
              multiset(slots)[g] - (if g == slots[k] then 1 else 0) + (if g == f then 1 else 0)
    ensures multiset(slots)[slots[k]] >= 1
  {
    assert slots[k] in multiset(slots);
    assert slots == slots[..k] + [slots[k]] + slots[k + 1..];
    assert slots[k := f] == slots[..k] + [f] + slots[k + 1..];
  }

  lemma SlotsThere(s: Sys, pages: set<nat>, hand: multiset<int>, blank: set<int>)
    requires Inv(s, pages, hand, blank)
    ensures |s.files| == NFILE && |s.slots| == NPROC * NOFILE
    ensures forall k :: 0 <= k < |s.slots| ==>
              -1 <= s.slots[k] < NFILE && (s.slots[k] != -1 ==> s.files[s.slots[k]].ref >= 1)
  {
    hide InodesOf, PagesOk, PipesOk;
    forall k | 0 <= k < |s.slots| && s.slots[k] != -1
      ensures s.files[s.slots[k]].ref >= 1
    {
      var f := s.slots[k];
      SlotSet(s.slots, k, -1);
      assert FileOk(s.files[f], f, multiset(s.slots)[f] + hand[f], blank);
    }
  }

  /** A reference in hand becomes a descriptor, or the other way round. */
  lemma MoveOk(s: Sys, pages: set<nat>, hand: multiset<int>, hand': multiset<int>, blank: set<int>, k: nat, f: int)
    requires Inv(s, pages, hand, blank) && k < |s.slots| && -1 <= f < NFILE && (f == -1) != (s.slots[k] == -1)
    requires f != -1 ==> f in hand && hand' == hand - multiset{f}
    requires f == -1 ==> hand' == hand + multiset{s.slots[k]}
    ensures Inv(s.(slots := s.slots[k := f]), pages, hand', blank)
  {
    hide InodesOf, PagesOk, PipesOk;
    SlotSet(s.slots, k, f);
    var g := if f == -1 then s.slots[k] else f;
    assert s.files[g := s.files[g]] == s.files;
    assert FileOk(s.files[g], g, multiset(s.slots)[g] + hand[g], blank);
    RefsChange(s.files, s.slots, s.slots[k := f], hand, hand', blank, blank, g, s.files[g]);
  }

  /** A file in use is named once more. */
  lemma DupOk(s: Sys, pages: set<nat>, hand: multiset<int>, blank: set<int>, f: nat, k: nat)
    requires Inv(s, pages, hand, blank) && f < NFILE && s.files[f].ref >= 1 && k < |s.slots| && s.slots[k] == -1
    ensures Inv(s.(files := Bumped(s.files, f), slots := s.slots[k := f]), pages, hand, blank)
  {
    hide Inv;
    SlotsThere(s, pages, hand, blank);
    BumpOk(s, pages, hand, blank, f);
    var s1 := s.(files := Bumped(s.files, f));
    assert hand + multiset{f} - multiset{f} == hand;
    MoveOk(s1, pages, hand + multiset{f}, hand, blank, k, f);
  }

  // ---- closing ----

  /** A pipe with one end shut, or gone if the other was. */
  function PipeShut(pipes: Pipes, page: nat, writable: bool): Pipes
    requires page in pipes
  {
    var e := pipes[page].Shut(writable);
    if e.readopen || e.writeopen then pipes[page := e] else pipes - {page}
  }

  function FreeShut(pipes: Pipes, free: seq<nat>, page: nat, writable: bool): seq<nat>
    requires page in pipes
  {
    var e := pipes[page].Shut(writable);
    if e.readopen || e.writeopen then free else [page] + free
  }

  predicate CanClose(s: Sys, f: nat) {
    f < |s.files| && s.files[f].ref >= 1 && (s.files[f].kind.OnPipe? ==> s.files[f].kind.page in s.pipes)
  }

  /** What fileclose leaves. */
  function Closed(s: Sys, f: nat): Sys
    requires CanClose(s, f)
  {
    var file := s.files[f];
    if file.ref > 1 then s.(files := s.files[f := file.(ref := file.ref - 1)])
    else
      var gone := s.(files := s.files[f := file.(ref := 0, kind := NoFile)]);
      match file.kind
      case NoFile => gone
      case OnInode(ip) => gone.(irefs := s.irefs - multiset{ip})
      case OnPipe(page) => gone.(pipes := PipeShut(s.pipes, page, file.writable),
                                 free := FreeShut(s.pipes, s.free, page, file.writable))
  }

  /** When the last reference to a file on a pipe goes, its end of the pipe goes. */
  lemma ShutPipes(files: Files, pipes: Pipes, f: nat, page: nat, file: File)
    requires PipesOk(files, pipes) && f < |files| && files[f].kind == OnPipe(page) && page in pipes
    requires file.kind == NoFile
    ensures PipesOk(files[f := file], PipeShut(pipes, page, files[f].writable))
  {
    var w0 := files[f].writable;
    var files', pipes' := files[f := file], PipeShut(pipes, page, w0);
    assert AtEnd(files, f, page, w0);
    forall g, p, w | AtEnd(files', g, p, w)
      ensures AtEnd(files, g, p, w) && g != f && !(p == page && w == w0)
    {
      assert AtEnd(files, g, p, w) && g != f;
      assert !AtEnd(files, f, p, w);
    }
    forall g, p, w | AtEnd(files', g, p, w)
      ensures p in pipes' && pipes'[p].Open(w)
    {
      assert AtEnd(files, g, p, w);
    }
    forall p, w: bool | p in pipes' && pipes'[p].Open(w)
      ensures exists g :: AtEnd(files', g, p, w)
    {
      assert p in pipes && pipes[p].Open(w) && !(p == page && w == w0);
      var g :| AtEnd(files, g, p, w);
      assert AtEnd(files', g, p, w);
    }
  }

  lemma ShutPages(free: seq<nat>, pipes: Pipes, pages: set<nat>, page: nat, writable: bool)
    requires PagesOk(free, pipes, pages) && page in pipes
    ensures PagesOk(FreeShut(pipes, free, page, writable), PipeShut(pipes, page, writable), pages)
  {
  }

  lemma PipePage(s: Sys, pages: set<nat>, hand: multiset<int>, blank: set<int>, f: nat)
    requires Inv(s, pages, hand, blank) && f < NFILE
    ensures s.files[f].kind.OnPipe? ==> s.files[f].kind.page in s.pipes
  {
    if s.files[f].kind.OnPipe? {
      assert AtEnd(s.files, f, s.files[f].kind.page, s.files[f].writable);
    }
  }

  lemma ClosedShape(s: Sys, f: nat)
    requires CanClose(s, f)
    ensures var s', file := Closed(s, f), s.files[f];
            && s'.slots == s.slots && |s'.files| == |s.files|
            && s'.files == s.files[f := s'.files[f]] && s'.files[f].ref == file.ref - 1
            && s'.files[f].kind == (if file.ref > 1 then file.kind else NoFile)
            && s'.irefs == (if file.ref > 1 || !file.kind.OnInode? then s.irefs else s.irefs - multiset{file.kind.ip})
  {
    hide PipeShut, FreeShut;
  }

  lemma SameInode(file: File, file': File)
    requires file'.kind == file.kind
    ensures InodeOf(file') == InodeOf(file)
  {
  }

  lemma NoInode(file: File, file': File)
    requires file'.kind == NoFile
    ensures InodeOf(file') == multiset{}
            && InodeOf(file) == if file.kind.OnInode? then multiset{file.kind.ip} else multiset{}
  {
  }

  lemma CloseInodes(s: Sys, f: nat)
    requires CanClose(s, f) && s.irefs == InodesOf(s.files)
    ensures Closed(s, f).irefs == InodesOf(Closed(s, f).files)
  {
    hide InodesOf, InodeOf, Closed;
    var file, s' := s.files[f], Closed(s, f);
    ClosedShape(s, f);
    if file.ref > 1 {
      SameInode(file, s'.files[f]);
      InodesSame(s.files, f, s'.files[f]);
    } else {
      InodesUpdate(s.files, f, s'.files[f]);
      NoInode(file, s'.files[f]);
    }
  }

  lemma CloseEnds(s: Sys, pages: set<nat>, f: nat)
    requires f < |s.files| && s.files[f].ref >= 1 && (s.files[f].kind.OnPipe? ==> s.files[f].kind.page in s.pipes)
    requires PipesOk(s.files, s.pipes) && PagesOk(s.free, s.pipes, pages)
    ensures PipesOk(Closed(s, f).files, Closed(s, f).pipes) && PagesOk(Closed(s, f).free, Closed(s, f).pipes, pages)
  {
    hide PipesOk, PagesOk, PipeShut, FreeShut;
    var file := s.files[f];
    if file.ref == 1 && file.kind.OnPipe? {
      ShutPipes(s.files, s.pipes, f, file.kind.page, file.(ref := 0, kind := NoFile));
      ShutPages(s.free, s.pipes, pages, file.kind.page, file.writable);
    } else {
      PipesFrame(s.files, Closed(s, f).files, s.pipes);
    }
  }

  /** A reference in hand is given up. */
  lemma CloseOk(s: Sys, pages: set<nat>, hand: multiset<int>, blank: set<int>, f: nat)
    requires Inv(s, pages, hand, blank) && f in hand
    ensures f < |s.files| && s.files[f].ref >= 1 && (s.files[f].kind.OnPipe? ==> s.files[f].kind.page in s.pipes)
    ensures Inv(Closed(s, f), pages, hand - multiset{f}, blank)
  {
    hide InodesOf, PagesOk, PipesOk;
    PipePage(s, pages, hand, blank, f);
    var file, s' := s.files[f], Closed(s, f);
    assert FileOk(file, f, multiset(s.slots)[f] + hand[f], blank);
    ClosedShape(s, f);
    CloseInodes(s, f);
    CloseEnds(s, pages, f);
    hide InodeOf, Closed;
    RefsChange(s.files, s.slots, s.slots, hand, hand - multiset{f}, blank, blank, f, s'.files[f]);
  }

  // ---- opening ----

  /** A blank file is set up on an inode, whose reference it takes over. */
  lemma OnInodeOk(s: Sys, pages: set<nat>, hand: multiset<int>, blank: set<int>, f: nat, ip: nat, readable: bool,
                  writable: bool)
    requires Inv(s, pages, hand, blank) && f < NFILE && s.files[f].kind == NoFile && s.files[f].ref >= 1
    ensures var file := File(s.files[f].ref, OnInode(ip), readable, writable, 0);
            Inv(s.(files := s.files[f := file], irefs := s.irefs + multiset{ip}), pages, hand, blank - {f})
  {
    hide InodesOf, PagesOk;
    var file := File(s.files[f].ref, OnInode(ip), readable, writable, 0);
    assert FileOk(s.files[f], f, multiset(s.slots)[f] + hand[f], blank);
    InodesUpdate(s.files, f, file);
    RefsChange(s.files, s.slots, s.slots, hand, hand, blank, blank - {f}, f, file);
    PipesFrame(s.files, s.files[f := file], s.pipes);
  }

  function Piped(s: Sys, r: nat, w: nat): Sys
    requires r < |s.files| && w < |s.files| && s.free != []
  {
    var page := s.free[0];
    var rf := s.files[r].(kind := OnPipe(page), readable := true, writable := false);
    var wf := s.files[w].(kind := OnPipe(page), readable := false, writable := true);
    s.(files := s.files[r := rf][w := wf], pipes := s.pipes[page := Ends(true, true)], free := s.free[1..])
  }

  lemma PipedEnds(s: Sys, pages: set<nat>, r: nat, w: nat)
    requires r < |s.files| && w < |s.files| && r != w && s.free != [] && s.files[r].kind == NoFile
    requires s.files[w].kind == NoFile
    requires PipesOk(s.files, s.pipes) && PagesOk(s.free, s.pipes, pages)
    ensures PipesOk(Piped(s, r, w).files, Piped(s, r, w).pipes)
    ensures PagesOk(Piped(s, r, w).free, Piped(s, r, w).pipes, pages)
  {
    var s', page := Piped(s, r, w), s.free[0];
    forall f, p, x
      ensures AtEnd(s'.files, f, p, x) <==> AtEnd(s.files, f, p, x) || (p == page && f == if x then w else r)
    {
      assert AtEnd(s.files, f, p, x) ==> p in s.pipes;
    }
    forall p, x: bool | p in s'.pipes && s'.pipes[p].Open(x)
      ensures exists f :: AtEnd(s'.files, f, p, x)
    {
      if p == page {
        assert AtEnd(s'.files, if x then w else r, p, x);
      } else {
        var f :| AtEnd(s.files, f, p, x);
        assert AtEnd(s'.files, f, p, x);
      }
    }
  }

  /** Two blank files are set up on the ends of a new pipe. */
  lemma OnPipeOk(s: Sys, pages: set<nat>, hand: multiset<int>, blank: set<int>, r: nat, w: nat)
    requires Inv(s, pages, hand, blank) && r < NFILE && w < NFILE && r != w && s.free != []
    requires s.files[r].kind == NoFile && s.files[r].ref >= 1 && s.files[w].kind == NoFile && s.files[w].ref >= 1
    ensures Inv(Piped(s, r, w), pages, hand, blank - {r, w})
  {
    hide InodesOf, PagesOk, PipesOk;
    var page := s.free[0];
    var rf := s.files[r].(kind := OnPipe(page), readable := true, writable := false);
    var wf := s.files[w].(kind := OnPipe(page), readable := false, writable := true);
    assert FileOk(s.files[r], r, multiset(s.slots)[r] + hand[r], blank);
    assert FileOk(s.files[w], w, multiset(s.slots)[w] + hand[w], blank);
    InodesUpdate(s.files, r, rf);
    InodesUpdate(s.files[r := rf], w, wf);
    RefsChange(s.files, s.slots, s.slots, hand, hand, blank, blank - {r}, r, rf);
    RefsChange(s.files[r := rf], s.slots, s.slots, hand, hand, blank - {r}, blank - {r, w}, w, wf);
    PipedEnds(s, pages, r, w);
  }

  // ---- system calls ----

  /** Slot of descriptor fd of process p. */
  function At(p: nat, fd: nat): nat {
    16 * p + fd
  }

  /** fd is the lowest free descriptor of p. */
  ghost predicate LowestFree(slots: seq<int>, p: nat, fd: int)
    requires p < NPROC && |slots| == NPROC * NOFILE
  {
    0 <= fd < NOFILE && slots[At(p, fd)] == -1 && forall i :: 0 <= i < fd ==> slots[At(p, i)] != -1
  }

  ghost predicate NoneFree(slots: seq<int>, p: nat)
    requires p < NPROC && |slots| == NPROC * NOFILE
  {
    forall i :: 0 <= i < NOFILE ==> slots[At(p, i)] != -1
  }

  /** The same references to the same things; what is in use is what it was. */
  ghost predicate SameFiles(files: Files, files': Files) {
    && |files'| == |files|
    && forall f :: 0 <= f < |files| ==>
         && files'[f].ref == files[f].ref && files'[f].kind == files[f].kind
         && (files[f].ref > 0 ==> files'[f] == files[f])
  }

  /** Nothing but counts of references may differ. */
  ghost predicate OnlyRefs(files: Files, files': Files) {
    |files'| == |files| && forall f :: 0 <= f < |files| ==> files'[f] == files[f].(ref := files'[f].ref)
  }

  /** No file gains a reference, and those still in use are what they were but for its count. */
  ghost predicate Kept(files: Files, files': Files) {
    && |files'| == |files|
    && forall f :: 0 <= f < |files| ==>
         && files'[f].ref <= files[f].ref
         && (files'[f].ref > 0 ==> files'[f] == files[f].(ref := files'[f].ref))
  }

  /** File f has lost a reference, and nothing else; without any left it is closed. No other file has changed. */
  ghost predicate GaveUp(files: Files, files': Files, f: nat) {
    && f < |files| == |files'| && (forall g :: 0 <= g < |files| && g != f ==> files'[g] == files[g])
    && files'[f].ref == files[f].ref - 1
    && (if files[f].ref > 1 then files'[f] == files[f].(ref := files[f].ref - 1) else files'[f].kind == NoFile)
  }

  /** Files r and w are new, on the reading and the writing end of a new pipe in the first free page; no other file,
      pipe or page has changed. */
  ghost predicate NewPipe(s: Sys, s': Sys, r: int, w: int) {
    && 0 <= r < |s.files| == |s'.files| && 0 <= w < |s.files| && r != w && s.free != []
    && s.files[r].ref == 0 && s.files[w].ref == 0
    && (forall g :: 0 <= g < |s.files| && g != r && g != w ==> s'.files[g] == s.files[g])
    && s'.files[r].ref == 1 && s'.files[r].kind == OnPipe(s.free[0]) && s'.files[r].readable && !s'.files[r].writable
    && s'.files[w].ref == 1 && s'.files[w].kind == OnPipe(s.free[0]) && !s'.files[w].readable && s'.files[w].writable
    && s'.pipes == s.pipes[s.free[0] := Ends(true, true)] && s'.free == s.free[1..] && s'.irefs == s.irefs
  }

  function Blank(n: nat): (s: Files)
    ensures |s| == n && forall f :: 0 <= f < n ==> s[f] == File(0, NoFile, false, false, 0)
  {
    if n == 0 then [] else Blank(n - 1) + [File(0, NoFile, false, false, 0)]
  }

  function Empty(n: nat): (s: seq<int>)
    ensures |s| == n && forall k :: 0 <= k < n ==> s[k] == -1
  {
    if n == 0 then [] else Empty(n - 1) + [-1]
  }

  lemma {:induction false} BlankOk(n: nat)
    ensures InodesOf(Blank(n)) == multiset{}
  {
    if n > 0 {
      BlankOk(n - 1);
      assert Blank(n)[..n - 1] == Blank(n - 1);
    }
  }

  lemma StartOk(free: seq<nat>)
    requires forall i, j :: 0 <= i < j < |free| ==> free[i] != free[j]
    ensures Inv(Sys(Blank(NFILE), Empty(NPROC * NOFILE), map[], free, multiset{}), set p | p in free, multiset{}, {})
  {
    hide Blank, Empty, InodesOf;
    BlankOk(NFILE);
    var slots := Empty(NPROC * NOFILE);
    forall f | 0 <= f < NFILE
      ensures FileOk(Blank(NFILE)[f], f, multiset(slots)[f] + multiset{}[f], {})
    {
      assert f !in multiset(slots);
    }
  }

  lemma FreeIsNone(s: Sys, pages: set<nat>, hand: multiset<int>, blank: set<int>, f: nat)
    requires Inv(s, pages, hand, blank) && f < |s.files| && s.files[f].ref == 0
    ensures s.files[f].kind == NoFile
  {
    assert FileOk(s.files[f], f, multiset(s.slots)[f] + hand[f], blank);
  }

  lemma OpenOk(s0: Sys, s1: Sys, pages: set<nat>, k: nat, f: nat, ip: nat, readable: bool, writable: bool)
    requires Inv(s1, pages, multiset{f}, {f}) && f < NFILE && k < |s1.slots| && s1.slots[k] == -1
    requires s1.files[f].kind == NoFile && s1.files[f].ref == 1
    ensures Inv(Sys(s1.files[f := File(1, OnInode(ip), readable, writable, 0)], s1.slots[k := f], s1.pipes, s1.free,
                    s1.irefs + multiset{ip}),
                pages, multiset{}, {})
  {
    hide Inv;
    assert multiset{f} - multiset{f} == multiset{} && {f} - {f} == {};
    MoveOk(s1, pages, multiset{f}, multiset{}, {f}, k, f);
    OnInodeOk(s1.(slots := s1.slots[k := f]), pages, multiset{}, {f}, f, ip, readable, writable);
  }

  /** Closing a file just taken undoes that. */
  lemma GiveBack(s: Sys, f: nat)
    requires f < |s.files| && s.files[f].ref == 0 && s.files[f].kind == NoFile
    ensures var s1 := s.(files := s.files[f := s.files[f].(ref := 1)]); CanClose(s1, f) && Closed(s1, f) == s
  {
    var s1 := s.(files := s.files[f := s.files[f].(ref := 1)]);
    assert Closed(s1, f).files == s.files;
  }

  function TwoTaken(s: Sys, r: nat, w: nat): Sys
    requires r < |s.files| && w < |s.files|
  {
    s.(files := s.files[r := s.files[r].(ref := 1)][w := s.files[w].(ref := 1)])
  }

  lemma GiveBackTwo(s: Sys, r: nat, w: nat)
    requires r < |s.files| && w < |s.files| && r != w
    requires s.files[r].ref == 0 && s.files[w].ref == 0 && s.files[r].kind == NoFile && s.files[w].kind == NoFile
    ensures var s1 := TwoTaken(s, r, w); CanClose(s1, r) && CanClose(Closed(s1, r), w) && Closed(Closed(s1, r), w) == s
  {
    var s1 := s.(files := s.files[w := s.files[w].(ref := 1)]);
    assert TwoTaken(s, r, w).files == s1.files[r := s1.files[r].(ref := 1)];
    hide Closed, CanClose;
    GiveBack(s1, r);
    GiveBack(s, w);
  }

  /** At least two files are free. */
  ghost predicate TwoFree(files: Files) {
    exists f, g :: 0 <= f < |files| && 0 <= g < |files| && f != g && files[f].ref == 0 && files[g].ref == 0
  }

  lemma NoneIsNotTwo(files: Files)
    requires |files| == NFILE && forall g :: 0 <= g < NFILE ==> files[g].ref != 0
    ensures !TwoFree(files)
  {
  }

  lemma TwoAre(files: Files, r: nat, w: nat)
    requires r < |files| && w < |files| && r != w && files[r].ref == 0 && files[w].ref == 0
    ensures TwoFree(files)
  {
  }

  lemma OneLeft(files: Files, files': Files, r: nat)
    requires r < |files| && files[r].ref == 0 && files' == files[r := files[r].(ref := 1)]
    requires forall g :: 0 <= g < |files'| ==> files'[g].ref != 0
    ensures !TwoFree(files)
  {
    assert forall g :: 0 <= g < |files| && g != r ==> files[g].ref == files'[g].ref;
  }

  /** At least two descriptors of p are free. */
  ghost predicate TwoDescriptors(slots: seq<int>, p: nat)
    requires p < NPROC && |slots| == NPROC * NOFILE
  {
    exists i, j :: 0 <= i < j < NOFILE && slots[At(p, i)] == -1 && slots[At(p, j)] == -1
  }

  lemma TwoSlots(slots: seq<int>, p: nat, fd0: int, fd1: int, f: nat)
    requires p < NPROC && |slots| == NPROC * NOFILE
    requires fd0 == -1 ==> NoneFree(slots, p) && fd1 == -1
    requires fd0 != -1 ==> LowestFree(slots, p, fd0)
    requires fd0 != -1 && fd1 == -1 ==> NoneFree(slots[At(p, fd0) := f], p)
    requires fd0 != -1 && fd1 != -1 ==> LowestFree(slots[At(p, fd0) := f], p, fd1)
    ensures fd1 == -1 <==> !TwoDescriptors(slots, p)
    ensures fd1 != -1 ==> fd0 < fd1 < NOFILE && slots[At(p, fd1)] == -1
  {
    if fd0 != -1 {
      var slots' := slots[At(p, fd0) := f];
      assert forall i :: 0 <= i < NOFILE && i != fd0 ==> slots'[At(p, i)] == slots[At(p, i)];
    }
  }

  lemma FrontPage(s: Sys, pages: set<nat>)
    requires Inv(s, pages, multiset{}, {}) && s.free != []
    ensures s.free[0] !in s.pipes
  {
    assert s.free[0] in s.free;
  }

  lemma UnpipedSame(s0: Sys, r: nat, w: nat)
    requires r < |s0.files| && w < |s0.files| && r != w && s0.free != [] && s0.free[0] !in s0.pipes
    requires s0.files[r].ref == 0 && s0.files[w].ref == 0 && s0.files[r].kind == NoFile && s0.files[w].kind == NoFile
    ensures var s1 := Piped(TwoTaken(s0, r, w), r, w);
            && CanClose(s1, r) && CanClose(Closed(s1, r), w)
            && var s2 := Closed(Closed(s1, r), w);
               && s2.slots == s0.slots && s2.pipes == s0.pipes && s2.free == s0.free && s2.irefs == s0.irefs
               && SameFiles(s0.files, s2.files)
  {
    var s1 := Piped(TwoTaken(s0, r, w), r, w);
    var page := s0.free[0];
    assert Closed(s1, r).pipes == s0.pipes[page := Ends(false, true)];
    var s2 := Closed(Closed(s1, r), w);
    assert s2.pipes == s0.pipes && s2.free == [page] + s0.free[1..];
  }

  /** Closing both ends of a new pipe undoes it. */
  lemma Unpiped(s0: Sys, s1: Sys, s2: Sys, pages: set<nat>, r: nat, w: nat)
    requires Inv(s0, pages, multiset{}, {}) && r < NFILE && w < NFILE && r != w && s0.files[r].ref == 0
    requires s0.files[w].ref == 0
    requires s0.free != [] && s1 == Piped(TwoTaken(s0, r, w), r, w) && Inv(s1, pages, multiset{r, w}, {})
    requires CanClose(s1, r) && CanClose(Closed(s1, r), w) && s2 == Closed(Closed(s1, r), w)
    ensures s2.slots == s0.slots && s2.pipes == s0.pipes && s2.free == s0.free && s2.irefs == s0.irefs
    ensures SameFiles(s0.files, s2.files)
    ensures Inv(s2, pages, multiset{}, {})
  {
    hide Inv, Closed, Piped, TwoTaken, SameFiles;
    assert multiset{r, w} - multiset{r} == multiset{w} && multiset{w} - multiset{w} == multiset{};
    CloseOk(s1, pages, multiset{r, w}, {}, r);
    CloseOk(Closed(s1, r), pages, multiset{w}, {}, w);
    SlotsThere(s0, pages, multiset{}, {});
    FreeIsNone(s0, pages, multiset{}, {}, r);
    FreeIsNone(s0, pages, multiset{}, {}, w);
    FrontPage(s0, pages);
    UnpipedSame(s0, r, w);
  }

  lemma PipeDone(s: Sys, pages: set<nat>, j: nat, k: nat, r: nat, w: nat)
    requires Inv(s, pages, multiset{r, w}, {}) && j < |s.slots| && k < |s.slots| && j != k && s.slots[j] == -1
    requires s.slots[k] == -1
    requires r < NFILE && w < NFILE
    ensures Inv(s.(slots := s.slots[j := r][k := w]), pages, multiset{}, {})
  {
    hide Inv;
    assert multiset{r, w} - multiset{r} == multiset{w} && multiset{w} - multiset{w} == multiset{};
    MoveOk(s, pages, multiset{r, w}, multiset{w}, {}, j, r);
    MoveOk(s.(slots := s.slots[j := r]), pages, multiset{w}, multiset{}, {}, k, w);
  }

  class Ftable {
    var files: Files
    var slots: seq<int>
    var pipes: Pipes
    var free: seq<nat>
    var irefs: multiset<nat>
    ghost const pages: set<nat>

    ghost function S(): Sys
      reads this
    {
      Sys(files, slots, pipes, free, irefs)
    }

    ghost predicate Holding(hand: multiset<int>, blank: set<int>)
      reads this
    {
      Inv(S(), pages, hand, blank)
    }

    /** What holds between system calls. */
    ghost predicate Valid()
      reads this
    {
      Holding(multiset{}, {})
    }

    constructor (free: seq<nat>)
      requires forall i, j :: 0 <= i < j < |free| ==> free[i] != free[j]
      ensures Valid() && this.free == free && pipes == map[]
    {
      hide Inv, Blank, Empty;
      files := Blank(NFILE);
      slots := Empty(NPROC * NOFILE);
      pipes := map[];
      this.free := free;
      irefs := multiset{};
      pages := set p | p in free;
      new;
      StartOk(free);
    }

    method Filealloc(ghost hand: multiset<int>, ghost blank: set<int>) returns (f: int)
      requires Holding(hand, blank)
      modifies this`files
      ensures f == -1 ==> files == old(files) && forall g :: 0 <= g < NFILE ==> files[g].ref != 0
      ensures f != -1 ==> 0 <= f < NFILE && old(files)[f].ref == 0 && old(files)[f].kind == NoFile
      ensures f != -1 ==> forall g :: 0 <= g < f ==> old(files)[g].ref != 0
      ensures f != -1 ==> files == old(files)[f := old(files)[f].(ref := 1)] && Holding(hand + multiset{f}, blank + {f})
    {
      hide Inv, InodesOf;
      SlotsThere(S(), pages, hand, blank);
      var i := 0;
      while i < |files| && files[i].ref != 0
        invariant 0 <= i <= |files| && files == old(files) && forall g :: 0 <= g < i ==> files[g].ref != 0
      {
        i := i + 1;
      }
      if i == |files| {
        return -1;
      }
      AllocOk(S(), pages, hand, blank, i);
      FreeIsNone(S(), pages, hand, blank, i);
      files := files[i := files[i].(ref := 1)];
      return i;
    }

    /** pipeclose: shuts one end; with both shut the page is freed. */
    method Pipeclose(page: nat, writable: bool)
      requires page in pipes
      modifies this`pipes, this`free
      ensures pipes == PipeShut(old(pipes), page, writable) && free == FreeShut(old(pipes), old(free), page, writable)
    {
      var e := pipes[page];
      if writable {
        e := e.(writeopen := false);
      } else {
        e := e.(readopen := false);
      }
      if !e.readopen && !e.writeopen {
        pipes := pipes - {page};
        free := [page] + free;
      } else {
        pipes := pipes[page := e];
      }
    }

    /** fileclose: gives up a reference; the last one closes the file, and what it was open on. */
    method Fileclose(f: nat)
      requires CanClose(S(), f)
      modifies this`files, this`pipes, this`free, this`irefs
      ensures S() == Closed(old(S()), f) && GaveUp(old(files), files, f)
    {
      var file := files[f];
      if file.ref > 1 {
        files := files[f := file.(ref := file.ref - 1)];
        return;
      }
      files := files[f := file.(ref := 0, kind := NoFile)];
      if file.kind.OnPipe? {
        Pipeclose(file.kind.page, file.writable);
      } else if file.kind.OnInode? {
        irefs := irefs - multiset{file.kind.ip};
      }
    }

    /** fdalloc: the lowest free descriptor takes over the reference. */
    method Fdalloc(p: nat, f: nat) returns (fd: int)
      requires p < NPROC && |slots| == NPROC * NOFILE
      modifies this`slots
      ensures fd == -1 ==> slots == old(slots) && NoneFree(slots, p)
      ensures fd != -1 ==> LowestFree(old(slots), p, fd) && slots == old(slots)[At(p, fd) := f]
    {
      var i := 0;
      while i < NOFILE && slots[At(p, i)] != -1
        invariant 0 <= i <= NOFILE && slots == old(slots) && forall j :: 0 <= j < i ==> slots[At(p, j)] != -1
      {
        i := i + 1;
      }
      if i == NOFILE {
        return -1;
      }
      slots := slots[At(p, i) := f];
      return i;
    }

    method SysDup(p: nat, fd: int) returns (r: int)
      requires Valid() && p < NPROC
      modifies this`files, this`slots
      ensures Valid() && |slots| == |old(slots)| == NPROC * NOFILE
      ensures r == -1 ==> slots == old(slots) && files == old(files)
      ensures r == -1 <==> !(0 <= fd < NOFILE) || old(slots)[At(p, fd)] == -1 || NoneFree(old(slots), p)
      ensures r != -1 ==> LowestFree(old(slots), p, r) && slots == old(slots)[At(p, r) := old(slots)[At(p, fd)]]
      ensures r != -1 ==>
                var f := old(slots)[At(p, fd)];
                0 <= f < |old(files)| && files == old(files)[f := old(files)[f].(ref := old(files)[f].ref + 1)]
    {
      hide Inv, InodesOf;
      SlotsThere(S(), pages, multiset{}, {});
      if fd < 0 || fd >= NOFILE || slots[At(p, fd)] == -1 {
        return -1;
      }
      var f := slots[At(p, fd)];
      ghost var s0 := S();
      r := Fdalloc(p, f);
      if r == -1 {
        return;
      }
      DupOk(s0, pages, multiset{}, {}, f, At(p, r));
      files := Bumped(files, f);
    }

    /** A descriptor is cleared and its file closed. */
    method CloseSlot(k: nat)
      requires Valid() && k < |slots| && slots[k] != -1
      modifies this`files, this`slots, this`pipes, this`free, this`irefs
      ensures Valid() && slots == old(slots)[k := -1] && Kept(old(files), files)
      ensures old(slots)[k] >= 0 && GaveUp(old(files), files, old(slots)[k])
    {
      hide Inv, InodesOf;
      SlotsThere(S(), pages, multiset{}, {});
      var f: nat := slots[k];
      ghost var s1 := S().(slots := slots[k := -1]);
      MoveOk(S(), pages, multiset{}, multiset{f}, {}, k, -1);
      CloseOk(s1, pages, multiset{f}, {}, f);
      assert multiset{f} - multiset{f} == multiset{};
      slots := slots[k := -1];
      Fileclose(f);
    }

    method SysClose(p: nat, fd: int) returns (r: int)
      requires Valid() && p < NPROC
      modifies this`files, this`slots, this`pipes, this`free, this`irefs
      ensures Valid() && |slots| == |old(slots)| == NPROC * NOFILE
      ensures r == -1 ==> S() == old(S())
      ensures r == -1 <==> !(0 <= fd < NOFILE) || old(slots)[At(p, fd)] == -1
      ensures r != -1 ==> slots == old(slots)[At(p, fd) := -1] && Kept(old(files), files)
      ensures r != -1 ==> old(slots)[At(p, fd)] >= 0 && GaveUp(old(files), files, old(slots)[At(p, fd)])
    {
      hide Inv, InodesOf, Closed;
      SlotsThere(S(), pages, multiset{}, {});
      if fd < 0 || fd >= NOFILE || slots[At(p, fd)] == -1 {
        return -1;
      }
      CloseSlot(At(p, fd));
      return 0;
    }

    /** open, once the inode is found: a file on it, with the lowest free descriptor; or nothing, and
        the inode is put back. */
    method SysOpen(p: nat, ip: nat, readable: bool, writable: bool) returns (r: int, ghost f: int)
      requires Valid() && p < NPROC
      modifies this
      ensures Valid() && |old(slots)| == NPROC * NOFILE && |old(files)| == NFILE
      ensures r == -1 ==> S() == old(S())
      ensures r == -1 <==> NoneFree(old(slots), p) || forall g :: 0 <= g < NFILE ==> old(files)[g].ref != 0
      ensures r != -1 ==> LowestFree(old(slots), p, r) && 0 <= f < NFILE && old(files)[f].ref == 0
      ensures r != -1 ==> forall g :: 0 <= g < f ==> old(files)[g].ref != 0
      ensures r != -1 ==>
                S() == Sys(old(files)[f := File(1, OnInode(ip), readable, writable, 0)], old(slots)[At(p, r) := f],
                           old(pipes), old(free), old(irefs) + multiset{ip})
    {
      hide Inv, InodesOf;
      SlotsThere(S(), pages, multiset{}, {});
      ghost var s0 := S();
      var g := Filealloc(multiset{}, {});
      f := g;
      if g == -1 {
        return -1, -1;
      }
      assert multiset{} + multiset{g} == multiset{g} && {} + {g} == {g};
      ghost var s1 := S();
      r := Fdalloc(p, g);
      if r == -1 {
        Fileclose(g);
        assert S() == s0;
        return;
      }
      OpenOk(s0, s1, pages, At(p, r), g, ip, readable, writable);
      irefs := irefs + multiset{ip};
      files := files[g := File(files[g].ref, OnInode(ip), readable, writable, 0)];
    }

    /** pipealloc: two files on a new pipe, both in hand; or nothing. */
    method Pipealloc() returns (r: int, w: int)
      requires Valid()
      modifies this
      ensures slots == old(slots) && irefs == old(irefs) && |files| == |old(files)| == NFILE
      ensures r == -1 ==> S() == old(S()) && Valid()
      ensures r == -1 <==> old(free) == [] || !TwoFree(old(files))
      ensures r != -1 ==> 0 <= r < NFILE && 0 <= w < NFILE && r != w && old(files)[r].ref == 0 && old(files)[w].ref == 0
      ensures r != -1 ==> S() == Piped(TwoTaken(old(S()), r, w), r, w) && Holding(multiset{r, w}, {})
      ensures r != -1 ==> NewPipe(old(S()), S(), r, w)
      ensures r != -1 ==> r < w && forall g :: 0 <= g < w && g != r ==> old(files)[g].ref != 0
    {
      hide Inv, InodesOf, Closed, CanClose, TwoFree;
      SlotsThere(S(), pages, multiset{}, {});
      ghost var s0 := S();
      r := Filealloc(multiset{}, {});
      w := -1;
      if r == -1 {
        NoneIsNotTwo(files);
        return;
      }
      assert multiset{} + multiset{r} == multiset{r} && {} + {r} == {r};
      GiveBack(s0, r);
      w := Filealloc(multiset{r}, {r});
      if w == -1 {
        OneLeft(s0.files, files, r);
        Fileclose(r);
        return -1, -1;
      }
      assert multiset{r} + multiset{w} == multiset{r, w} && {r} + {w} == {r, w};
      assert S() == TwoTaken(s0, r, w);
      TwoAre(s0.files, r, w);
      if free == [] {
        GiveBackTwo(s0, r, w);
        Fileclose(r);
        Fileclose(w);
        return -1, -1;
      }
      OnPipeOk(S(), pages, multiset{r, w}, {r, w}, r, w);
      assert {r, w} - {r, w} == {};
      var page := free[0];
      free := free[1..];
      pipes := pipes[page := Ends(true, true)];
      files := files[r := files[r].(kind := OnPipe(page), readable := true, writable := false)];
      files := files[w := files[w].(kind := OnPipe(page), readable := false, writable := true)];
    }

    /** pipe: a descriptor for each end; or nothing, and the page is free again. */
    method SysPipe(p: nat) returns (fd0: int, fd1: int, ghost r: int, ghost w: int)
      requires Valid() && p < NPROC
      modifies this
      ensures Valid() && |old(slots)| == |slots| == NPROC * NOFILE && |old(files)| == NFILE
      ensures fd0 == -1 <==> old(free) == [] || !TwoFree(old(files)) || !TwoDescriptors(old(slots), p)
      ensures fd0 == -1 ==>
                && slots == old(slots) && pipes == old(pipes) && free == old(free) && irefs == old(irefs)
                && SameFiles(old(files), files)
      ensures fd0 != -1 ==> LowestFree(old(slots), p, fd0) && 0 <= r < NFILE && 0 <= w < NFILE && r != w
      ensures fd0 != -1 ==>
                && old(files)[r].ref == 0 && old(files)[w].ref == 0
                && fd0 < fd1 && LowestFree(old(slots)[At(p, fd0) := r], p, fd1)
      ensures fd0 != -1 ==>
                && S() == Piped(TwoTaken(old(S()), r, w), r, w).(slots := old(slots)[At(p, fd0) := r][At(p, fd1) := w])
                && NewPipe(old(S()), S(), r, w) && slots == old(slots)[At(p, fd0) := r][At(p, fd1) := w]
    {
      hide Inv, InodesOf, TwoFree;
      SlotsThere(S(), pages, multiset{}, {});
      ghost var s0 := S();
      var rf, wf := Pipealloc();
      r, w, fd1 := rf, wf, -1;
      if rf == -1 {
        return -1, -1, r, w;
      }
      ghost var s1 := S();
      fd0 := Fdalloc(p, rf);
      if fd0 != -1 {
        fd1 := Fdalloc(p, wf);
      }
      TwoSlots(s0.slots, p, fd0, fd1, rf);
      if fd1 == -1 {
        if fd0 != -1 {
          slots := slots[At(p, fd0) := -1];
        }
        assert slots == s0.slots;
        Fileclose(rf);
        Fileclose(wf);
        Unpiped(s0, s1, S(), pages, rf, wf);
        return -1, -1, r, w;
      }
      PipeDone(s1, pages, At(p, fd0), At(p, fd1), rf, wf);
    }

    /** fork: the child names every file the parent does. */
    method ForkFiles(cur: nat, np: nat)
      requires Valid() && cur < NPROC && np < NPROC && cur != np
      requires |slots| == NPROC * NOFILE && forall i :: 0 <= i < NOFILE ==> slots[At(np, i)] == -1
      modifies this`files, this`slots
      ensures Valid() && |slots| == NPROC * NOFILE
      ensures forall i :: 0 <= i < NOFILE ==> slots[At(np, i)] == old(slots)[At(cur, i)]
      ensures forall k :: 0 <= k < |slots| && !(At(np, 0) <= k < At(np, NOFILE)) ==> slots[k] == old(slots)[k]
      ensures OnlyRefs(old(files), files)
    {
      hide Inv, InodesOf;
      var i := 0;
      while i < NOFILE
        invariant 0 <= i <= NOFILE && Valid() && |slots| == NPROC * NOFILE && OnlyRefs(old(files), files)
        invariant forall j :: 0 <= j < NOFILE ==> slots[At(np, j)] == if j < i then old(slots)[At(cur, j)] else -1
        invariant forall k :: 0 <= k < |slots| && !(At(np, 0) <= k < At(np, NOFILE)) ==> slots[k] == old(slots)[k]
      {
        SlotsThere(S(), pages, multiset{}, {});
        var f := slots[At(cur, i)];
        if f != -1 {
          DupOk(S(), pages, multiset{}, {}, f, At(np, i));
          files := Bumped(files, f);
          slots := slots[At(np, i) := f];
        }
        i := i + 1;
      }
    }

    /** exit: every descriptor of the process is closed. */
    method ExitFiles(cur: nat)
      requires Valid() && cur < NPROC
      modifies this`files, this`slots, this`pipes, this`free, this`irefs
      ensures Valid() && |slots| == |old(slots)| == NPROC * NOFILE
      ensures forall k :: 0 <= k < |slots| ==>
                slots[k] == if At(cur, 0) <= k < At(cur, NOFILE) then -1 else old(slots)[k]
      ensures Kept(old(files), files)
    {
      hide Inv, InodesOf;
      SlotsThere(S(), pages, multiset{}, {});
      var fd := 0;
      while fd < NOFILE
        invariant 0 <= fd <= NOFILE && Valid() && |slots| == NPROC * NOFILE && Kept(old(files), files)
        invariant forall k :: 0 <= k < |slots| ==>
                    slots[k] == if At(cur, 0) <= k < At(cur, fd) then -1 else old(slots)[k]
      {
        if slots[At(cur, fd)] != -1 {
          CloseSlot(At(cur, fd));
        }
        fd := fd + 1;
      }
    }
  }
}
