/** Directories as maps from names, and path names as lists of components: fs.c, sysfile.c.

    A directory is a file of 16-byte entries: an inode number in two bytes, zero in a free
    slot, and a name of up to 14 bytes, filled up with zeroes.
 */
module Directory {
  import opened Blocks
  import opened Files
  import Ownership

  const DIRSIZ: nat := 14

  datatype Dirent = Dirent(inum: nat, name: seq<Byte>)

  type Name = seq<Byte>

  /** How dirlink ends: done, the name is bound already, or the panic of a directory that cannot grow. */
  datatype Link = Linked | Exists | NoRoom

  // ---- names ----

  /** What counts of a name: up to the first zero, and at most n bytes. */
  function Prefix(s: seq<Byte>, n: nat): (k: Name)
    ensures |k| <= n && |k| <= |s|
  {
    if n == 0 || s == [] || s[0] == 0 then [] else [s[0]] + Prefix(s[1..], n - 1)
  }

  function Key(s: seq<Byte>): Name {
    Prefix(s, DIRSIZ)
  }

  /** A name in memory: a terminated string, or at least DIRSIZ bytes. */
  predicate IsName(s: seq<Byte>) {
    |s| >= DIRSIZ || 0 in s
  }

  /** What Prefix means, byte by byte. */
  lemma {:induction false} PrefixIs(s: seq<Byte>, n: nat)
    ensures var k := Prefix(s, n);
            && k == s[..|k|] && 0 !in k
            && (|k| == n || |k| == |s| || s[|k|] == 0)
  {
    if n > 0 && s != [] && s[0] != 0 {
      PrefixIs(s[1..], n - 1);
      assert s[1..][|Prefix(s[1..], n - 1)|..] == s[|Prefix(s, n)|..];
    }
  }

  /** ... and that nothing else has that meaning. */
  lemma PrefixUnique(s: seq<Byte>, n: nat, j: nat)
    requires j <= n && j <= |s| && (forall i :: 0 <= i < j ==> s[i] != 0) && (j == n || j == |s| || s[j] == 0)
    ensures Prefix(s, n) == s[..j]
  {
    PrefixIs(s, n);
    assert |Prefix(s, n)| == j;
  }

  lemma NameThere(p: seq<Byte>, i: nat)
    requires IsName(p) && i <= |p| && forall j :: 0 <= j < i ==> p[j] != 0
    ensures i < DIRSIZ ==> i < |p|
  {
  }

  lemma SameKey(p: seq<Byte>, q: seq<Byte>, i: nat, same: bool)
    requires i <= DIRSIZ && i <= |p| && i <= |q| && forall j :: 0 <= j < i ==> p[j] == q[j] && p[j] != 0
    requires i == DIRSIZ || (i < |p| && i < |q| && (p[i] == 0 || p[i] != q[i]))
    requires same <==> i == DIRSIZ || p[i] == q[i]
    ensures same <==> Key(p) == Key(q)
  {
    PrefixIs(p, DIRSIZ);
    PrefixIs(q, DIRSIZ);
    if same {
      PrefixUnique(p, DIRSIZ, i);
      PrefixUnique(q, DIRSIZ, i);
      assert p[..i] == q[..i];
    }
  }

  /** namecmp: do two names agree? */
  method Namecmp(p: seq<Byte>, q: seq<Byte>) returns (same: bool)
    requires IsName(p) && IsName(q)
    ensures same <==> Key(p) == Key(q)
  {
    var i := 0;
    while i < DIRSIZ && p[i] != 0 && p[i] == q[i]
      invariant 0 <= i <= DIRSIZ && i <= |p| && i <= |q|
      invariant forall j :: 0 <= j < i ==> p[j] == q[j] && p[j] != 0
      invariant i < DIRSIZ ==> i < |p| && i < |q|
      decreases DIRSIZ - i
    {
      i := i + 1;
      NameThere(p, i);
      NameThere(q, i);
    }
    same := i == DIRSIZ || p[i] == q[i];
    SameKey(p, q, i, same);
  }

  /** strncpy into a name field: the name, filled up with zeroes. */
  method NameField(name: seq<Byte>) returns (f: seq<Byte>)
    requires IsName(name)
    ensures |f| == DIRSIZ && Key(f) == Key(name) && forall i :: |Key(name)| <= i < DIRSIZ ==> f[i] == 0
  {
    f := [];
    PrefixIs(name, DIRSIZ);
    while |f| < DIRSIZ && name[|f|] != 0
      invariant |f| <= DIRSIZ && |f| <= |name| && f == name[..|f|] && (forall i :: 0 <= i < |f| ==> f[i] != 0)
      invariant |f| < DIRSIZ ==> |f| < |name|
      decreases DIRSIZ - |f|
    {
      f := f + [name[|f|]];
      NameThere(name, |f|);
    }
    ghost var k := |f|;
    PrefixUnique(name, DIRSIZ, k);
    ghost var f0 := f;
    while |f| < DIRSIZ
      invariant k <= |f| <= DIRSIZ && f[..k] == f0 && forall i :: k <= i < |f| ==> f[i] == 0
    {
      f := f + [0];
    }
    PrefixUnique(f, DIRSIZ, k);
  }

  // ---- entries ----

  function EntryAt(b: seq<Byte>, k: nat): (e: Dirent)
    requires 16 * k + 16 <= |b|
    ensures |e.name| == DIRSIZ
  {
    var low: int, high: int := b[16 * k], b[16 * k + 1];
    Dirent(low + 256 * high, b[16 * k + 2..16 * k + 16])
  }

  function EntriesUpTo(b: seq<Byte>, n: nat): (es: seq<Dirent>)
    requires 16 * n <= |b|
    ensures |es| == n && forall k :: 0 <= k < n ==> es[k] == EntryAt(b, k)
  {
    if n == 0 then [] else EntriesUpTo(b, n - 1) + [EntryAt(b, n - 1)]
  }

  function Entries(b: seq<Byte>): (es: seq<Dirent>)
    ensures |es| == |b| / 16 && forall k :: 0 <= k < |es| ==> es[k] == EntryAt(b, k)
  {
    EntriesUpTo(b, |b| / 16)
  }

  /** The bytes of an entry; the inode number is cut to sixteen bits. */
  function Encode(e: Dirent): (b: seq<Byte>)
    requires |e.name| == DIRSIZ
    ensures |b| == 16
  {
    [e.inum % 256, e.inum / 256 % 256] + e.name
  }

  /** The entries after one is written: one slot changes, or one is added. */
  function Stored(es: seq<Dirent>, k: nat, e: Dirent): seq<Dirent>
    requires k <= |es|
  {
    if k < |es| then es[k := e] else es + [e]
  }

  lemma CutSixteen(x: nat)
    ensures x % 256 + 256 * (x / 256 % 256) == x % 65536
  {
    var y := x / 256;
    var z := y / 256;
    assert x == 256 * y + x % 256 && y == 256 * z + y % 256;
    assert x == 65536 * z + (256 * (y % 256) + x % 256);
  }

  lemma EncodeDecodes(e: Dirent, b: seq<Byte>, k: nat)
    requires |e.name| == DIRSIZ && 16 * k + 16 <= |b| && b[16 * k..16 * k + 16] == Encode(e)
    ensures EntryAt(b, k) == Dirent(e.inum % 65536, e.name)
  {
    var v := b[16 * k..16 * k + 16];
    assert v[0] == b[16 * k] && v[1] == b[16 * k + 1] && v[2..16] == b[16 * k + 2..16 * k + 16];
    assert v[2..16] == e.name;
    CutSixteen(e.inum);
  }

  lemma EntryFrame(b: seq<Byte>, c: seq<Byte>, k: nat)
    requires 16 * k + 16 <= |b| && 16 * k + 16 <= |c| && b[16 * k..16 * k + 16] == c[16 * k..16 * k + 16]
    ensures EntryAt(c, k) == EntryAt(b, k)
  {
    var v, w := b[16 * k..16 * k + 16], c[16 * k..16 * k + 16];
    assert v[0] == b[16 * k] && v[1] == b[16 * k + 1] && v[2..16] == b[16 * k + 2..16 * k + 16];
    assert w[0] == c[16 * k] && w[1] == c[16 * k + 1] && w[2..16] == c[16 * k + 2..16 * k + 16];
  }

  /** Where an entry lies: sixteen bytes each, the inode number in the first two and then the name. */
  lemma EntryPlace(b: seq<Byte>, k: nat, e: Dirent)
    requires 16 * k <= |b| && |e.name| == DIRSIZ
    ensures var c := Splice(b, 16 * k, Encode(e));
            16 * k + 16 <= |c| && Short(c, 16 * k) == e.inum % 65536 && c[16 * k + 2..16 * k + 16] == e.name
  {
    CutSixteen(e.inum);
  }

  /** Writing an entry's bytes changes that entry and no other. */
  lemma WriteEntry(b: seq<Byte>, k: nat, e: Dirent)
    requires |b| % 16 == 0 && 16 * k <= |b| && |e.name| == DIRSIZ
    ensures Entries(Splice(b, 16 * k, Encode(e))) == Stored(Entries(b), k, Dirent(e.inum % 65536, e.name))
    ensures |Splice(b, 16 * k, Encode(e))| % 16 == 0
  {
    hide EntryAt, Encode, EntriesUpTo;
    var c, es := Splice(b, 16 * k, Encode(e)), Entries(b);
    var want := Stored(es, k, Dirent(e.inum % 65536, e.name));
    assert |c| == if 16 * k == |b| then |b| + 16 else |b|;
    assert c[16 * k..16 * k + 16] == Encode(e);
    EncodeDecodes(e, c, k);
    forall j | 0 <= j < |c| / 16
      ensures Entries(c)[j] == want[j]
    {
      if j != k {
        assert c[16 * j..16 * j + 16] == b[16 * j..16 * j + 16];
        EntryFrame(b, c, j);
      }
    }
  }

  // ---- what a directory means ----

  /** Slot i binds name n. */
  predicate Holds(es: seq<Dirent>, i: int, n: Name) {
    0 <= i < |es| && es[i].inum != 0 && Key(es[i].name) == n
  }

  ghost predicate IsView(es: seq<Dirent>, m: map<Name, nat>) {
    && (forall i, n :: Holds(es, i, n) ==> n in m && m[n] == es[i].inum)
    && (forall n :: n in m ==> exists i :: Holds(es, i, n))
  }

  ghost predicate Distinct(es: seq<Dirent>) {
    forall i, j, n :: Holds(es, i, n) && Holds(es, j, n) ==> i == j
  }

  /** A directory has one meaning. */
  lemma ViewUnique(es: seq<Dirent>, m: map<Name, nat>, m': map<Name, nat>)
    requires IsView(es, m) && IsView(es, m')
    ensures m == m'
  {
    hide Key;
  }

  /** A binding stored in a free slot, or at the end. */
  lemma BindOk(es: seq<Dirent>, m: map<Name, nat>, k: nat, e: Dirent)
    requires IsView(es, m) && Distinct(es) && k <= |es| && (k < |es| ==> es[k].inum == 0) && Key(e.name) !in m
    ensures var m' := if e.inum == 0 then m else m[Key(e.name) := e.inum];
            IsView(Stored(es, k, e), m') && Distinct(Stored(es, k, e))
  {
    hide Key;
    var es', n := Stored(es, k, e), Key(e.name);
    var m' := if e.inum == 0 then m else m[n := e.inum];
    forall i, x | Holds(es', i, x)
      ensures if i == k then x == n && e.inum != 0 else Holds(es, i, x)
    {
    }
    forall x | x in m'
      ensures exists i :: Holds(es', i, x)
    {
      if x == n && e.inum != 0 {
        assert Holds(es', k, x);
      } else {
        var i :| Holds(es, i, x);
        assert Holds(es', i, x);
      }
    }
  }

  /** A binding taken away. */
  lemma UnbindOk(es: seq<Dirent>, m: map<Name, nat>, k: nat, e: Dirent, n: Name)
    requires IsView(es, m) && Distinct(es) && Holds(es, k, n) && e.inum == 0
    ensures IsView(Stored(es, k, e), m - {n}) && Distinct(Stored(es, k, e))
  {
    hide Key;
    var es' := Stored(es, k, e);
    forall i, x | Holds(es', i, x)
      ensures Holds(es, i, x) && i != k
    {
    }
    forall x | x in m - {n}
      ensures exists i :: Holds(es', i, x)
    {
      var i :| Holds(es, i, x);
      assert Holds(es', i, x);
    }
  }

  function NoName(): (s: seq<Byte>)
    ensures |s| == DIRSIZ && forall i :: 0 <= i < DIRSIZ ==> s[i] == 0
  {
    [0, 0, 0, 0, 0, 0, 0, 0, 0, 0, 0, 0, 0, 0]
  }

  lemma NamesAre(de: Dirent)
    requires |de.name| == DIRSIZ
    ensures IsName(de.name)
  {
  }

  /** Only slot k may differ, or be new. */
  ghost predicate OneSlot(es: seq<Dirent>, es': seq<Dirent>, k: nat) {
    && k <= |es| && |es'| == (if k == |es| then |es| + 1 else |es|)
    && (forall i :: 0 <= i < |es| && i != k ==> es'[i] == es[i])
  }

  /** An entry written for a name: it is the name, filled up with zeroes. */
  ghost predicate Spells(e: Dirent, inum: nat, n: Name) {
    && e.inum == inum && |e.name| == DIRSIZ && Key(e.name) == n
    && forall i :: |n| <= i < DIRSIZ ==> e.name[i] == 0
  }

  ghost predicate FirstFree(es: seq<Dirent>, k: nat) {
    k <= |es| && (forall i :: 0 <= i < k ==> es[i].inum != 0) && (k < |es| ==> es[k].inum == 0)
  }

  lemma OneFirst(es: seq<Dirent>, j: nat, k: nat)
    requires FirstFree(es, j) && FirstFree(es, k)
    ensures j == k
  {
  }

  class Dir {
    var bytes: seq<Byte>
    ghost var names: map<Name, nat>

    ghost predicate Valid()
      reads this
    {
      && |bytes| % 16 == 0 && |bytes| <= Ownership.MAXBYTES
      && IsView(Entries(bytes), names) && Distinct(Entries(bytes))
    }

    /** A new directory. */
    constructor ()
      ensures Valid() && bytes == [] && names == map[]
    {
      bytes, names := [], map[];
    }

    /** readi of one entry. */
    method ReadEntry(k: nat) returns (de: Dirent)
      requires 16 * k + 16 <= |bytes|
      ensures k < |Entries(bytes)| && de == Entries(bytes)[k] && |de.name| == DIRSIZ
    {
      de := EntryAt(bytes, k);
    }

    /** dirlookup: the inode number bound to a name and where, or 0. */
    method Dirlookup(name: seq<Byte>) returns (inum: nat, off: nat)
      requires Valid() && IsName(name)
      ensures inum != 0 <==> Key(name) in names
      ensures inum != 0 ==> inum == names[Key(name)] && off % 16 == 0 && Holds(Entries(bytes), off / 16, Key(name))
    {
      hide Key, EntriesUpTo, EntryAt, Entries;
      ghost var es := Entries(bytes);
      off := 0;
      while off < |bytes|
        invariant off % 16 == 0 && off <= |bytes|
        invariant forall i :: 0 <= i < off / 16 ==> !Holds(es, i, Key(name))
      {
        var de := ReadEntry(off / 16);
        if de.inum != 0 {
          NamesAre(de);
          var same := Namecmp(name, de.name);
          if same {
            assert Holds(es, off / 16, Key(name));
            return de.inum, off;
          }
        }
        off := off + 16;
      }
      return 0, off;
    }

    /** writei of one entry. */
    method WriteEntryAt(k: nat, e: Dirent)
      requires |bytes| % 16 == 0 && 16 * k <= |bytes| && |e.name| == DIRSIZ
      modifies this`bytes
      ensures |bytes| % 16 == 0 && Entries(bytes) == Stored(old(Entries(bytes)), k, Dirent(e.inum % 65536, e.name))
      ensures |bytes| == if 16 * k == |old(bytes)| then |old(bytes)| + 16 else |old(bytes)|
    {
      WriteEntry(bytes, k, e);
      bytes := Splice(bytes, 16 * k, Encode(e));
    }

    /** The first free slot, or the end. */
    method FreeSlot() returns (off: nat)
      requires |bytes| % 16 == 0
      ensures off % 16 == 0 && off <= |bytes| && FirstFree(Entries(bytes), off / 16)
    {
      hide EntriesUpTo, EntryAt, Entries;
      ghost var es := Entries(bytes);
      off := 0;
      while off < |bytes|
        invariant off % 16 == 0 && off <= |bytes|
        invariant forall i :: 0 <= i < off / 16 ==> es[i].inum != 0
      {
        var de := ReadEntry(off / 16);
        if de.inum == 0 {
          break;
        }
        off := off + 16;
      }
    }

    /** dirlink: binds a new name, or refuses one that is bound. */
    method Dirlink(name: seq<Byte>, inum: nat) returns (r: Link)
      requires Valid() && IsName(name)
      modifies this
      ensures Valid() && (r == Exists <==> Key(name) in old(names))
      ensures r == NoRoom <==>
                && Key(name) !in old(names) && |old(bytes)| + 16 > Ownership.MAXBYTES
                && forall k :: 0 <= k < |old(Entries(bytes))| ==> old(Entries(bytes))[k].inum != 0
      ensures r != Linked ==> bytes == old(bytes) && names == old(names)
      ensures r == Linked ==>
                names == if inum % 65536 == 0 then old(names) else old(names)[Key(name) := inum % 65536]
      ensures r == Linked ==>
                forall k: nat :: FirstFree(old(Entries(bytes)), k) ==>
                              && OneSlot(old(Entries(bytes)), Entries(bytes), k)
                              && k < |Entries(bytes)| && Spells(Entries(bytes)[k], inum % 65536, Key(name))
    {
      hide Key, EntriesUpTo, EntryAt, Entries, IsView, Distinct;
      var found, _ := Dirlookup(name);
      if found != 0 {
        return Exists;
      }
      ghost var es := Entries(bytes);
      var off := FreeSlot();
      if off + 16 > Ownership.MAXBYTES {
        return NoRoom;
      }
      var field := NameField(name);
      var k := off / 16;
      BindOk(es, names, k, Dirent(inum % 65536, field));
      WriteEntryAt(k, Dirent(inum, field));
      names := if inum % 65536 == 0 then names else names[Key(name) := inum % 65536];
      assert OneSlot(es, Entries(bytes), k) && Spells(Entries(bytes)[k], inum % 65536, Key(name));
      forall j: nat | FirstFree(es, j)
        ensures j == k
      {
        OneFirst(es, j, k);
      }
      return Linked;
    }

    /** The step of unlink that clears an entry. */
    method Clear(off: nat, ghost n: Name)
      requires Valid() && off % 16 == 0 && Holds(Entries(bytes), off / 16, n)
      modifies this
      ensures Valid() && names == old(names) - {n} && |bytes| == |old(bytes)|
      ensures OneSlot(old(Entries(bytes)), Entries(bytes), off / 16)
      ensures Entries(bytes)[off / 16] == Dirent(0, seq(DIRSIZ, _ => 0))
    {
      hide Key, EntriesUpTo, EntryAt, Entries, IsView, Distinct;
      UnbindOk(Entries(bytes), names, off / 16, Dirent(0, NoName()), n);
      WriteEntryAt(off / 16, Dirent(0, NoName()));
      names := names - {n};
      assert NoName() == seq(DIRSIZ, _ => 0);
    }
  }

  // ---- paths ----

  const SLASH: Byte := 47

  /** Where the first slash is, or the length. */
  function SlashAt(p: seq<Byte>): (i: nat)
    ensures i <= |p| && (i < |p| ==> p[i] == SLASH) && forall j :: 0 <= j < i ==> p[j] != SLASH
  {
    if p == [] || p[0] == SLASH then 0 else 1 + SlashAt(p[1..])
  }

  /** The path cut at every slash. */
  function Pieces(p: seq<Byte>): seq<seq<Byte>> {
    var i := SlashAt(p);
    if i == |p| then [p] else [p[..i]] + Pieces(p[i + 1..])
  }

  function NonEmpty(ps: seq<seq<Byte>>): (r: seq<seq<Byte>>)
    ensures forall i :: 0 <= i < |r| ==> r[i] != []
  {
    if ps == [] then [] else (if ps[0] == [] then [] else [ps[0]]) + NonEmpty(ps[1..])
  }

  /** The components of a path: what stands between slashes and is not empty. */
  function Components(p: seq<Byte>): seq<seq<Byte>> {
    NonEmpty(Pieces(p))
  }

  lemma SlashSkipped(p: seq<Byte>)
    requires p != [] && p[0] == SLASH
    ensures Components(p) == Components(p[1..])
  {
    assert SlashAt(p) == 0 && p[..0] == [];
    assert Pieces(p) == [[]] + Pieces(p[1..]);
    assert Pieces(p)[1..] == Pieces(p[1..]);
  }

  lemma ElemTaken(p: seq<Byte>, e: nat)
    requires 0 < e <= |p| && (forall j :: 0 <= j < e ==> p[j] != SLASH) && (e < |p| ==> p[e] == SLASH)
    ensures Components(p) == [p[..e]] + Components(p[e..])
  {
    assert SlashAt(p) == e;
    if e == |p| {
      assert p[..e] == p && p[e..] == [] && Pieces(p) == [p] && Pieces(p[e..]) == [[]];
      assert NonEmpty([p]) == [p] && NonEmpty([[]]) == [];
    } else {
      SlashSkipped(p[e..]);
      assert p[e..][1..] == p[e + 1..];
      assert Pieces(p) == [p[..e]] + Pieces(p[e + 1..]);
      assert Pieces(p)[1..] == Pieces(p[e + 1..]);
    }
  }

  function Join(cs: seq<seq<Byte>>): seq<Byte> {
    if cs == [] then [] else [SLASH] + cs[0] + Join(cs[1..])
  }

  lemma NoComponents()
    ensures Components([]) == []
  {
    assert Pieces([]) == [[]];
  }

  /** Cutting a path into components undoes joining them, for all components that have no slash. */
  lemma {:induction false} JoinSplits(cs: seq<seq<Byte>>)
    requires forall i :: 0 <= i < |cs| ==> cs[i] != [] && SLASH !in cs[i]
    ensures Components(Join(cs)) == cs
  {
    hide Components;
    if cs == [] {
      NoComponents();
    } else {
      var rest := Join(cs[1..]);
      var p, q := Join(cs), cs[0] + rest;
      assert p[1..] == q;
      SlashSkipped(p);
      assert q[..|cs[0]|] == cs[0] && q[|cs[0]|..] == rest;
      ElemTaken(q, |cs[0]|);
      JoinSplits(cs[1..]);
      assert [cs[0]] + cs[1..] == cs;
    }
  }

  method SkipSlashes(path: seq<Byte>) returns (s: seq<Byte>)
    ensures Components(s) == Components(path) && (s != [] ==> s[0] != SLASH) && |s| <= |path|
    ensures 0 !in path ==> 0 !in s
  {
    hide Components;
    s := path;
    while s != [] && s[0] == SLASH
      invariant Components(s) == Components(path) && |s| <= |path| && (0 !in path ==> 0 !in s)
      decreases |s|
    {
      SlashSkipped(s);
      s := s[1..];
    }
  }

  lemma RestEmpty(rest: seq<Byte>)
    requires rest != [] ==> rest[0] != SLASH
    ensures rest == [] <==> Components(rest) == []
  {
    if rest == [] {
      NoComponents();
    } else {
      ElemTaken(rest, SlashAt(rest));
    }
  }

  lemma ElemName(s: seq<Byte>, e: nat, name: seq<Byte>)
    requires 0 < e <= |s| && 0 !in s && name == if e >= DIRSIZ then s[..DIRSIZ] else s[..e] + [0]
    ensures IsName(name) && Key(name) == Key(s[..e])
  {
    var n := if e >= DIRSIZ then DIRSIZ else e;
    assert forall i :: 0 <= i < e ==> s[i] != 0;
    PrefixUnique(s[..e], DIRSIZ, n);
    PrefixUnique(name, DIRSIZ, n);
    assert name[..n] == s[..e][..n];
  }

  /** skipelem: the first component, cut to DIRSIZ, and the path after it. */
  method Skipelem(path: seq<Byte>) returns (found: bool, rest: seq<Byte>, name: seq<Byte>)
    requires 0 !in path
    ensures found <==> Components(path) != []
    ensures found ==> IsName(name) && Key(name) == Key(Components(path)[0])
    ensures found ==> Components(rest) == Components(path)[1..] && (rest == [] <==> Components(rest) == [])
    ensures found ==> |rest| < |path| && 0 !in rest
  {
    hide Components;
    var s := SkipSlashes(path);
    if s == [] {
      NoComponents();
      return false, [], [];
    }
    var e := 0;
    while e < |s| && s[e] != SLASH
      invariant 0 <= e <= |s| && forall j :: 0 <= j < e ==> s[j] != SLASH
    {
      e := e + 1;
    }
    ElemTaken(s, e);
    if e >= DIRSIZ {
      name := s[..DIRSIZ];
    } else {
      name := s[..e] + [0];
    }
    ElemName(s, e, name);
    rest := SkipSlashes(s[e..]);
    RestEmpty(rest);
    return true, rest, name;
  }

  // ---- walking a path ----

  datatype Option<T> = None | Some(value: T)

  type Views = map<nat, map<Name, nat>>

  /** Where a list of components leads, from directory ip on. */
  function Resolve(v: Views, ip: nat, comps: seq<seq<Byte>>): Option<nat>
    decreases |comps|
  {
    if comps == [] then Some(ip)
    else if ip !in v || Key(comps[0]) !in v[ip] then None
    else Resolve(v, v[ip][Key(comps[0])], comps[1..])
  }

  /** The directory that holds, or would hold, the last component. */
  function ResolveParent(v: Views, ip: nat, comps: seq<seq<Byte>>): Option<nat> {
    if comps == [] then None
    else
      var p := Resolve(v, ip, comps[..|comps| - 1]);
      if p.Some? && p.value in v then p else None
  }

  lemma ParentStep(v: Views, ip: nat, comps: seq<seq<Byte>>)
    requires |comps| >= 2
    ensures ResolveParent(v, ip, comps) ==
            if ip !in v || Key(comps[0]) !in v[ip] then None else ResolveParent(v, v[ip][Key(comps[0])], comps[1..])
  {
    hide Key;
    var init, tail := comps[..|comps| - 1], comps[1..];
    assert init[0] == comps[0] && init[1..] == tail[..|tail| - 1];
  }

  function Last<T>(s: seq<T>): T
    requires s != []
  {
    s[|s| - 1]
  }

  lemma NowhereLeft(v: Views, ip: nat)
    ensures Resolve(v, ip, []) == Some(ip) && ResolveParent(v, ip, []) == None
  {
  }

  lemma WalkStep(v: Views, ip: nat, comps: seq<seq<Byte>>)
    requires comps != []
    ensures ip !in v ==> Resolve(v, ip, comps) == None && ResolveParent(v, ip, comps) == None
    ensures ip in v && comps[1..] == [] ==> ResolveParent(v, ip, comps) == Some(ip)
    ensures ip in v && Key(comps[0]) !in v[ip] ==> Resolve(v, ip, comps) == None
    ensures ip in v && comps[1..] != [] && Key(comps[0]) !in v[ip] ==> ResolveParent(v, ip, comps) == None
    ensures ip in v && Key(comps[0]) in v[ip] ==> Resolve(v, ip, comps) == Resolve(v, v[ip][Key(comps[0])], comps[1..])
    ensures ip in v && comps[1..] != [] && Key(comps[0]) in v[ip] ==>
              ResolveParent(v, ip, comps) == ResolveParent(v, v[ip][Key(comps[0])], comps[1..])
  {
    hide Key;
    if |comps| >= 2 {
      ParentStep(v, ip, comps);
    } else {
      assert comps[..|comps| - 1] == [];
    }
  }

  class Tree {
    var dirs: map<nat, Dir>

    ghost predicate Valid()
      reads this, dirs.Values
    {
      forall i :: i in dirs ==> dirs[i].Valid()
    }

    ghost function Names(): Views
      reads this, dirs.Values
    {
      map i | i in dirs :: dirs[i].names
    }

    /** namex: the inode a path leads to; or the one that holds its last component, and that name. */
    method Namex(path: seq<Byte>, root: nat, cwd: nat, parent: bool) returns (r: Option<nat>, name: seq<Byte>)
      requires Valid() && 0 !in path
      ensures var start := if path != [] && path[0] == SLASH then root else cwd;
              r == if parent
                   then ResolveParent(Names(), start, Components(path))
                   else Resolve(Names(), start, Components(path))
      ensures parent && r.Some? ==> Components(path) != [] && Key(name) == Key(Last(Components(path)))
    {
      hide Components, Key, Dir.Valid, Resolve, ResolveParent;
      var ip: nat := if path != [] && path[0] == SLASH then root else cwd;
      ghost var v, start, comps := Names(), ip, Components(path);
      var found, rest;
      found, rest, name := Skipelem(path);
      while found
        invariant (found <==> comps != [])
                  && (comps != [] ==> Components(path) != [] && Last(comps) == Last(Components(path)))
        invariant found ==> IsName(name) && Key(name) == Key(comps[0]) && 0 !in rest
        invariant found ==> Components(rest) == comps[1..] && (rest == [] <==> comps[1..] == [])
        invariant Resolve(v, start, Components(path)) == Resolve(v, ip, comps)
        invariant parent ==> ResolveParent(v, start, Components(path)) == ResolveParent(v, ip, comps)
        decreases |comps|
      {
        WalkStep(v, ip, comps);
        if ip !in dirs {
          return None, name;
        }
        assert ip in v && v[ip] == dirs[ip].names;
        if parent && rest == [] {
          return Some(ip), name;
        }
        var next, _ := dirs[ip].Dirlookup(name);
        if next == 0 {
          return None, name;
        }
        ip := next;
        comps := comps[1..];
        found, rest, name := Skipelem(rest);
      }
      NowhereLeft(v, ip);
      if parent {
        return None, name;
      }
      return Some(ip), name;
    }
  }
}
