/** The lottery scheduler of proc.c: a linear congruential generator modulo 2^31 and a
    prefix-sum draw over the runnable processes.

    The generator has full period, so over 2^31 consecutive draws every process wins in
    proportion to its tickets, up to rounding.
 */
module Lottery {
  import opened Blocks
  import opened Params
  import opened Sets

  const M: int := 0x8000_0000       // RAND_MAX + 1
  const INT_MAX: int := 0x7fff_ffff

  /** Two's complement 32-bit wrap-around of int arithmetic. */
  function Wrap32(x: int): (y: int)
    ensures -M <= y < M && (-M <= x < M ==> y == x)
  {
    (x + 0x8000_0000) % 0x1_0000_0000 - 0x8000_0000
  }

  lemma WrapAdd(x: int, y: int)
    ensures Wrap32(Wrap32(x) + y) == Wrap32(x + y)
  {
    var k := (x + 0x8000_0000) / 0x1_0000_0000;
    assert Wrap32(x) == x - k * 0x1_0000_0000;
    assert (x + y + 0x8000_0000 - k * 0x1_0000_0000) % 0x1_0000_0000 == (x + y + 0x8000_0000) % 0x1_0000_0000;
  }

  // ---- the generator ----

  /** One call of random(): `(rseed * 1103515245 + 12345) & RAND_MAX` in 32-bit arithmetic. */
  function Random(seed: int): (r: int)
    ensures 0 <= r < M
  {
    Wrap32(Wrap32(seed * 1103515245) + 12345) % 0x8000_0000
  }

  lemma ModShift(x: int, k: int)
    ensures (x - k * 0x8000_0000) % 0x8000_0000 == x % 0x8000_0000
  {
  }

  lemma WrapMod(y: int)
    ensures Wrap32(y) % 0x8000_0000 == y % 0x8000_0000
  {
    var k := (y + 0x8000_0000) / 0x1_0000_0000;
    assert Wrap32(y) == y - (2 * k) * 0x8000_0000;
    ModShift(y, 2 * k);
  }

  /** Wrapping at 32 bits does not disturb the low 31. */
  lemma RandomIsAffine(seed: int)
    ensures Random(seed) == (1103515245 * seed + 12345) % 0x8000_0000
  {
    hide Wrap32;
    WrapAdd(seed * 1103515245, 12345);
    WrapMod(seed * 1103515245 + 12345);
  }

  /** The value of n successive calls, starting from a seed. */
  function Draws(seed: int, n: nat): (r: int)
    ensures 0 <= seed < M ==> 0 <= r < M
  {
    if n == 0 then seed else Random(Draws(seed, n - 1))
  }

  lemma {:induction false} DrawsCompose(seed: int, m: nat, n: nat)
    ensures Draws(seed, m + n) == Draws(Draws(seed, m), n)
  {
    if n > 0 {
      DrawsCompose(seed, m, n - 1);
    }
  }

  /** The geometric sum 1 + a + ... + a^(n-1) of the multiplier. */
  function Geometric(n: nat): int {
    if n == 0 then 0 else 1103515245 * Geometric(n - 1) + 1
  }

  function Power(n: nat): int {
    if n == 0 then 1 else 1103515245 * Power(n - 1)
  }

  /** The same calls without reduction. */
  function Unreduced(seed: int, n: nat): int {
    if n == 0 then seed else 1103515245 * Unreduced(seed, n - 1) + 12345
  }

  lemma {:induction false} DrawsReduce(seed: int, n: nat)
    requires 0 <= seed < M
    ensures Draws(seed, n) == Unreduced(seed, n) % 0x8000_0000
  {
    if n > 0 {
      DrawsReduce(seed, n - 1);
      RandomIsAffine(Draws(seed, n - 1));
      var u := Unreduced(seed, n - 1);
      var k := u / 0x8000_0000;
      assert 1103515245 * (u - k * 0x8000_0000) + 12345 == 1103515245 * u + 12345 - (1103515245 * k) * 0x8000_0000;
      ModShift(1103515245 * u + 12345, 1103515245 * k);
    }
  }

  lemma Distribute(g: int, y: int)
    ensures (1103515245 * g + 1) * y == 1103515245 * (g * y) + y
  {
  }

  /** How far n calls move the seed: a multiple of the geometric sum. */
  lemma {:induction false} Displacement(seed: int, n: nat)
    ensures Unreduced(seed, n) - seed == Geometric(n) * (1103515244 * seed + 12345)
  {
    if n > 0 {
      Displacement(seed, n - 1);
      var y := 1103515244 * seed + 12345;
      Distribute(Geometric(n - 1), y);
    }
  }

  // ---- divisibility by powers of two ----

  /** 2^k divides n. */
  predicate Divides(k: nat, n: int) {
    k == 0 || (n % 2 == 0 && Divides(k - 1, n / 2))
  }

  lemma Parity(x: int, y: int)
    ensures y % 2 == 1 ==> (x * y) % 2 == x % 2
    ensures y % 2 == 1 && x % 2 == 0 ==> (x * y) / 2 == (x / 2) * y
  {
    if y % 2 == 1 {
      var q := y / 2;
      assert x * y == 2 * (x * q) + x;
      if x % 2 == 0 {
        var h := x / 2;
        assert x * y == 2 * (h * y);
      }
    }
  }

  /** An odd factor does not matter. */
  lemma {:induction false} OddFactor(k: nat, x: int, y: int)
    requires y % 2 == 1
    ensures Divides(k, x * y) <==> Divides(k, x)
  {
    if k > 0 {
      Parity(x, y);
      if x % 2 == 0 {
        OddFactor(k - 1, x / 2, y);
      }
    }
  }

  lemma MulBig(d: int, t: int)
    requires t > 0
    ensures d == 0 || d * t >= t || d * t <= -t
  {
    if d >= 1 {
      assert d * t == t + (d - 1) * t;
    } else if d <= -1 {
      assert d * t == -t - (-1 - d) * t;
    }
  }

  /** Quotient and remainder are determined by their equation. */
  lemma DivModUnique(x: int, q: int, r: int, t: int)
    requires t > 0 && 0 <= r < t && x == r + q * t
    ensures x / t == q && x % t == r
  {
    var d := x / t - q;
    assert d * t == (x / t) * t - q * t;
    MulBig(d, t);
  }

  lemma MultipleMod(e: int, q: int)
    requires e > 0
    ensures (e * q) % e == 0
  {
    DivModUnique(e * q, q, 0, e);
  }

  lemma HalfMod(n: int, e: int)
    requires e > 0
    ensures n % (2 * e) == 0 <==> n % 2 == 0 && (n / 2) % e == 0
  {
    if n % (2 * e) == 0 {
      var q := n / (2 * e);
      assert n == 2 * (e * q);
      assert n / 2 == e * q;
      MultipleMod(e, q);
    }
    if n % 2 == 0 && (n / 2) % e == 0 {
      var q := n / 2 / e;
      assert n == (2 * e) * q;
      MultipleMod(2 * e, q);
    }
  }

  lemma {:induction false} DividesIsMod(k: nat, n: int)
    ensures Divides(k, n) <==> n % Exp2(k) == 0
  {
    if k > 0 {
      DividesIsMod(k - 1, n / 2);
      HalfMod(n, Exp2(k - 1));
    }
  }

  // ---- the geometric sum has exactly as many factors two as its length ----

  lemma Swap(g: int, a: int, p: int)
    ensures g * (a * p) == a * (g * p)
  {
  }

  lemma {:induction false} GeometricAdd(m: nat, n: nat)
    ensures Geometric(m + n) == Geometric(m) * Power(n) + Geometric(n)
  {
    if n > 0 {
      GeometricAdd(m, n - 1);
      assert Geometric(m + n) == 1103515245 * Geometric(m + (n - 1)) + 1;
      Swap(Geometric(m), 1103515245, Power(n - 1));
    }
  }

  lemma {:induction false} PowerMod4(n: nat)
    ensures Power(n) % 4 == 1
  {
    if n > 0 {
      PowerMod4(n - 1);
    }
  }

  lemma EvenShift(h: int, x: int)
    ensures (2 * h + x) % 2 == x % 2
  {
  }

  lemma OddStep(g: int, n: int)
    requires g % 2 == n % 2
    ensures (1103515245 * g + 1) % 2 == (n + 1) % 2
  {
    EvenShift(551757622 * g, g + 1);
  }

  lemma {:induction false} GeometricParity(n: nat)
    ensures Geometric(n) % 2 == n % 2
  {
    if n > 0 {
      GeometricParity(n - 1);
      OddStep(Geometric(n - 1), n - 1);
    }
  }

  /** Doubling the length adds exactly one factor two. */
  lemma GeometricDouble(h: nat) returns (y: int)
    ensures y % 2 == 1 && Geometric(2 * h) == 2 * (Geometric(h) * y)
  {
    hide Geometric, Power;
    GeometricAdd(h, h);
    PowerMod4(h);
    var g, p := Geometric(h), Power(h);
    y := (p + 1) / 2;
    assert g * p + g == g * (2 * y);
  }

  lemma {:induction false} GeometricDivides(k: nat, n: nat)
    ensures Divides(k, Geometric(n)) <==> Divides(k, n)
  {
    hide Geometric, Power;
    if k > 0 {
      GeometricParity(n);
      if n % 2 == 0 {
        var h := n / 2;
        var y := GeometricDouble(h);
        OddFactor(k - 1, Geometric(h), y);
        GeometricDivides(k - 1, h);
      }
    }
  }

  lemma Exp2At31()
    ensures Exp2(31) == 0x8000_0000
  {
    WordRange();
  }

  lemma SameRemainder(u: int, seed: int)
    requires 0 <= seed < M
    ensures u % 0x8000_0000 == seed <==> (u - seed) % 0x8000_0000 == 0
  {
  }

  /** n calls return to the seed exactly when 2^31 divides n. */
  lemma ReturnsIff(seed: int, n: nat)
    requires 0 <= seed < M
    ensures Draws(seed, n) == seed <==> n % 0x8000_0000 == 0
  {
    hide Draws, Random, Unreduced, Geometric, Divides;
    DrawsReduce(seed, n);
    Displacement(seed, n);
    var u, y := Unreduced(seed, n), 1103515244 * seed + 12345;
    assert y == 2 * (551757622 * seed + 6172) + 1;
    OddFactor(31, Geometric(n), y);
    GeometricDivides(31, n);
    DividesIsMod(31, u - seed);
    DividesIsMod(31, n);
    Exp2At31();
    SameRemainder(u, seed);
  }

  lemma DrawsDistinct(seed: int, i: nat, j: nat)
    requires 0 <= seed < M && i < j < i + M
    ensures Draws(seed, i) != Draws(seed, j)
  {
    hide Draws, Random;
    DrawsCompose(seed, i, j - i);
    ReturnsIff(Draws(seed, i), j - i);
  }

  // ---- from no repetition to every value exactly once ----

  ghost function Image<T>(s: set<T>, f: T -> int): set<int> {
    set i | i in s :: f(i)
  }

  lemma {:induction false} ImageSize<T>(s: set<T>, f: T -> int)
    requires forall i, j :: i in s && j in s && i != j ==> f(i) != f(j)
    ensures |Image(s, f)| == |s|
  {
    if s != {} {
      var x :| x in s;
      var rest := s - {x};
      ImageSize(rest, f);
      assert Image(s, f) == Image(rest, f) + {f(x)};
    }
  }

  /** The value of call number i + 1. */
  function Call(seed: int): (f: int -> int)
  {
    (i: int) => if i >= 0 then Draws(seed, i + 1) else 0
  }

  /** An injection of [0, n) into itself misses nothing. */
  lemma Onto(f: int -> int, n: nat, v: int)
    requires forall i :: 0 <= i < n ==> 0 <= f(i) < n
    requires forall i, j :: 0 <= i < n && 0 <= j < n && i != j ==> f(i) != f(j)
    requires 0 <= v < n
    ensures exists i :: 0 <= i < n && f(i) == v
  {
    hide Between;
    var image := Image(Between(0, n), f);
    BetweenSize(0, n);
    ImageSize(Between(0, n), f);
    SubsetSame(image, Between(0, n));
    assert v in image;
  }

  lemma CallInjective(seed: int)
    requires 0 <= seed < M
    ensures forall i, j :: 0 <= i < M && 0 <= j < M && i != j ==> Call(seed)(i) != Call(seed)(j)
  {
    hide Draws, Random;
    forall i, j | 0 <= i < M && 0 <= j < M && i != j
      ensures Call(seed)(i) != Call(seed)(j)
    {
      if i < j {
        DrawsDistinct(seed, i + 1, j + 1);
      } else {
        DrawsDistinct(seed, j + 1, i + 1);
      }
    }
  }

  /** Full period: in any 2^31 consecutive calls random() returns every value of its range
      exactly once. */
  lemma FullPeriod(seed: int, v: int)
    requires 0 <= seed < M && 0 <= v < M
    ensures exists i :: 0 <= i < M && Call(seed)(i) == v
    ensures forall i, j :: 0 <= i < M && 0 <= j < M && Call(seed)(i) == v && Call(seed)(j) == v ==> i == j
  {
    hide Draws, Random;
    CallInjective(seed);
    Onto(Call(seed), M, v);
  }

  /** However a property picks values, the calls that hit it are as many as the values. */
  lemma HitsCount(seed: int, p: int -> bool)
    requires 0 <= seed < M
    ensures |set i: int | 0 <= i < M && p(Call(seed)(i))| == |set v: int | 0 <= v < M && p(v)|
  {
    hide Draws, Random;
    var f := Call(seed);
    var hits := set i: int | 0 <= i < M && p(f(i));
    var values := set v: int | 0 <= v < M && p(v);
    CallInjective(seed);
    ImageSize(hits, f);
    var image := Image(hits, f);
    forall v | v in values
      ensures v in image
    {
      FullPeriod(seed, v);
      var i :| 0 <= i < M && f(i) == v;
      assert i in hits;
    }
    assert image == values;
  }

  // ---- the draw ----

  datatype Proc = Proc(state: ProcState, tickets: int)

  /** The tickets of the runnable processes among the first k. */
  function Tickets(procs: seq<Proc>, k: nat): (t: int)
    requires k <= |procs|
  {
    if k == 0 then 0
    else Tickets(procs, k - 1) + if procs[k - 1].state == RUNNABLE then procs[k - 1].tickets else 0
  }

  /** Runnable processes hold tickets: userinit, fork and sys_settickets see to at least ten. */
  predicate Ticketed(procs: seq<Proc>) {
    forall p :: 0 <= p < |procs| && procs[p].state == RUNNABLE ==> procs[p].tickets >= 10
  }

  /** The holder of ticket v. */
  ghost predicate Holds(procs: seq<Proc>, q: nat, v: int) {
    && q < |procs| && procs[q].state == RUNNABLE
    && Tickets(procs, q) <= v < Tickets(procs, q) + procs[q].tickets
  }

  lemma {:induction false} TicketsMonotone(procs: seq<Proc>, j: nat, k: nat)
    requires Ticketed(procs) && j <= k <= |procs|
    ensures 0 <= Tickets(procs, j) <= Tickets(procs, k)
  {
    if j < k {
      TicketsMonotone(procs, j, k - 1);
    } else if j > 0 {
      TicketsMonotone(procs, j - 1, j - 1);
    }
  }

  /** A ticket has at most one holder. */
  lemma HolderUnique(procs: seq<Proc>, p: nat, q: nat, v: int)
    requires Ticketed(procs) && Holds(procs, p, v) && Holds(procs, q, v)
    ensures p == q
  {
    if p < q {
      TicketsMonotone(procs, p + 1, q);
    } else if q < p {
      TicketsMonotone(procs, q + 1, p);
    }
  }

  lemma TicketsStep(procs: seq<Proc>, k: nat)
    requires k < |procs|
    ensures Tickets(procs, k + 1) == Tickets(procs, k) + if procs[k].state == RUNNABLE then procs[k].tickets else 0
  {
  }

  /** No runnable process before p has a wrapped running total above v. */
  ghost predicate PassedBy(procs: seq<Proc>, p: nat, v: int)
    requires p <= |procs|
  {
    forall q :: 0 <= q < p && procs[q].state == RUNNABLE ==> Wrap32(Tickets(procs, q + 1)) <= v
  }

  lemma PassedNone(procs: seq<Proc>, v: int)
    ensures PassedBy(procs, 0, v)
  {
  }

  lemma PassedOne(procs: seq<Proc>, p: nat, v: int)
    requires p < |procs| && PassedBy(procs, p, v)
    requires procs[p].state == RUNNABLE ==> Wrap32(Tickets(procs, p + 1)) <= v
    ensures PassedBy(procs, p + 1, v)
  {
  }

  /** Where the scan for draw r stops: at the first runnable process whose wrapped running total
      exceeds r modulo the wrapped total. */
  ghost predicate Chosen(procs: seq<Proc>, p: nat, r: int) {
    && p < |procs| && procs[p].state == RUNNABLE
    && var total := Wrap32(Tickets(procs, |procs|));
       total > 0 && Wrap32(Tickets(procs, p + 1)) > r % total && PassedBy(procs, p, r % total)
  }

  lemma {:induction false} BeforeChosen(procs: seq<Proc>, p: nat, v: int)
    requires p <= |procs| && v >= 0 && PassedBy(procs, p, v)
    ensures Wrap32(Tickets(procs, p)) <= v
  {
    if p > 0 && procs[p - 1].state != RUNNABLE {
      BeforeChosen(procs, p - 1, v);
    }
  }

  /** Where the sums do not wrap, that is the holder of the drawn ticket. */
  lemma ChosenHolds(procs: seq<Proc>, p: nat, r: int)
    requires Ticketed(procs) && Tickets(procs, |procs|) < M && Chosen(procs, p, r)
    ensures Tickets(procs, |procs|) > 0 && Holds(procs, p, r % Tickets(procs, |procs|))
  {
    TicketsMonotone(procs, 0, |procs|);
    TicketsMonotone(procs, p, p + 1);
    TicketsMonotone(procs, p + 1, |procs|);
    BeforeChosen(procs, p, r % Tickets(procs, |procs|));
  }

  /** The winning ticket of a draw. */
  function Remainder(r: int, total: int): (w: int)
    requires total > 0
    ensures 0 <= w < total
  {
    r % total
  }

  lemma IsChosen(procs: seq<Proc>, p: nat, r: int, w: int)
    requires p < |procs| && procs[p].state == RUNNABLE && Wrap32(Tickets(procs, |procs|)) > 0
    requires w == Remainder(r, Wrap32(Tickets(procs, |procs|)))
    requires Wrap32(Tickets(procs, p + 1)) > w && PassedBy(procs, p, w)
    ensures Chosen(procs, p, r)
  {
    hide Wrap32, Tickets, PassedBy;
  }

  datatype Choice = Nobody | Run(p: nat)

  class Scheduler {
    var rseed: int
    var procs: seq<Proc>

    /** One pass of the scheduler loop: total the tickets, draw, and find the winner, all in
        32-bit arithmetic. It passes exactly when the wrapped total is not positive. When it
        draws, the scan never runs off the table, even if the sums wrap: the winner is the first
        runnable process whose wrapped running total exceeds the draw. When they do not wrap, it is
        the holder of the drawn ticket. */
    method Draw() returns (c: Choice)
      requires 0 <= rseed < M && Ticketed(procs)
      modifies this`rseed
      ensures c == Nobody <==> Wrap32(Tickets(procs, |procs|)) <= 0
      ensures c == Nobody ==> rseed == old(rseed)
      ensures c.Run? ==> rseed == Random(old(rseed))
      ensures c.Run? ==> c.p < |procs| && procs[c.p].state == RUNNABLE && Chosen(procs, c.p, rseed)
      ensures c.Run? && Tickets(procs, |procs|) < M ==> Holds(procs, c.p, rseed % Tickets(procs, |procs|))
    {
      assert Tickets(procs, 0) == 0;
      hide Wrap32, Random, Tickets, Holds, PassedBy, Ticketed, Chosen, Remainder;
      var totalTickets := 0;
      for i := 0 to |procs|
        invariant totalTickets == Wrap32(Tickets(procs, i)) && rseed == old(rseed)
      {
        TicketsStep(procs, i);
        if procs[i].state == RUNNABLE {
          WrapAdd(Tickets(procs, i), procs[i].tickets);
          totalTickets := Wrap32(totalTickets + procs[i].tickets);
        }
      }
      if totalTickets <= 0 {
        return Nobody;
      }
      rseed := Random(rseed);
      var winner := Remainder(rseed, totalTickets);
      var counter := 0;
      var p := 0;
      PassedNone(procs, winner);
      while p < |procs|
        invariant p <= |procs|
        invariant counter == Wrap32(Tickets(procs, p)) && counter <= winner
        invariant PassedBy(procs, p, winner)
        invariant rseed == Random(old(rseed))
      {
        TicketsStep(procs, p);
        if procs[p].state == RUNNABLE {
          WrapAdd(Tickets(procs, p), procs[p].tickets);
          counter := Wrap32(counter + procs[p].tickets);
          if counter > winner {
            break;
          }
        }
        PassedOne(procs, p, winner);
        p := p + 1;
      }
      IsChosen(procs, p, rseed, winner);
      if Tickets(procs, |procs|) < M {
        ChosenHolds(procs, p, rseed);
      }
      return Run(p);
    }
  }

  lemma {:induction false} NoneRunnable(procs: seq<Proc>, k: nat)
    requires k <= |procs| && forall p :: 0 <= p < |procs| ==> procs[p].state != RUNNABLE
    ensures Tickets(procs, k) == 0
  {
    if k > 0 {
      NoneRunnable(procs, k - 1);
    }
  }

  /** Without overflow the scheduler is idle only when nobody is runnable. */
  lemma IdleIff(procs: seq<Proc>)
    requires Ticketed(procs) && Tickets(procs, |procs|) < M
    ensures Wrap32(Tickets(procs, |procs|)) <= 0 <==> forall p :: 0 <= p < |procs| ==> procs[p].state != RUNNABLE
  {
    TicketsMonotone(procs, 0, |procs|);
    if p :| 0 <= p < |procs| && procs[p].state == RUNNABLE {
      TicketsMonotone(procs, p, p);
      TicketsMonotone(procs, p + 1, |procs|);
    } else {
      NoneRunnable(procs, |procs|);
    }
  }

  /** With overflow it can idle for ever: two processes that set 2^30 tickets each add up to a
      negative total. */
  lemma OverflowStarves() returns (procs: seq<Proc>)
    ensures Ticketed(procs)
            && (forall p :: 0 <= p < |procs| ==> procs[p].state == RUNNABLE && procs[p].tickets <= INT_MAX)
    ensures |procs| == 2 && Wrap32(Tickets(procs, |procs|)) <= 0
  {
    procs := [Proc(RUNNABLE, 0x4000_0000), Proc(RUNNABLE, 0x4000_0000)];
    assert Tickets(procs, 1) == 0x4000_0000;
    assert Tickets(procs, 2) == 0x8000_0000;
  }

  // ---- fairness ----

  /** The number of v below r in [lo, hi). */
  function Clamp(r: int, lo: int, hi: int): int {
    if r <= lo then 0 else if r >= hi then hi - lo else r - lo
  }

  lemma DivModStep(n: nat, t: int)
    requires t > 0
    ensures if n % t == t - 1 then (n + 1) / t == n / t + 1 && (n + 1) % t == 0
            else (n + 1) / t == n / t && (n + 1) % t == n % t + 1
  {
    var q, r := n / t, n % t;
    if r == t - 1 {
      assert n + 1 == 0 + (q + 1) * t;
      DivModUnique(n + 1, q + 1, 0, t);
    } else {
      DivModUnique(n + 1, q, r + 1, t);
    }
  }

  ghost function Residues(n: nat, t: int, lo: int, hi: int): (s: set<int>)
    requires t > 0
  {
    set v: int | 0 <= v < n && lo <= v % t < hi
  }

  lemma ResiduesStep(m: nat, t: int, lo: int, hi: int)
    requires t > 0
    ensures |Residues(m + 1, t, lo, hi)| == |Residues(m, t, lo, hi)| + if lo <= m % t < hi then 1 else 0
  {
    var s, s' := Residues(m, t, lo, hi), Residues(m + 1, t, lo, hi);
    if lo <= m % t < hi {
      assert s' == s + {m};
    } else {
      assert s' == s;
    }
  }

  /** How many of the first n numbers leave a remainder in [lo, hi). */
  lemma {:induction false} ResiduesCount(n: nat, t: int, lo: int, hi: int)
    requires 0 <= lo <= hi <= t && t > 0
    ensures |Residues(n, t, lo, hi)| == (n / t) * (hi - lo) + Clamp(n % t, lo, hi)
  {
    if n == 0 {
      assert Residues(0, t, lo, hi) == {};
      DivModUnique(0, 0, 0, t);
    } else {
      hide Residues;
      var m := n - 1;
      ResiduesCount(m, t, lo, hi);
      ResiduesStep(m, t, lo, hi);
      DivModStep(m, t);
      var q, w := m / t, hi - lo;
      assert (q + 1) * w == q * w + w;
    }
  }

  /** The draws, among 2^31 from a seed, that process q wins. */
  ghost function Wins(procs: seq<Proc>, q: nat, seed: int): set<int>
    requires Tickets(procs, |procs|) > 0
  {
    set i: int | 0 <= i < M && Holds(procs, q, Call(seed)(i) % Tickets(procs, |procs|))
  }

  lemma TicketsNext(procs: seq<Proc>, q: nat)
    requires q < |procs| && procs[q].state == RUNNABLE
    ensures Tickets(procs, q + 1) == Tickets(procs, q) + procs[q].tickets
  {
  }

  lemma Ceiling(m: nat, t: int)
    requires t > 0
    ensures (m + t - 1) / t == if m % t == 0 then m / t else m / t + 1
  {
    var q, r := m / t, m % t;
    if r == 0 {
      DivModUnique(m + t - 1, q, t - 1, t);
    } else {
      assert (q + 1) * t == q * t + t;
      DivModUnique(m + t - 1, q + 1, r - 1, t);
    }
  }

  lemma ResidueBounds(m: nat, total: int, lo: int, t: int)
    requires 0 <= lo && 0 <= t && lo + t <= total && total > 0
    ensures t * (m / total) <= |Residues(m, total, lo, lo + t)| <= t * ((m + total - 1) / total)
  {
    hide Residues;
    ResiduesCount(m, total, lo, lo + t);
    Ceiling(m, total);
    var q := m / total;
    assert q * t == t * q && t * (q + 1) == t * q + t;
  }

  /** Lottery fairness: with a fixed set of runnable processes and no overflow, a process that
      holds t of T tickets wins at least t * floor(2^31 / T) and at most t * ceil(2^31 / T) of
      any 2^31 consecutive draws, and a process that is not runnable wins none. */
  lemma Fairness(procs: seq<Proc>, q: nat, seed: int)
    requires Ticketed(procs) && 0 < Tickets(procs, |procs|) < M
    requires 0 <= seed < M && q < |procs|
    ensures var total := Tickets(procs, |procs|);
            var t := if procs[q].state == RUNNABLE then procs[q].tickets else 0;
            t * (M / total) <= |Wins(procs, q, seed)| <= t * ((M + total - 1) / total)
  {
    hide Draws, Random, Tickets;
    var total := Tickets(procs, |procs|);
    if procs[q].state == RUNNABLE {
      var t := procs[q].tickets;
      var lo := Tickets(procs, q);
      TicketsMonotone(procs, q, q);
      TicketsMonotone(procs, q + 1, |procs|);
      TicketsNext(procs, q);
      var p := (v: int) => lo <= v % total < lo + t;
      HitsCount(seed, p);
      assert Wins(procs, q, seed) == set i: int | 0 <= i < M && p(Call(seed)(i));
      assert Residues(M, total, lo, lo + t) == set v: int | 0 <= v < M && p(v);
      ResidueBounds(M, total, lo, t);
    } else {
      assert Wins(procs, q, seed) == {};
    }
  }
}
