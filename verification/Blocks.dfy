/** Disk blocks as the file system sees them: 512 bytes, read as little-endian
    32-bit words (block numbers, the log header) or as single bits (the free map).
 */
module Blocks {

  const BSIZE: nat := 512
  const WORDS: nat := 128        // words in a block: NINDIRECT, and room for a log header
  const BPB: nat := 4096         // bits in a block
  const WORD_MAX: nat := 0x1_0000_0000

  type Byte = x: int | 0 <= x < 256

  datatype Bytes = Bytes(at: seq<Byte>)

  type Block = b: Bytes | |b.at| == BSIZE witness Bytes(seq(BSIZE, _ => 0))

  type Disk = seq<Block>

  function ZeroBlock(): (b: Block)
    ensures forall i :: 0 <= i < BSIZE ==> b.at[i] == 0
  {
    Bytes(seq(BSIZE, _ => 0))
  }

  // ---- words ----

  /** The number a little-endian byte string stands for. */
  function Value(s: seq<Byte>): nat {
    if s == [] then 0 else s[0] + 0x100 * Value(s[1..])
  }

  function LittleEndian(w: nat, n: nat): (s: seq<Byte>)
    ensures |s| == n
  {
    if n == 0 then [] else [w % 0x100] + LittleEndian(w / 0x100, n - 1)
  }

  function Exp2(n: nat): (p: nat)
    ensures p >= 1
  {
    if n == 0 then 1 else 2 * Exp2(n - 1)
  }

  lemma Exp2Byte(n: nat)
    ensures Exp2(n + 8) == 0x100 * Exp2(n)
  {
    assert Exp2(n + 8) == 4 * Exp2(n + 6);
    assert Exp2(n + 6) == 4 * Exp2(n + 4);
    assert Exp2(n + 4) == 4 * Exp2(n + 2);
  }

  lemma {:induction false} ValueBound(s: seq<Byte>)
    ensures Value(s) < Exp2(8 * |s|)
  {
    if s != [] {
      ValueBound(s[1..]);
      Exp2Byte(8 * |s| - 8);
    }
  }

  lemma {:induction false} ValueOfLittleEndian(w: nat, n: nat)
    requires w < Exp2(8 * n)
    ensures Value(LittleEndian(w, n)) == w
  {
    if n > 0 {
      Exp2Byte(8 * n - 8);
      ValueOfLittleEndian(w / 0x100, n - 1);
      assert LittleEndian(w, n)[1..] == LittleEndian(w / 0x100, n - 1);
    }
  }

  lemma WordRange()
    ensures Exp2(32) == WORD_MAX
  {
    Exp2Byte(0);
    Exp2Byte(8);
    Exp2Byte(16);
    Exp2Byte(24);
  }

  function GetWord(b: Block, i: nat): (w: nat)
    requires i < WORDS
    ensures w < WORD_MAX
  {
    ValueBound(b.at[4 * i..4 * i + 4]);
    WordRange();
    Value(b.at[4 * i..4 * i + 4])
  }

  /** Two bytes, the lower first. */
  function Short(a: seq<Byte>, i: nat): nat
    requires i + 1 < |a|
  {
    var lo: int, hi: int := a[i], a[i + 1];
    lo + 0x100 * hi
  }

  /** A word is four bytes, the lowest first. */
  lemma WordBytes(b: Block, i: nat)
    requires i < WORDS
    ensures GetWord(b, i) == Short(b.at, 4 * i) + 0x1_0000 * Short(b.at, 4 * i + 2)
  {
    var s := b.at[4 * i..4 * i + 4];
    assert Value(s[3..]) == s[3] + 0x100 * Value(s[4..]);
    assert Value(s[2..]) == s[2] + 0x100 * Value(s[3..]) by { assert s[2..][1..] == s[3..]; }
    assert Value(s[1..]) == s[1] + 0x100 * Value(s[2..]) by { assert s[1..][1..] == s[2..]; }
  }

  function SetWord(b: Block, i: nat, w: nat): Block
    requires i < WORDS && w < WORD_MAX
  {
    Bytes(b.at[..4 * i] + LittleEndian(w, 4) + b.at[4 * i + 4..])
  }

  lemma OtherSlice(s: seq<Byte>, t: seq<Byte>, i: nat, j: nat)
    requires |s| == BSIZE && |t| == 4 && i < WORDS && j < WORDS && i != j
    ensures var c := s[..4 * i] + t + s[4 * i + 4..];
            |c| == BSIZE && c[4 * j..4 * j + 4] == s[4 * j..4 * j + 4]
  {
    var c := s[..4 * i] + t + s[4 * i + 4..];
    var x, y := c[4 * j..4 * j + 4], s[4 * j..4 * j + 4];
    forall k | 0 <= k < 4
      ensures x[k] == y[k]
    {
      assert j < i ==> 4 * j + k < 4 * i;
      assert j > i ==> 4 * j + k >= 4 * i + 4;
    }
  }

  /** Storing a word changes that word and no other. */
  lemma WordRoundTrip(b: Block, i: nat, w: nat, j: nat)
    requires i < WORDS && w < WORD_MAX && j < WORDS
    ensures GetWord(SetWord(b, i, w), j) == if i == j then w else GetWord(b, j)
  {
    var c := SetWord(b, i, w).at;
    WordRange();
    ValueOfLittleEndian(w, 4);
    if i == j {
      assert c[4 * j..4 * j + 4] == LittleEndian(w, 4);
    } else {
      OtherSlice(b.at, LittleEndian(w, 4), i, j);
    }
  }

  /** A block with the words ws stored from word `base` on. */
  function PutWords(b: Block, base: nat, ws: seq<nat>): Block
    requires base + |ws| <= WORDS && forall i :: 0 <= i < |ws| ==> ws[i] < WORD_MAX
  {
    if ws == [] then b
    else SetWord(PutWords(b, base, ws[..|ws| - 1]), base + |ws| - 1, ws[|ws| - 1])
  }

  /** The stored words read back, and every other word is what it was. */
  lemma {:induction false} PutWordsAt(b: Block, base: nat, ws: seq<nat>, j: nat)
    requires base + |ws| <= WORDS && forall i :: 0 <= i < |ws| ==> ws[i] < WORD_MAX
    requires j < WORDS
    ensures GetWord(PutWords(b, base, ws), j) == if base <= j < base + |ws| then ws[j - base] else GetWord(b, j)
  {
    if ws != [] {
      var n := |ws| - 1;
      PutWordsAt(b, base, ws[..n], j);
      WordRoundTrip(PutWords(b, base, ws[..n]), base + n, ws[n], j);
    }
  }

  /** n words from word `base` on. */
  function WordsAt(b: Block, base: nat, n: nat): (ws: seq<nat>)
    requires base + n <= WORDS
    ensures |ws| == n && forall i :: 0 <= i < n ==> ws[i] == GetWord(b, base + i)
  {
    if n == 0 then [] else WordsAt(b, base, n - 1) + [GetWord(b, base + n - 1)]
  }

  lemma StoredWords(b: Block, base: nat, ws: seq<nat>)
    requires base + |ws| <= WORDS && forall i :: 0 <= i < |ws| ==> ws[i] < WORD_MAX
    ensures WordsAt(PutWords(b, base, ws), base, |ws|) == ws
  {
    hide GetWord, PutWords;
    forall i | 0 <= i < |ws|
      ensures WordsAt(PutWords(b, base, ws), base, |ws|)[i] == ws[i]
    {
      PutWordsAt(b, base, ws, base + i);
    }
  }

  lemma OtherWords(b: Block, base: nat, ws: seq<nat>, start: nat, n: nat)
    requires base + |ws| <= WORDS && forall i :: 0 <= i < |ws| ==> ws[i] < WORD_MAX
    requires start + n <= base || base + |ws| <= start <= start + n <= WORDS
    ensures WordsAt(PutWords(b, base, ws), start, n) == WordsAt(b, start, n)
  {
    hide GetWord, PutWords;
    forall i | 0 <= i < n
      ensures WordsAt(PutWords(b, base, ws), start, n)[i] == WordsAt(b, start, n)[i]
    {
      PutWordsAt(b, base, ws, start + i);
    }
  }

  lemma {:induction false} ZeroValue(s: seq<Byte>)
    requires forall i :: 0 <= i < |s| ==> s[i] == 0
    ensures Value(s) == 0
  {
    if s != [] {
      ZeroValue(s[1..]);
    }
  }

  lemma ZeroWord(i: nat)
    requires i < WORDS
    ensures GetWord(ZeroBlock(), i) == 0
  {
    ZeroValue(ZeroBlock().at[4 * i..4 * i + 4]);
  }

  // ---- bits ----

  /** Bit k of x, counted from the least significant. */
  predicate NatBit(x: nat, k: nat) {
    if k == 0 then x % 2 == 1 else NatBit(x / 2, k - 1)
  }

  /** `x | 1 << k` when on, `x & ~(1 << k)` when off: bit k is set to `on`, no other
      bit moves, and a number of n bits stays one. */
  function WithBit(x: nat, k: nat, on: bool, ghost n: nat): (y: nat)
    requires k < n && x < Exp2(n)
    ensures y < Exp2(n)
    ensures forall j: nat :: NatBit(y, j) == if j == k then on else NatBit(x, j)
    decreases k
  {
    if k == 0 then
      x / 2 * 2 + (if on then 1 else 0)
    else
      2 * WithBit(x / 2, k - 1, on, n - 1) + x % 2
  }

  lemma ByteRange()
    ensures Exp2(8) == 256
  {
    assert Exp2(4) == 16;
  }

  predicate GetBit(b: Block, k: nat)
    requires k < BPB
  {
    NatBit(b.at[k / 8], k % 8)
  }

  function SetBit(b: Block, k: nat, on: bool): Block
    requires k < BPB
  {
    ByteRange();
    Bytes(b.at[k / 8 := WithBit(b.at[k / 8], k % 8, on, 8)])
  }

  lemma QuotientIs(x: int, m: int, q: int, r: int)
    requires x == m * q + r && 0 <= r < m
    ensures x / m == q
  {
    var d := x / m - q;
    assert m * d == r - x % m;
    assert d >= 1 ==> m * d >= m;
    assert d <= -1 ==> m * d <= -m;
  }

  lemma DivTwice(x: nat, m: nat)
    requires m >= 1
    ensures x / 2 / m == x / (2 * m)
  {
    var q, r := x / 2 / m, x / 2 % m;
    assert x / 2 == m * q + r && 2 * (m * q) == 2 * m * q;
    QuotientIs(x, 2 * m, q, 2 * r + x % 2);
  }

  lemma {:induction false} NatBitValue(x: nat, k: nat)
    ensures NatBit(x, k) <==> x / Exp2(k) % 2 == 1
  {
    if k > 0 {
      NatBitValue(x / 2, k - 1);
      DivTwice(x, Exp2(k - 1));
    }
  }

  /** Bit k of the map is the bit of weight 2 to the k % 8 in byte k / 8. */
  lemma BitPlace(b: Block, k: nat)
    requires k < BPB
    ensures GetBit(b, k) <==> b.at[k / 8] / Exp2(k % 8) % 2 == 1
  {
    NatBitValue(b.at[k / 8], k % 8);
  }

  /** Setting or clearing a bit changes that bit and no other. */
  lemma BitRoundTrip(b: Block, k: nat, on: bool, j: nat)
    requires k < BPB && j < BPB
    ensures GetBit(SetBit(b, k, on), j) == if j == k then on else GetBit(b, j)
  {
    if j / 8 == k / 8 {
      assert j == k <==> j % 8 == k % 8;
    }
  }

  lemma {:induction false} ZeroNatBit(k: nat)
    ensures !NatBit(0, k)
  {
    if k > 0 {
      ZeroNatBit(k - 1);
    }
  }

  lemma ZeroBit(k: nat)
    requires k < BPB
    ensures !GetBit(ZeroBlock(), k)
  {
    ZeroNatBit(k % 8);
  }
}
