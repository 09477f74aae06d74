/** The packet checksum (`chsum`, src/tcp_engine.cpp) and the corruption test (src/newimpl.cpp; RFC 1071). */
module Checksum {
  import opened SequenceWindows

  const ONES: nat := 65535

  // ---------------------------------------------------------------- words

  function WordCount(b: seq<Byte>): nat {
    (|b| + 1) / 2
  }

  /** 16-bit word `i` in memory order; a trailing odd byte counts as a word of its own. */
  function Word(b: seq<Byte>, i: nat): (w: nat)
    requires i < WordCount(b)
    ensures w <= ONES
  {
    if 2 * i + 1 < |b| then Pair(b[2 * i], b[2 * i + 1]) else b[2 * i]
  }

  /** A word from its low and high byte. */
  function Pair(lo: int, hi: int): int {
    lo + 256 * hi
  }

  function WordSum(b: seq<Byte>, n: nat): nat
    requires n <= WordCount(b)
  {
    if n == 0 then 0 else WordSum(b, n - 1) + Word(b, n - 1)
  }

  function Total(b: seq<Byte>): nat {
    WordSum(b, WordCount(b))
  }

  /** The sum of the first `n` bytes at even positions. */
  function LowBytes(b: seq<Byte>, n: nat): nat
    requires n <= (|b| + 1) / 2
  {
    if n == 0 then 0 else LowBytes(b, n - 1) + b[2 * n - 2]
  }

  /** The sum of the first `n` bytes at odd positions. */
  function HighBytes(b: seq<Byte>, n: nat): nat
    requires n <= |b| / 2
  {
    if n == 0 then 0 else HighBytes(b, n - 1) + b[2 * n - 1]
  }

  lemma {:induction false} FullWordsAreBytes(b: seq<Byte>, n: nat)
    requires 2 * n <= |b|
    ensures WordSum(b, n) == LowBytes(b, n) + 256 * HighBytes(b, n)
  {
    if n == 0 {
    } else {
      FullWordsAreBytes(b, n - 1);
      assert Word(b, n - 1) == Pair(b[2 * n - 2], b[2 * n - 1]);
    }
  }

  /** Every byte counts, at even positions once and at odd ones 256 times: words are little-endian, a last byte low. */
  lemma TotalIsBytes(b: seq<Byte>)
    ensures Total(b) == LowBytes(b, (|b| + 1) / 2) + 256 * HighBytes(b, |b| / 2)
  {
    FullWordsAreBytes(b, |b| / 2);
  }

  // ---------------------------------------------------------------- RFC 1071

  /** One's-complement addition: the carry is added back in. */
  function OnesAdd(a: nat, b: nat): nat {
    if a + b > ONES then a + b - ONES else a + b
  }

  function OnesSum(b: seq<Byte>, n: nat): nat
    requires n <= WordCount(b)
  {
    if n == 0 then 0 else OnesAdd(OnesSum(b, n - 1), Word(b, n - 1))
  }

  /** The complement of the one's-complement sum of all words. */
  function InternetChecksum(b: seq<Byte>): int {
    ONES - OnesSum(b, WordCount(b))
  }

  // ---------------------------------------------------------------- the code

  /** Two folds of the 64-bit sum, truncation to 16 bits and complement. */
  function FoldTwice(sum: nat): (r: nat)
    ensures r <= ONES
  {
    var once := sum / 65536 + sum % 65536;
    var twice := once + once / 65536;
    ONES - twice % 65536
  }

  /** The sum reduced modulo 65535, with 65535 rather than 0 standing for a non-zero multiple. */
  function Reduced(sum: nat): nat {
    if sum == 0 then 0 else (sum - 1) % ONES + 1
  }

  lemma FoldIsReduced(sum: nat)
    requires sum < MODULO
    ensures FoldTwice(sum) == ONES - Reduced(sum)
  {
    var hi, lo := sum / 65536, sum % 65536;
    assert sum == hi * 65536 + lo && hi <= ONES;
    if sum > 0 {
      if hi + lo <= ONES {
        assert sum - 1 == hi * ONES + (hi + lo - 1);
      } else {
        assert sum - 1 == (hi + 1) * ONES + (hi + lo - ONES - 1);
      }
    }
  }

  lemma ReducedAdd(sum: nat, w: nat)
    requires w <= ONES
    ensures Reduced(sum + w) == OnesAdd(Reduced(sum), w)
  {
  }

  lemma {:induction false} OnesSumIsReduced(b: seq<Byte>, n: nat)
    requires n <= WordCount(b)
    ensures OnesSum(b, n) == Reduced(WordSum(b, n))
  {
    if n == 0 {
    } else {
      OnesSumIsReduced(b, n - 1);
      ReducedAdd(WordSum(b, n - 1), Word(b, n - 1));
    }
  }

  lemma FoldIsInternetChecksum(b: seq<Byte>)
    requires Total(b) < MODULO
    ensures FoldTwice(Total(b)) == InternetChecksum(b)
  {
    FoldIsReduced(Total(b));
    OnesSumIsReduced(b, WordCount(b));
  }

  method SumWords(buf: seq<Byte>) returns (sum: nat)
    ensures sum == Total(buf)
  {
    sum := 0;
    var pos := 0;
    var sz := |buf|;
    ghost var n := 0;
    while sz > 1
      invariant 0 <= sz && pos + sz == |buf| && pos == 2 * n
      invariant sum == WordSum(buf, n)
    {
      sum := sum + Pair(buf[pos], buf[pos + 1]);
      pos := pos + 2;
      sz := sz - 2;
      n := n + 1;
    }
    if sz > 0 {
      sum := sum + buf[pos];
    }
  }

  /** For every packet whose word sum is below 2^32 the folded sum is the RFC 1071 checksum. */
  method Chsum(buf: seq<Byte>) returns (r: nat)
    ensures r == FoldTwice(Total(buf))
    ensures Total(buf) < MODULO ==> r == InternetChecksum(buf)
  {
    var sum := SumWords(buf);
    if sum < MODULO {
      FoldIsInternetChecksum(buf);
    }
    sum := sum / 65536 + sum % 65536;
    sum := sum + sum / 65536;
    r := ONES - sum % 65536;
  }

  // ---------------------------------------------------------------- packets

  const HEADER_SZ: nat := 36
  const CHECK_WORD: nat := 8
  const MAX_PACKET: nat := 65535

  predicate IsPacket(p: seq<Byte>) {
    HEADER_SZ <= |p| <= MAX_PACKET
  }

  /** The packet with word `i` replaced. */
  function Replace(p: seq<Byte>, i: nat, w: nat): seq<Byte>
    requires i < WordCount(p) && w <= ONES
    requires 2 * i + 1 < |p| || w < 256
  {
    if 2 * i + 1 < |p| then p[2 * i := w % 256][2 * i + 1 := w / 256] else p[2 * i := w]
  }

  /** What `send` puts on the wire. */
  function Seal(p: seq<Byte>): seq<Byte>
    requires IsPacket(p)
  {
    Replace(p, CHECK_WORD, FoldTwice(Total(Replace(p, CHECK_WORD, 0))))
  }

  /** What the receiving side tests. */
  predicate Corrupted(p: seq<Byte>)
    requires IsPacket(p)
  {
    FoldTwice(Total(Replace(p, CHECK_WORD, 0))) != Word(p, CHECK_WORD)
  }

  lemma ReplaceWord(p: seq<Byte>, i: nat, w: nat, j: nat)
    requires i < WordCount(p) && w <= ONES && (2 * i + 1 < |p| || w < 256)
    requires j < WordCount(p)
    ensures |Replace(p, i, w)| == |p|
    ensures Word(Replace(p, i, w), j) == if j == i then w else Word(p, j)
  {
  }

  lemma {:induction false} ReplaceSum(p: seq<Byte>, i: nat, w: nat, n: nat)
    requires i < WordCount(p) && w <= ONES && (2 * i + 1 < |p| || w < 256)
    requires n <= WordCount(p)
    ensures WordCount(Replace(p, i, w)) == WordCount(p)
    ensures WordSum(Replace(p, i, w), n) == WordSum(p, n) + if i < n then w - Word(p, i) else 0
  {
    ReplaceWord(p, i, w, i);
    if n == 0 {
    } else {
      ReplaceSum(p, i, w, n - 1);
      ReplaceWord(p, i, w, n - 1);
    }
  }

  lemma {:induction false} SumBound(p: seq<Byte>, n: nat)
    requires n <= WordCount(p)
    ensures WordSum(p, n) <= ONES * n
  {
    if n == 0 {
    } else {
      SumBound(p, n - 1);
    }
  }

  lemma ReplaceTwice(p: seq<Byte>, i: nat, v: nat, w: nat)
    requires 2 * i + 1 < |p| && v <= ONES && w <= ONES
    ensures Replace(Replace(p, i, v), i, w) == Replace(p, i, w)
  {
  }

  lemma SealKeeps(p: seq<Byte>)
    requires IsPacket(p)
    ensures |Seal(p)| == |p| && forall k :: 0 <= k < |p| && k != 16 && k != 17 ==> Seal(p)[k] == p[k]
    ensures Word(Seal(p), CHECK_WORD) == FoldTwice(Total(Replace(p, CHECK_WORD, 0)))
    ensures Replace(p, CHECK_WORD, 0) == p[16 := 0][17 := 0]
  {
    ReplaceWord(p, CHECK_WORD, FoldTwice(Total(Replace(p, CHECK_WORD, 0))), CHECK_WORD);
  }

  lemma ZeroedChecksum(p: seq<Byte>)
    requires IsPacket(p)
    ensures FoldTwice(Total(Replace(p, CHECK_WORD, 0))) == InternetChecksum(Replace(p, CHECK_WORD, 0))
  {
    var zeroed := Replace(p, CHECK_WORD, 0);
    SumBound(zeroed, WordCount(zeroed));
    FoldIsInternetChecksum(zeroed);
  }

  /**
    An unmodified packet passes. It carries every byte of the original but the two of the checksum field, and in
    that the RFC 1071 checksum of the packet with the field zeroed.
   */
  lemma SealedPasses(p: seq<Byte>)
    requires 36 <= |p| <= 65535
    ensures |Seal(p)| == |p| && forall k :: 0 <= k < |p| && k != 16 && k != 17 ==> Seal(p)[k] == p[k]
    ensures Seal(p)[16] as int + 256 * (Seal(p)[17] as int) == InternetChecksum(p[16 := 0][17 := 0])
    ensures !Corrupted(Seal(p))
  {
    SealKeeps(p);
    ZeroedChecksum(p);
    ReplaceTwice(p, CHECK_WORD, FoldTwice(Total(Replace(p, CHECK_WORD, 0))), 0);
  }

  /** Sum of the covered words other than word `i`, the checksum counting as zero. */
  function OtherWords(p: seq<Byte>, i: nat): int
    requires IsPacket(p) && i < WordCount(p) && i != CHECK_WORD
  {
    Total(Replace(p, CHECK_WORD, 0)) - Word(p, i)
  }

  lemma ReducedCollision(rest: nat, x: nat, y: nat)
    requires x <= ONES && y <= ONES && x != y
    ensures Reduced(rest + x) == Reduced(rest + y) <==> rest > 0 && ((x == 0 && y == ONES) || (x == ONES && y == 0))
  {
    var a, b := rest + x, rest + y;
    if rest > 0 && Reduced(a) == Reduced(b) {
      assert (a - 1) % ONES == (b - 1) % ONES;
      assert (a - b) % ONES == 0;
    }
  }

  lemma ChangedSum(p: seq<Byte>, i: nat, w: nat)
    requires IsPacket(p) && i < WordCount(p) && i != CHECK_WORD
    requires w <= ONES && (2 * i + 1 < |p| || w < 256)
    ensures 0 <= OtherWords(p, i) && OtherWords(p, i) + ONES < MODULO
    ensures Total(Replace(Replace(p, i, w), CHECK_WORD, 0)) == OtherWords(p, i) + w
    ensures Word(Replace(p, i, w), CHECK_WORD) == Word(p, CHECK_WORD)
  {
    var n := WordCount(p);
    var zeroed, changed := Replace(p, CHECK_WORD, 0), Replace(p, i, w);
    ReplaceWord(p, CHECK_WORD, 0, i);
    ReplaceSum(zeroed, i, w, n);
    ReplaceSum(p, CHECK_WORD, 0, n);
    ReplaceWord(p, i, w, CHECK_WORD);
    ReplaceSum(p, i, w, n);
    ReplaceSum(changed, CHECK_WORD, 0, n);
    SumBound(zeroed, n);
    ReplaceSum(zeroed, i, 0, n);
  }

  /**
    Changing one covered word of a packet that passes goes unnoticed if and only if the word changes
    between 0x0000 and 0xFFFF while some other covered word is non-zero.
   */
  lemma SingleWordDetectedIff(p: seq<Byte>, i: nat, w: nat)
    requires IsPacket(p) && !Corrupted(p)
    requires i < WordCount(p) && i != CHECK_WORD
    requires w <= ONES && (2 * i + 1 < |p| || w < 256) && w != Word(p, i)
    ensures Corrupted(Replace(p, i, w)) <==>
              !(OtherWords(p, i) > 0 && ((Word(p, i) == 0 && w == ONES) || (Word(p, i) == ONES && w == 0)))
  {
    var x := Word(p, i);
    ChangedSum(p, i, w);
    FoldIsReduced(OtherWords(p, i) + w);
    FoldIsReduced(OtherWords(p, i) + x);
    ReducedCollision(OtherWords(p, i), x, w);
  }

  /** Changing the checksum itself is always noticed. */
  lemma ChecksumChangeDetected(p: seq<Byte>, w: nat)
    requires IsPacket(p) && !Corrupted(p)
    requires w <= ONES && w != Word(p, CHECK_WORD)
    ensures IsPacket(Replace(p, CHECK_WORD, w)) && Corrupted(Replace(p, CHECK_WORD, w))
  {
    ReplaceTwice(p, CHECK_WORD, w, 0);
    ReplaceWord(p, CHECK_WORD, w, CHECK_WORD);
  }
}
