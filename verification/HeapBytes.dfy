/** Bytes of the heap's words, which are 32-bit and little-endian. */
module HeapBytes {
  import opened HeapSpec
  import opened HeapLemmas
  import opened HeapMemory
  import opened HeapSteps

  function Unsigned(w: int): (u: int)
    ensures 0 <= u < 0x1_0000_0000
  {
    w % 0x1_0000_0000
  }

  function Signed(u: int): int
    requires 0 <= u < 0x1_0000_0000
  {
    if u < 0x8000_0000 then u else u - 0x1_0000_0000
  }

  function ByteOf(w: int, j: int): int
    requires 0 <= j < 4
  {
    var u := Unsigned(w);
    if j == 0 then u % 0x100
    else if j == 1 then u / 0x100 % 0x100
    else if j == 2 then u / 0x1_0000 % 0x100
    else u / 0x100_0000
  }

  /** The b-th byte of the words from `w` on. */
  function ByteIn(m: seq<int>, w: nat, b: nat): int
    requires w + b / 4 < |m|
  {
    ByteOf(m[w + b / 4], b % 4)
  }

  /** The first `n` bytes of the words from `w` on. */
  function Bytes(m: seq<int>, w: nat, n: nat): (s: seq<int>)
    requires w + (n + 3) / 4 <= |m|
  {
    seq(n, b requires 0 <= b < n => ByteIn(m, w, b))
  }

  /** The word whose bytes are b0 (lowest) to b3. */
  function FromBytes(b0: int, b1: int, b2: int, b3: int): int
    requires 0 <= b0 < 0x100 && 0 <= b1 < 0x100 && 0 <= b2 < 0x100 && 0 <= b3 < 0x100
  {
    Signed(b0 + 0x100 * b1 + 0x1_0000 * b2 + 0x100_0000 * b3)
  }

  lemma BytesOfWord(b0: int, b1: int, b2: int, b3: int)
    requires 0 <= b0 < 0x100 && 0 <= b1 < 0x100 && 0 <= b2 < 0x100 && 0 <= b3 < 0x100
    ensures var w := FromBytes(b0, b1, b2, b3);
      ByteOf(w, 0) == b0 && ByteOf(w, 1) == b1 && ByteOf(w, 2) == b2 && ByteOf(w, 3) == b3
  {
    var u := b0 + 0x100 * b1 + 0x1_0000 * b2 + 0x100_0000 * b3;
    assert Unsigned(FromBytes(b0, b1, b2, b3)) == u;
    assert u / 0x100_0000 == b3;
    assert u / 0x1_0000 == b2 + 0x100 * b3;
    assert u / 0x100 == b1 + 0x100 * b2 + 0x1_0000 * b3;
  }

  function ByteFrom(dst: int, src: int, r: int, j: int): (b: int)
    requires 0 <= j < 4
    ensures 0 <= b < 0x100
  {
    if j < r then ByteOf(src, j) else ByteOf(dst, j)
  }

  /** `dst` with its low `r` bytes replaced by those of `src`. */
  function Splice(dst: int, src: int, r: int): int
  {
    FromBytes(ByteFrom(dst, src, r, 0), ByteFrom(dst, src, r, 1), ByteFrom(dst, src, r, 2), ByteFrom(dst, src, r, 3))
  }

  lemma SpliceBytes(dst: int, src: int, r: int, j: int)
    requires 0 <= j < 4
    ensures ByteOf(Splice(dst, src, r), j) == if j < r then ByteOf(src, j) else ByteOf(dst, j)
  {
    BytesOfWord(ByteFrom(dst, src, r, 0), ByteFrom(dst, src, r, 1), ByteFrom(dst, src, r, 2), ByteFrom(dst, src, r, 3));
  }

  lemma CopiedBytes(m: seq<int>, m': seq<int>, dst: nat, src: nat, n: nat)
    requires |m'| == |m| && dst + (n + 3) / 4 <= |m| && src + (n + 3) / 4 <= |m|
    requires m'[dst..dst + n / 4] == m[src..src + n / 4]
    requires n % 4 != 0 ==> m'[dst + n / 4] == Splice(m[dst + n / 4], m[src + n / 4], n % 4)
    ensures Bytes(m', dst, n) == Bytes(m, src, n)
  {
    forall b | 0 <= b < n ensures ByteIn(m', dst, b) == ByteIn(m, src, b) {
      if b / 4 < n / 4 {
        assert m'[dst..dst + n / 4][b / 4] == m[src..src + n / 4][b / 4];
      } else {
        SpliceBytes(m[dst + n / 4], m[src + n / 4], n % 4, b % 4);
      }
    }
  }

  /** memcpy of `n` bytes between two ranges of words that do not meet. */
  method CopyBytes(words: array<int>, dst: nat, src: nat, n: nat)
    requires dst + (n + 3) / 4 <= words.Length && src + (n + 3) / 4 <= words.Length
    requires dst + (n + 3) / 4 <= src || src + (n + 3) / 4 <= dst
    modifies words
    ensures forall w | 0 <= w < words.Length && !(dst <= w < dst + (n + 3) / 4) :: words[w] == old(words[w])
    ensures Bytes(words[..], dst, n) == Bytes(old(words[..]), src, n)
  {
    var full := n / 4;
    CopyWords(words, dst, src, full);
    if n % 4 != 0 {
      words[dst + full] := Splice(words[dst + full], words[src + full], n % 4);
    }
    CopiedBytes(old(words[..]), words[..], dst, src, n);
  }

  method CopyWords(words: array<int>, dst: nat, src: nat, full: nat)
    requires dst + full <= words.Length && src + full <= words.Length
    requires dst + full <= src || src + full <= dst
    modifies words
    ensures forall w | 0 <= w < words.Length && !(dst <= w < dst + full) :: words[w] == old(words[w])
    ensures words[dst..dst + full] == old(words[src..src + full])
  {
    var i := 0;
    while i < full
      invariant 0 <= i <= full
      invariant forall w | 0 <= w < words.Length && !(dst <= w < dst + i) :: words[w] == old(words[w])
      invariant words[dst..dst + i] == old(words[src..src + i])
    {
      words[dst + i] := words[src + i];
      i := i + 1;
    }
  }

  lemma BytesPrefix(m: seq<int>, m': seq<int>, w: nat, w': nat, k: nat, n: nat)
    requires k <= n && w + (n + 3) / 4 <= |m| && w' + (n + 3) / 4 <= |m'| && Bytes(m, w, n) == Bytes(m', w', n)
    ensures Bytes(m, w, k) == Bytes(m', w', k)
  {
    assert Bytes(m, w, k) == Bytes(m, w, n)[..k];
    assert Bytes(m', w', k) == Bytes(m', w', n)[..k];
  }

  lemma SameBytes(m: seq<int>, m': seq<int>, w: nat, end: nat, n: nat)
    requires |m| == |m'| && w + (n + 3) / 4 <= end <= |m| && forall x | w <= x < end :: m[x] == m'[x]
    ensures Bytes(m, w, n) == Bytes(m', w, n)
  {
    forall b | 0 <= b < n ensures ByteIn(m, w, b) == ByteIn(m', w, b) {
    }
  }

  /** The first `k` bytes from word `w` of `m` are those from word `w'` of `m'`. */
  ghost predicate SameContents(m: seq<int>, w: nat, m': seq<int>, w': nat, k: nat)
  {
    w + (k + 3) / 4 <= |m| && w' + (k + 3) / 4 <= |m'| && Bytes(m', w', k) == Bytes(m, w, k)
  }

  /** The bytes that reach the new block and stay there. */
  lemma MovedBytes(h: Heap, h1: Heap, idx: int, bytes: int, res: Ptr,
                   m0: seq<int>, m1: seq<int>, m2: seq<int>, m3: seq<int>, n: nat)
    requires Inv(h) && Live(h, idx) && 0 < bytes && bytes + 3 < 0x1_0000_0000 && Allocated(h, bytes, res, h1)
    requires |m0| == |m1| == |m2| == |m3| == h.len && TakenKept(h, m0, m1)
    requires 0 <= idx && res.index + (n + 3) / 4 <= |m2| && idx + 1 + (n + 3) / 4 <= |m1|
    requires Bytes(m2, res.index, n) == Bytes(m1, idx + 1, n)
    requires res.index - 1 in h1.tags && WordsKept(h1, m2, m3, res.index - 1)
    requires Kept(h, idx, bytes) <= n
    ensures SameContents(m0, idx + 1, m3, res.index, Kept(h, idx, bytes))
  {
    BlockFacts(h, idx);
    var k := Kept(h, idx, bytes);
    OldAndNew(h, idx, bytes, res, h1);
    BytesPrefix(m2, m1, res.index, idx + 1, k, n);
    assert WordsKept(h, m0, m1, idx);
    SliceWords(m0, m1, idx, End(h, idx));
    SameBytes(m1, m0, idx + 1, End(h, idx), k);
    var it := res.index - 1;
    SliceWords(m2, m3, it, End(h1, it));
    SameBytes(m3, m2, res.index, End(h1, it), k);
  }

  lemma MoveDone(h: Heap, h1: Heap, idx: int, bytes: int, res: Ptr,
                 m0: seq<int>, m1: seq<int>, m2: seq<int>, m3: seq<int>, n: nat)
    requires Inv(h) && Live(h, idx) && 0 < bytes && bytes + 3 < 0x1_0000_0000 && Allocated(h, bytes, res, h1)
    requires |m0| == |m1| == |m2| == |m3| == h.len && 0 <= idx
    requires TakenKept(h, m0, m1) && OthersKept(h1, m1, m2, res.index - 1) && OthersKept(h1, m2, m3, idx)
    requires res.index + (n + 3) / 4 <= |m2| && idx + 1 + (n + 3) / 4 <= |m1|
    requires Bytes(m2, res.index, n) == Bytes(m1, idx + 1, n) && Kept(h, idx, bytes) <= n
    ensures SameContents(m0, idx + 1, m3, res.index, Kept(h, idx, bytes))
    ensures OthersKept(h, m0, m3, idx)
  {
    OldAndNew(h, idx, bytes, res, h1);
    assert WordsKept(h1, m2, m3, res.index - 1);
    MovedBytes(h, h1, idx, bytes, res, m0, m1, m2, m3, n);
    MoveKeepsOthers(h, h1, idx, bytes, res, m0, m1, m2, m3);
  }

  lemma SliceWords(m: seq<int>, m': seq<int>, lo: int, hi: int)
    requires 0 <= lo <= hi <= |m| && |m| == |m'| && m'[lo..hi] == m[lo..hi]
    ensures forall x | lo <= x < hi :: m[x] == m'[x]
  {
    forall x | lo <= x < hi ensures m[x] == m'[x] {
      assert m[lo..hi][x - lo] == m'[lo..hi][x - lo];
    }
  }
}
