/** How an abstract heap is laid out in the words of the heap's array: a header and a footer
    for each block, and the links of the free list in the second and third word of each
    available block. */
module HeapMemory {
  import opened HeapSpec
  import opened HeapLemmas

  ghost predicate TagAt(m: seq<int>, i: int, t: int)
  {
    0 <= i && 2 <= Abs(t) && i + Abs(t) <= |m| && m[i] == t && m[i + Abs(t) - 1] == t
  }

  ghost function NextOf(free: seq<int>, k: int): int
    requires -1 <= k < |free|
  {
    if k + 1 < |free| then free[k + 1] else 0
  }

  ghost function PrevOf(free: seq<int>, k: int): int
    requires 0 <= k < |free|
  {
    if k == 0 then 0 else free[k - 1]
  }

  ghost predicate LinkAt(m: seq<int>, free: seq<int>, k: int)
    requires 0 <= k < |free|
  {
    0 <= free[k] && free[k] + 2 < |m| && m[free[k] + 1] == NextOf(free, k) && m[free[k] + 2] == PrevOf(free, k)
  }

  ghost predicate Linked(m: seq<int>, avail: int, free: seq<int>)
  {
    avail == NextOf(free, -1) && forall k {:trigger LinkAt(m, free, k)} | 0 <= k < |free| :: LinkAt(m, free, k)
  }

  /** The words `avail` and the array represent the abstract heap `h`. */
  ghost predicate Represents(m: seq<int>, avail: int, h: Heap)
  {
    && |m| == h.len
    && (forall i {:trigger TagAt(m, i, h.tags[i])} | i in h.tags :: TagAt(m, i, h.tags[i]))
    && Linked(m, avail, h.free)
  }

  // ----- link words -----

  ghost predicate Room(f: int, n: int)
  {
    2 <= f && f + 3 < n
  }

  ghost predicate Far(f: int, g: int)
  {
    f + 4 <= g || g + 4 <= f
  }

  /** The blocks on the list are distinct and each has room for its links. */
  ghost predicate Spaced(free: seq<int>, n: int)
  {
    && (forall j {:trigger Room(free[j], n)} | 0 <= j < |free| :: Room(free[j], n))
    && (forall j, k {:trigger Far(free[j], free[k])} | 0 <= j < |free| && 0 <= k < |free| && j != k ::
          Far(free[j], free[k]))
  }

  ghost predicate LinkOf(free: seq<int>, j: int, w: int)
  {
    0 <= j < |free| && (w == free[j] + 1 || w == free[j] + 2)
  }

  ghost predicate LinkWord(free: seq<int>, w: int)
  {
    exists j :: LinkOf(free, j, w)
  }

  lemma FreeListSpaced(h: Heap)
    requires Inv(h)
    ensures Spaced(h.free, h.len)
  {
    forall j | 0 <= j < |h.free| ensures Room(h.free[j], h.len) {
      assert OnList(h, h.free[j]);
      AvailableFacts(h, h.free[j]);
    }
    forall j, k | 0 <= j < |h.free| && 0 <= k < |h.free| && j != k ensures Far(h.free[j], h.free[k]) {
      FreeBlocksFar(h, j, k);
    }
  }

  lemma FreeBlocksFar(h: Heap, j: int, k: int)
    requires Inv(h) && 0 <= j < |h.free| && 0 <= k < |h.free| && j != k
    ensures Far(h.free[j], h.free[k])
  {
    var f, g := h.free[j], h.free[k];
    assert OnList(h, f) && OnList(h, g);
    AvailableFacts(h, f);
    AvailableFacts(h, g);
    assert f != g;
    assert Apart(h, f, g);
  }

  lemma WithoutSpaced(free: seq<int>, n: int, k: nat)
    requires Spaced(free, n) && k < |free|
    ensures Without(free, free[k]) == free[..k] + free[k + 1..]
    ensures Spaced(Without(free, free[k]), n)
  {
    forall j, l | 0 <= j < l < |free| ensures free[j] != free[l] {
      assert Far(free[j], free[l]);
    }
    WithoutAt(free, k);
    var rest := free[..k] + free[k + 1..];
    forall j | 0 <= j < |rest| ensures Room(rest[j], n) {
      assert Room(free[if j < k then j else j + 1], n);
    }
    forall j, l | 0 <= j < |rest| && 0 <= l < |rest| && j != l ensures Far(rest[j], rest[l]) {
      assert Far(free[if j < k then j else j + 1], free[if l < k then l else l + 1]);
    }
  }

  /** Words of a block that are not links of the list: its tags, and all of a taken block. */
  lemma NotLinkWord(h: Heap, i: int, w: int)
    requires Inv(h) && i in h.tags && i <= w < End(h, i)
    requires h.tags[i] < 0 || w == i || w == End(h, i) - 1
    ensures !LinkWord(h.free, w)
  {
    forall j ensures !LinkOf(h.free, j, w) {
      if 0 <= j < |h.free| {
        var f := h.free[j];
        assert OnList(h, f);
        AvailableFacts(h, f);
        assert f != i ==> Apart(h, f, i);
      }
    }
  }

  // ----- frames -----

  /** `m'` differs from `m` at most in the words lo..hi and in the links of the list. */
  ghost predicate Framed(m: seq<int>, m': seq<int>, free: seq<int>, lo: int, hi: int)
  {
    |m'| == |m| && forall w | 0 <= w < |m| && !(lo <= w < hi) && !LinkWord(free, w) :: m'[w] == m[w]
  }

  /** Every word of block `i`, tags included, is the same in `m` and `m'`. */
  ghost predicate WordsKept(h: Heap, m: seq<int>, m': seq<int>, i: int)
    requires i in h.tags
  {
    0 <= i && End(h, i) <= |m| && |m| == |m'| && m'[i..End(h, i)] == m[i..End(h, i)]
  }

  /** A block outside the changed words keeps its tags, and a taken one keeps every word. */
  lemma FramedBlock(h: Heap, m: seq<int>, m': seq<int>, lo: int, hi: int, i: int)
    requires Inv(h) && |m| == h.len && Framed(m, m', h.free, lo, hi)
    requires i in h.tags && TagAt(m, i, h.tags[i]) && (End(h, i) <= lo || hi <= i)
    ensures TagAt(m', i, h.tags[i])
    ensures h.tags[i] < 0 ==> WordsKept(h, m, m', i)
  {
    BlockFacts(h, i);
    NotLinkWord(h, i, i);
    NotLinkWord(h, i, End(h, i) - 1);
    if h.tags[i] < 0 {
      forall w | i <= w < End(h, i) ensures m'[w] == m[w] {
        NotLinkWord(h, i, w);
      }
    }
  }

  /** After carving, the new words represent the carved heap and every taken block keeps its words. */
  lemma CarveRepresents(h: Heap, m: seq<int>, avail: int, it: int, ints: int, m': seq<int>, avail': int)
    requires CanCarve(h, it, ints) && Represents(m, avail, h)
    requires Framed(m, m', h.free, it, End(h, it))
    requires TagAt(m', it, Carve(h, it, ints).tags[it])
    requires h.tags[it] - ints >= 4 ==> TagAt(m', it + ints, h.tags[it] - ints)
    requires Linked(m', avail', Carve(h, it, ints).free)
    ensures Represents(m', avail', Carve(h, it, ints))
    ensures forall i {:trigger WordsKept(h, m, m', i)} | i in h.tags && h.tags[i] < 0 :: WordsKept(h, m, m', i)
  {
    var h' := Carve(h, it, ints);
    forall i | i in h'.tags ensures TagAt(m', i, h'.tags[i]) {
      if i in h.tags && i != it { CarveKeepsBlock(h, m, avail, it, m', i); }
    }
    forall i | i in h.tags && h.tags[i] < 0 ensures WordsKept(h, m, m', i) {
      CarveKeepsBlock(h, m, avail, it, m', i);
    }
    AvailableFacts(h, it);
    if ints < h.tags[it] { CutIsFresh(h, it, ints); }
  }

  lemma CarveKeepsBlock(h: Heap, m: seq<int>, avail: int, it: int, m': seq<int>, i: int)
    requires Inv(h) && Available(h, it) && Represents(m, avail, h)
    requires Framed(m, m', h.free, it, End(h, it)) && i in h.tags && i != it
    ensures TagAt(m', i, h.tags[i]) && (h.tags[i] < 0 ==> WordsKept(h, m, m', i))
  {
    assert Apart(h, it, i) && TagAt(m, i, h.tags[i]);
    FramedBlock(h, m, m', it, End(h, it), i);
  }

  lemma InitialRepresents(m: seq<int>, m': seq<int>, avail: int, len: int)
    requires 8 <= len == |m| && m[0] == -2 == m[1] && TagAt(m, 2, len - 4) && Linked(m, avail, [2] + [])
    requires m' == m[len - 2 := -2][len - 1 := -2]
    ensures Represents(m', avail, Initial(len))
  {
    assert [2] + [] == [2];
    assert LinkAt(m, [2], 0);
    assert LinkAt(m', [2], 0);
  }

  // ----- releasing -----

  /** A block that is neither released nor joined lies outside the joined block. */
  lemma ReleaseMisses(h: Heap, l: int, idx: int, r: int, i: int)
    requires Neighbours(h, l, idx, r)
    requires i in h.tags && i != idx && (i == l ==> h.tags[l] < 0) && (i == r ==> h.tags[r] < 0)
    ensures var start := Start(h, l, idx); End(h, i) <= start || start + Release(h, l, idx, r).tags[start] <= i
  {
    assert Within(h, i) && Within(h, l) && Within(h, idx) && Within(h, r) && Apart(h, i, idx);
    assert i != l ==> Apart(h, i, l);
    assert i != r ==> Apart(h, i, r);
  }

  ghost predicate ReleaseWritten(h: Heap, l: int, idx: int, r: int, m: seq<int>, m': seq<int>)
    requires l in h.tags && idx in h.tags && r in h.tags
  {
    var start := Start(h, l, idx);
    var sz := Release(h, l, idx, r).tags[start];
    TagAt(m', start, sz) && Framed(m, m', h.free, start, start + sz)
  }

  /** The same for releasing the block `idx`. */
  lemma ReleaseRepresents(h: Heap, m: seq<int>, avail: int, l: int, idx: int, r: int,
                          m': seq<int>, avail': int)
    requires Neighbours(h, l, idx, r) && Represents(m, avail, h)
    requires ReleaseWritten(h, l, idx, r, m, m')
    requires Linked(m', avail', Release(h, l, idx, r).free)
    ensures Represents(m', avail', Release(h, l, idx, r))
    ensures forall i {:trigger WordsKept(h, m, m', i)} | i in h.tags && h.tags[i] < 0 && i != idx :: WordsKept(h, m, m', i)
  {
    var h' := Release(h, l, idx, r);
    BlockFacts(h, l);
    BlockFacts(h, r);
    forall i | i in h'.tags ensures TagAt(m', i, h'.tags[i]) {
      if i != Start(h, l, idx) {
        ReleaseKeepsBlock(h, m, avail, l, idx, r, m', i);
      }
    }
    forall i | i in h.tags && h.tags[i] < 0 && i != idx ensures WordsKept(h, m, m', i) {
      ReleaseKeepsBlock(h, m, avail, l, idx, r, m', i);
    }
  }

  lemma ReleaseKeepsBlock(h: Heap, m: seq<int>, avail: int, l: int, idx: int, r: int, m': seq<int>, i: int)
    requires Neighbours(h, l, idx, r) && Represents(m, avail, h)
    requires ReleaseWritten(h, l, idx, r, m, m')
    requires i in h.tags && i != idx && (i == l ==> h.tags[l] < 0) && (i == r ==> h.tags[r] < 0)
    ensures TagAt(m', i, h.tags[i])
    ensures h.tags[i] < 0 ==> WordsKept(h, m, m', i)
  {
    ReleaseMisses(h, l, idx, r, i);
    assert TagAt(m, i, h.tags[i]);
    var start := Start(h, l, idx);
    FramedBlock(h, m, m', start, start + Release(h, l, idx, r).tags[start], i);
  }

  // ----- steps of the operations -----

  /** Words that are not links can be overwritten without disturbing the list. */
  lemma LinkedFrame(m: seq<int>, m': seq<int>, avail: int, free: seq<int>)
    requires Linked(m, avail, free) && |m'| == |m|
    requires forall w | 0 <= w < |m| && LinkWord(free, w) :: m'[w] == m[w]
    ensures Linked(m', avail, free)
  {
    forall k | 0 <= k < |free| ensures LinkAt(m', free, k) {
      assert LinkAt(m, free, k);
      assert LinkOf(free, k, free[k] + 1) && LinkOf(free, k, free[k] + 2);
    }
  }

  /** Off the list, a block's words are links of no other block, and part of it can join. */
  lemma BlockCanJoin(h: Heap, rest: seq<int>, lo: int, hi: int)
    requires Inv(h) && Spaced(rest, h.len) && 2 <= lo && lo + 4 <= hi <= h.len - 2
    requires forall f {:trigger Outside(h, f, lo, hi)} | f in rest :: Outside(h, f, lo, hi)
    ensures Spaced([lo] + rest, h.len)
    ensures forall w | lo <= w < hi :: !LinkWord(rest, w)
  {
    var all := [lo] + rest;
    forall j | 0 <= j < |all| ensures Room(all[j], h.len) {
      if j > 0 { assert Room(rest[j - 1], h.len); }
    }
    forall j, k | 0 <= j < |all| && 0 <= k < |all| && j != k ensures Far(all[j], all[k]) {
      if j > 0 && k > 0 { assert Far(rest[j - 1], rest[k - 1]); }
      else if j > 0 { assert all[j] in rest; assert Outside(h, all[j], lo, hi); }
      else { assert all[k] in rest; assert Outside(h, all[k], lo, hi); }
    }
    forall w | lo <= w < hi ensures !LinkWord(rest, w) {
      forall j ensures !LinkOf(rest, j, w) {
        if 0 <= j < |rest| { assert rest[j] in rest; assert Outside(h, rest[j], lo, hi); }
      }
    }
  }

  ghost predicate Outside(h: Heap, f: int, lo: int, hi: int)
  {
    f in h.tags && 4 <= h.tags[f] && (End(h, f) <= lo || hi <= f)
  }

  lemma FewerLinkWords(rest: seq<int>, free: seq<int>, w: int)
    requires forall f | f in rest :: f in free
    ensures LinkWord(rest, w) ==> LinkWord(free, w)
  {
    if LinkWord(rest, w) {
      var j :| LinkOf(rest, j, w);
      assert rest[j] in free;
      var k :| 0 <= k < |free| && free[k] == rest[j];
      assert LinkOf(free, k, w);
    }
  }

  /** Changes to a list without some block, on top of changes to the list with it. */
  lemma FramedTwice(m: seq<int>, m1: seq<int>, m2: seq<int>, m3: seq<int>, free: seq<int>, rest: seq<int>,
                    lo: int, mid: int, hi: int)
    requires Framed(m, m1, free, 0, 0) && 0 <= lo <= mid <= hi <= |m| && |m2| == |m|
    requires forall w | 0 <= w < |m| && !(lo <= w < hi) :: m2[w] == m1[w]
    requires Framed(m2, m3, rest, mid, hi)
    requires forall f | f in rest :: f in free
    ensures Framed(m, m3, free, lo, hi)
  {
    forall w | 0 <= w < |m| && !(lo <= w < hi) && !LinkWord(free, w) ensures m3[w] == m[w] {
      FewerLinkWords(rest, free, w);
    }
  }

  lemma FramedTag(m: seq<int>, m': seq<int>, free: seq<int>, i: int, t: int, lo: int, hi: int)
    requires TagAt(m, i, t) && Framed(m, m', free, lo, hi) && i + Abs(t) <= lo
    requires !LinkWord(free, i) && !LinkWord(free, i + Abs(t) - 1)
    ensures TagAt(m', i, t)
  {
  }
}
