/** The steps of the heap operations, stated on words. */
module HeapSteps {
  import opened HeapSpec
  import opened HeapLemmas
  import opened HeapMemory
  import opened HeapShape

  /** A pointer handed to or by the heap: null, or the address of a word of the array.
      Word 0 is the pointer that a request for zero bytes gets. */
  datatype Ptr = Null | Word(index: nat)

  // ----- taking a block -----

  /** The new block starts one word before the pointer, was available, is now live, and no
      other taken block has changed; it has the words asked for, or up to three more. */
  ghost predicate Allocated(h: Heap, bytes: int, res: Ptr, h': Heap)
    requires 0 <= bytes < 0x1_0000_0000
  {
    && res.Word? && 0 < res.index
    && var it := res.index - 1;
    && CanCarve(h, it, RequestInts(bytes))
    && h' == Carve(h, it, RequestInts(bytes))
  }

  /** The block is the first of the list that has the words asked for. */
  ghost predicate FirstFit(h: Heap, bytes: int, it: int)
    requires 0 <= bytes < 0x1_0000_0000
  {
    var fits := Fitting(h, h.free, RequestInts(bytes));
    fits != [] && it == fits[0]
  }

  ghost function FindListed(h: Heap, it: int): (k: nat)
    requires it in h.free
    ensures k < |h.free| && h.free[k] == it
  {
    var k: nat :| k < |h.free| && h.free[k] == it;
    k
  }

  /** Every taken block keeps all its words. */
  ghost predicate TakenKept(h: Heap, m: seq<int>, m': seq<int>)
  {
    forall i {:trigger WordsKept(h, m, m', i)} | i in h.tags && h.tags[i] < 0 :: WordsKept(h, m, m', i)
  }

  lemma AllKept(h: Heap, m: seq<int>, avail: int)
    requires Inv(h) && Represents(m, avail, h)
    ensures TakenKept(h, m, m)
  {
    forall i | i in h.tags && h.tags[i] < 0 ensures WordsKept(h, m, m, i) {
      BlockFacts(h, i);
    }
  }

  lemma BestFits(h: Heap, ints: int, it: int, mx: int)
    requires Inv(h) && BestFit(h, ints, it, mx) && it != 0 && 4 <= ints
    ensures CanCarve(h, it, ints) && mx == h.tags[it] && 2 <= it
  {
    FittingElements(h, h.free, ints);
    assert it in Fitting(h, h.free, ints);
    assert OnList(h, it);
    AvailableFacts(h, it);
  }

  lemma FirstFits(h: Heap, m: seq<int>, avail: int, ints: int)
    requires Inv(h) && Represents(m, avail, h) && Fitting(h, h.free, ints) != [] && 4 <= ints
    ensures var p := Fitting(h, h.free, ints)[0];
      CanCarve(h, p, ints) && 2 <= p < |m| && m[p] == h.tags[p]
  {
    FittingElements(h, h.free, ints);
    var p := Fitting(h, h.free, ints)[0];
    assert p in Fitting(h, h.free, ints);
    assert OnList(h, p);
    AvailableFacts(h, p);
    assert TagAt(m, p, h.tags[p]);
  }

  lemma OthersOutside(h: Heap, it: int, f: int)
    requires Inv(h) && Available(h, it) && OnList(h, f) && f != it
    ensures Outside(h, f, it, End(h, it))
  {
    AvailableFacts(h, f);
    assert Apart(h, it, f);
  }

  lemma CarveRoom(h: Heap, it: int, ints: int)
    requires CanCarve(h, it, ints)
    ensures OnList(h, it) && Spaced(h.free, h.len) && 2 <= it && End(h, it) <= h.len - 2
    ensures forall w | it <= w < End(h, it) :: !LinkWord(Without(h.free, it), w)
    ensures h.tags[it] - ints >= 4 ==> Spaced([it + ints] + Without(h.free, it), h.len)
  {
    FreeListSpaced(h);
    AvailableFacts(h, it);
    WithoutSpaced(h.free, h.len, FindListed(h, it));
    RestJoins(h, it, it);
    if h.tags[it] - ints >= 4 {
      RestJoins(h, it, it + ints);
    }
  }

  lemma RestJoins(h: Heap, it: int, lo: int)
    requires Inv(h) && Available(h, it) && 2 <= it <= lo && lo + 4 <= End(h, it) <= h.len - 2
    requires Spaced(Without(h.free, it), h.len)
    ensures Spaced([lo] + Without(h.free, it), h.len)
    ensures forall w | lo <= w < End(h, it) :: !LinkWord(Without(h.free, it), w)
  {
    var rest := Without(h.free, it);
    forall f | f in rest ensures Outside(h, f, lo, End(h, it)) {
      assert OnList(h, f);
      OthersOutside(h, it, f);
    }
    BlockCanJoin(h, rest, lo, End(h, it));
  }

  // ----- releasing a block -----

  /** The words next to a taken block are its neighbours' tags. */
  lemma NeighbourWords(h: Heap, m: seq<int>, avail: int, l: int, idx: int, r: int)
    requires Neighbours(h, l, idx, r) && Represents(m, avail, h)
    ensures 0 <= l < idx < r < |m|
    ensures m[l] == h.tags[l] && m[idx] == h.tags[idx] && m[r] == h.tags[r]
    ensures m[idx - 1] == h.tags[l]
  {
    assert TagAt(m, l, h.tags[l]) && TagAt(m, idx, h.tags[idx]) && TagAt(m, r, h.tags[r]);
  }

  ghost function Free1(h: Heap, l: int): seq<int>
  {
    if Available(h, l) then Without(h.free, l) else h.free
  }

  ghost function Free2(h: Heap, l: int, r: int): seq<int>
  {
    if Available(h, r) then Without(Free1(h, l), r) else Free1(h, l)
  }

  ghost predicate ReleaseReady(h: Heap, l: int, idx: int, r: int)
    requires Neighbours(h, l, idx, r)
  {
    ReleaseSpan(h, l, idx, r);
    var start := Start(h, l, idx);
    var end := start + Release(h, l, idx, r).tags[start];
    && Spaced(h.free, h.len) && Spaced(Free1(h, l), h.len) && Spaced([start] + Free2(h, l, r), h.len)
    && (forall w | start <= w < end :: !LinkWord(Free2(h, l, r), w))
    && (Available(h, l) ==> OnList(h, l)) && (Available(h, r) ==> r in Free1(h, l))
    && 0 <= start && start + 4 <= end <= h.len
    && !LinkWord(h.free, l) && !LinkWord(h.free, r)
  }

  lemma ReleaseRoom(h: Heap, l: int, idx: int, r: int)
    requires Neighbours(h, l, idx, r)
    ensures ReleaseReady(h, l, idx, r)
  {
    ReleaseSpan(h, l, idx, r);
    BlockFacts(h, l);
    BlockFacts(h, r);
    FreeListSpaced(h);
    var start := Start(h, l, idx);
    var end := start + Release(h, l, idx, r).tags[start];
    ReleaseKeepsInv(h, l, idx, r);
    BlockFacts(Release(h, l, idx, r), start);
    if Available(h, l) {
      assert OnList(h, l);
      WithoutSpaced(h.free, h.len, FindListed(h, l));
    }
    if Available(h, r) {
      assert OnList(h, r);
      WithoutSpaced(Free1(h, l), h.len, FindIn(Free1(h, l), r));
    }
    var rest := Free2(h, l, r);
    forall f | f in rest ensures Outside(h, f, start, end) {
      assert OnList(h, f);
      AvailableFacts(h, f);
      ReleaseMisses(h, l, idx, r, f);
    }
    BlockFacts(h, idx);
    assert Available(Release(h, l, idx, r), start);
    AvailableFacts(Release(h, l, idx, r), start);
    BlockCanJoin(h, rest, start, end);
    NotLinkWord(h, l, l);
    NotLinkWord(h, r, r);
  }

  ghost function FindIn(free: seq<int>, x: int): (k: nat)
    requires x in free
    ensures k < |free| && free[k] == x
  {
    var k: nat :| k < |free| && free[k] == x;
    k
  }

  lemma FramedThrice(m: seq<int>, m1: seq<int>, m2: seq<int>, m3: seq<int>,
                     free: seq<int>, free1: seq<int>, free2: seq<int>, lo: int, hi: int)
    requires Framed(m, m1, free, 0, 0) && Framed(m1, m2, free1, 0, 0) && Framed(m2, m3, free2, lo, hi)
    requires (forall f | f in free1 :: f in free) && (forall f | f in free2 :: f in free1)
    ensures Framed(m, m3, free, lo, hi)
  {
    forall w | 0 <= w < |m| && !(lo <= w < hi) && !LinkWord(free, w) ensures m3[w] == m[w] {
      FewerLinkWords(free1, free, w);
      FewerLinkWords(free2, free1, w);
    }
  }

  // ----- writing to a live block -----

  /** Words between the tags of a live block can be overwritten at will. */
  lemma PayloadWritten(h: Heap, m: seq<int>, avail: int, m': seq<int>, i: int)
    requires Inv(h) && Represents(m, avail, h) && Live(h, i) && |m'| == |m|
    requires forall w | 0 <= w < |m| && !(i < w < End(h, i) - 1) :: m'[w] == m[w]
    ensures Represents(m', avail, h)
    ensures OthersKept(h, m, m', i)
  {
    BlockFacts(h, i);
    forall j | j in h.tags
      ensures TagAt(m', j, h.tags[j])
      ensures h.tags[j] < 0 && j != i ==> WordsKept(h, m, m', j)
    {
      BlockFacts(h, j);
      assert TagAt(m, j, h.tags[j]);
      assert j != i ==> Apart(h, i, j);
    }
    forall w | 0 <= w < |m| && LinkWord(h.free, w) ensures m'[w] == m[w] {
      if i <= w < End(h, i) { NotLinkWord(h, i, w); }
    }
    LinkedFrame(m, m', avail, h.free);
  }

  // ----- what an allocation means to its caller -----

  /** The new block was nobody's, holds the bytes asked for exactly when the size computation
      did not wrap, and shares no word with any block in use; the others stay in use. */
  lemma AllocatedBlock(h: Heap, bytes: int, res: Ptr, h': Heap)
    requires Inv(h) && 0 <= bytes < 0x1_0000_0000 && Allocated(h, bytes, res, h')
    ensures Inv(h') && Live(h', res.index - 1) && !Live(h, res.index - 1)
    ensures bytes <= 4 * (SizeIn(h', res.index - 1) - 2) <==> bytes + 3 < 0x1_0000_0000
    ensures forall i | Live(h, i) :: Live(h', i) && h'.tags[i] == h.tags[i]
              && (End(h', i) <= res.index - 1 || End(h', res.index - 1) <= i)
  {
    var it := res.index - 1;
    var ints := RequestInts(bytes);
    CarveKeepsInv(h, it, ints);
    CarveTakes(h, it, ints);
    RequestHoldsBytes(bytes);
    forall i | Live(h, i)
      ensures Live(h', i) && h'.tags[i] == h.tags[i] && (End(h', i) <= it || End(h', it) <= i)
    {
      if ints < h.tags[it] { CutIsFresh(h, it, ints); }
      assert Apart(h', it, i);
    }
  }

  // ----- moving a block -----

  ghost predicate Moved(h: Heap, idx: int, bytes: int, res: Ptr, h': Heap)
    requires 0 <= bytes < 0x1_0000_0000
  {
    exists h1 :: Allocated(h, bytes, res, h1) && Releases(h1, idx, h')
  }

  /** After an allocation the old block is still live and the two share no word, not even the
      word after the old block. */
  lemma OldAndNew(h: Heap, idx: int, bytes: int, res: Ptr, h1: Heap)
    requires Inv(h) && Live(h, idx) && 0 < bytes && bytes + 3 < 0x1_0000_0000
    requires Allocated(h, bytes, res, h1)
    ensures Inv(h1) && Live(h1, idx) && h1.tags[idx] == h.tags[idx] && h1.len == h.len
    ensures var n := res.index - 1; n != idx && Live(h1, n) && bytes <= 4 * (Abs(h1.tags[n]) - 2)
    ensures var n := res.index - 1; End(h1, n) <= idx || End(h1, idx) <= n
    ensures 0 <= idx && End(h1, idx) < h1.len && 0 <= res.index - 1 && End(h1, res.index - 1) <= h1.len
  {
    var it := res.index - 1;
    var ints := RequestInts(bytes);
    CarveKeepsInv(h, it, ints);
    CarveTakes(h, it, ints);
    RequestHoldsBytes(bytes);
    BlockFacts(h, idx);
    if ints < h.tags[it] { CutIsFresh(h, it, ints); }
    assert Apart(h1, it, idx);
    BlockFacts(h1, it);
  }

  /** How many bytes survive: the smaller of the request and the old payload. */
  function Kept(h: Heap, idx: int, bytes: nat): nat
  {
    var payload := 4 * (SizeIn(h, idx) - 2);
    if payload < 0 then 0 else if bytes < payload then bytes else payload
  }

  ghost predicate OthersKept(h: Heap, m: seq<int>, m': seq<int>, i: int)
  {
    forall j {:trigger WordsKept(h, m, m', j)} | j in h.tags && h.tags[j] < 0 && j != i :: WordsKept(h, m, m', j)
  }

  /** What the other blocks keep through allocation, copying and release. */
  lemma MoveKeepsOthers(h: Heap, h1: Heap, idx: int, bytes: int, res: Ptr,
                        m0: seq<int>, m1: seq<int>, m2: seq<int>, m3: seq<int>)
    requires Inv(h) && Live(h, idx) && 0 < bytes && bytes + 3 < 0x1_0000_0000 && Allocated(h, bytes, res, h1)
    requires TakenKept(h, m0, m1) && OthersKept(h1, m1, m2, res.index - 1) && OthersKept(h1, m2, m3, idx)
    ensures OthersKept(h, m0, m3, idx)
  {
    forall i | i in h.tags && h.tags[i] < 0 && i != idx ensures WordsKept(h, m0, m3, i) {
      MoveKeeps(h, h1, idx, bytes, res, m0, m1, m2, m3, i);
    }
  }

  lemma MoveKeeps(h: Heap, h1: Heap, idx: int, bytes: int, res: Ptr,
                  m0: seq<int>, m1: seq<int>, m2: seq<int>, m3: seq<int>, i: int)
    requires Inv(h) && Live(h, idx) && 0 < bytes && bytes + 3 < 0x1_0000_0000 && Allocated(h, bytes, res, h1)
    requires TakenKept(h, m0, m1) && OthersKept(h1, m1, m2, res.index - 1) && OthersKept(h1, m2, m3, idx)
    requires i in h.tags && h.tags[i] < 0 && i != idx
    ensures WordsKept(h, m0, m3, i)
  {
    assert WordsKept(h, m0, m1, i);
    assert i in h1.tags && h1.tags[i] == h.tags[i] by {
      var it := res.index - 1;
      if RequestInts(bytes) < h.tags[it] { CutIsFresh(h, it, RequestInts(bytes)); }
    }
    assert WordsKept(h1, m1, m2, i) && WordsKept(h1, m2, m3, i);
  }

  // ----- searching -----

  /** What the kernel's search finds: nothing when no block fits, otherwise the first of the
      smallest among the first 20 fitting blocks in list order. */
  ghost predicate BestFit(h: Heap, ints: int, it: int, mx: int)
  {
    var first20 := Prefix(Fitting(h, h.free, ints), 20);
    && (it == 0 <==> Fitting(h, h.free, ints) == [])
    && (it != 0 ==> mx == SizeIn(h, it) && exists k: nat | k < |first20| :: first20[k] == it && SmallestAt(h, first20, k))
  }

  /** The search after the first k blocks of the list, `best` being where `it` stands among the
      fitting ones. */
  ghost predicate Searching(h: Heap, ints: int, k: int, best: int, it: int, mx: int, countDown: int)
  {
    && 0 <= k <= |h.free|
    && var found := Fitting(h, h.free[..k], ints);
    && countDown == 20 - |found|
    && if it == 0 then found == [] && mx == 0x7FFF_FFFF
       else 0 <= best < |found| && found[best] == it && SmallestAt(h, found, best) && mx == SizeIn(h, it)
  }

  ghost predicate ReadableAt(m: seq<int>, h: Heap, k: int)
    requires 0 <= k < |h.free|
  {
    var p := h.free[k];
    && 2 <= p && p + 3 < |m| && p in h.tags && m[p] == h.tags[p]
    && 4 <= h.tags[p] < 0x7FFF_FFFF && m[p + 1] == NextOf(h.free, k)
  }

  /** What a walk along the list meets. */
  ghost predicate Readable(m: seq<int>, avail: int, h: Heap)
  {
    avail == NextOf(h.free, -1) && forall k {:trigger ReadableAt(m, h, k)} | 0 <= k < |h.free| :: ReadableAt(m, h, k)
  }

  lemma ListEnds(m: seq<int>, avail: int, h: Heap, k: int)
    requires Readable(m, avail, h) && -1 <= k < |h.free|
    ensures NextOf(h.free, k) == 0 <==> k + 1 == |h.free|
  {
    if k + 1 < |h.free| {
      assert ReadableAt(m, h, k + 1);
    }
  }

  lemma ListReadable(m: seq<int>, avail: int, h: Heap)
    requires Inv(h) && Represents(m, avail, h) && |m| <= 0x4000_0000
    ensures Readable(m, avail, h)
  {
    forall k | 0 <= k < |h.free| ensures ReadableAt(m, h, k) {
      assert OnList(h, h.free[k]);
      AvailableFacts(h, h.free[k]);
      assert TagAt(m, h.free[k], h.tags[h.free[k]]) && LinkAt(m, h.free, k);
    }
  }

  lemma SearchStep(h: Heap, ints: int, k: int, best: int, it: int, mx: int, countDown: int)
    requires Searching(h, ints, k, best, it, mx, countDown) && k < |h.free|
    requires h.free[k] != 0 && SizeIn(h, h.free[k]) < 0x7FFF_FFFF
    ensures var p := h.free[k]; var sz := SizeIn(h, p);
      if sz < ints then Searching(h, ints, k + 1, best, it, mx, countDown)
      else if sz < mx then Searching(h, ints, k + 1, 20 - countDown, p, sz, countDown - 1)
      else Searching(h, ints, k + 1, best, it, mx, countDown - 1)
  {
    FittingNext(h, h.free, k, ints);
  }

  lemma SearchDone(h: Heap, ints: int, k: int, best: int, it: int, mx: int, countDown: int)
    requires Searching(h, ints, k, best, it, mx, countDown)
    requires countDown == 0 || (countDown > 0 && k == |h.free|)
    ensures BestFit(h, ints, it, mx)
  {
    FittingPrefix(h, h.free, k, ints);
    if k == |h.free| {
      assert h.free[..k] == h.free;
    }
    assert Prefix(Fitting(h, h.free, ints), 20) == Fitting(h, h.free[..k], ints);
  }

  // ----- link lemmas -----

  /** The words after unlinking the k-th block. */
  ghost function Unlinked(m: seq<int>, free: seq<int>, k: nat): seq<int>
    requires k < |free| && Spaced(free, |m|)
  {
    assert k > 0 ==> Room(free[k - 1], |m|);
    assert k + 1 < |free| ==> Room(free[k + 1], |m|);
    var p, n := PrevOf(free, k), NextOf(free, k);
    var m1 := if p == 0 then m else m[p + 1 := n];
    if n == 0 then m1 else m1[n + 2 := p]
  }

  lemma UnlinkedRest(m: seq<int>, avail: int, m': seq<int>, avail': int, free: seq<int>, k: nat)
    requires k < |free| && Spaced(free, |m|) && Linked(m, avail, free)
    requires avail' == (if PrevOf(free, k) == 0 then NextOf(free, k) else avail)
    requires m' == Unlinked(m, free, k)
    ensures Linked(m', avail', Without(free, free[k]))
    ensures Framed(m, m', free, 0, 0)
  {
    WithoutSpaced(free, |m|, k);
    var rest := Without(free, free[k]);
    UnlinkedFramed(m, free, k);
    assert k > 0 ==> Room(free[k - 1], |m|);
    assert k + 1 < |free| ==> Room(free[k + 1], |m|);
    forall j | 0 <= j < |rest|
      ensures LinkAt(m', rest, j)
    {
      UnlinkedAt(m, avail, free, k, j);
    }
  }

  /** Unlinking writes only to links of listed blocks. */
  lemma UnlinkedFramed(m: seq<int>, free: seq<int>, k: nat)
    requires k < |free| && Spaced(free, |m|)
    ensures Framed(m, Unlinked(m, free, k), free, 0, 0)
  {
    assert k > 0 ==> Room(free[k - 1], |m|) && LinkOf(free, k - 1, free[k - 1] + 1);
    assert k + 1 < |free| ==> Room(free[k + 1], |m|) && LinkOf(free, k + 1, free[k + 1] + 2);
  }

  lemma UnlinkedAt(m: seq<int>, avail: int, free: seq<int>, k: nat, j: nat)
    requires k < |free| && j < |free| - 1 && Spaced(free, |m|) && Linked(m, avail, free)
    ensures LinkAt(Unlinked(m, free, k), free[..k] + free[k + 1..], j)
  {
    var j0 := if j < k then j else j + 1;
    assert LinkAt(m, free, j0) && Room(free[j0], |m|);
    assert k > 0 ==> Room(free[k - 1], |m|);
    assert k + 1 < |free| ==> Room(free[k + 1], |m|);
    assert 0 < k && j0 != k - 1 ==> Far(free[j0], free[k - 1]);
    assert k + 1 < |free| && j0 != k + 1 ==> Far(free[j0], free[k + 1]);
  }

  lemma LinkedFront(m: seq<int>, avail: int, m': seq<int>, avail': int, free: seq<int>, i: int, ints: int)
    requires 4 <= ints && 0 <= i && i + ints <= |m| && Spaced([i] + free, |m|) && Linked(m, avail, free)
    requires !LinkWord(free, i) && !LinkWord(free, i + ints - 1)
    requires avail' == i && (avail != 0 ==> 0 <= avail && avail + 2 < |m|)
    requires var m1 := m[i := ints][i + ints - 1 := ints][i + 1 := avail][i + 2 := 0];
      m' == if avail == 0 then m1 else m1[avail + 2 := i]
    ensures Linked(m', avail', [i] + free)
    ensures TagAt(m', i, ints) && Framed(m, m', free, i, i + ints)
  {
    var all := [i] + free;
    assert free != [] ==> avail == free[0] && avail == all[1] && Far(all[0], all[1]) && Room(all[1], |m|);
    assert free != [] ==> LinkOf(free, 0, avail + 2);
    forall j | 0 <= j < |all|
      ensures LinkAt(m', all, j)
    {
      assert Room(all[j], |m|);
      if j > 0 {
        assert all[j] == free[j - 1] && LinkAt(m, free, j - 1);
        assert LinkOf(free, j - 1, free[j - 1] + 1) && LinkOf(free, j - 1, free[j - 1] + 2);
        assert Far(all[0], all[j]);
        assert j > 1 ==> Far(all[1], all[j]);
      }
    }
  }
}
