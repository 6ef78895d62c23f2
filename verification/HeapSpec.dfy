/** The abstract heap: which block starts where, and the order of the free list.

    A heap of `len` words is cut into blocks.  `tags` maps the index of a block's header
    to the word stored in its header and footer: the block's size in words, positive when
    the block is available and negative when it is taken.  `free` lists the headers of the
    available blocks in the order of the `avail` list. */
module HeapSpec {

  datatype Heap = Heap(len: int, tags: map<int, int>, free: seq<int>)

  function Abs(x: int): (r: nat)
  {
    if x < 0 then -x else x
  }

  function End(h: Heap, i: int): int
    requires i in h.tags
  {
    i + Abs(h.tags[i])
  }

  ghost predicate Within(h: Heap, i: int)
    requires i in h.tags
  {
    0 <= i && 2 <= Abs(h.tags[i]) && End(h, i) <= h.len
  }

  ghost predicate Chained(h: Heap, i: int)
    requires i in h.tags
  {
    End(h, i) == h.len || End(h, i) in h.tags
  }

  ghost predicate Apart(h: Heap, i: int, j: int)
    requires i in h.tags && j in h.tags
  {
    End(h, i) <= j || End(h, j) <= i
  }

  /** Blocks tile the words 0..len: every block ends at the end of the heap or where another
      block starts, and no two blocks share a word. */
  ghost predicate Tiled(h: Heap)
  {
    && 0 in h.tags
    && (forall i {:trigger Within(h, i)} | i in h.tags :: Within(h, i))
    && (forall i {:trigger Chained(h, i)} | i in h.tags :: Chained(h, i))
    && (forall i, j {:trigger Apart(h, i, j)} | i in h.tags && j in h.tags && i != j :: Apart(h, i, j))
  }

  ghost predicate Roomy(h: Heap, i: int)
    requires i in h.tags
  {
    4 <= Abs(h.tags[i])
  }

  /** The two taken blocks of two words at the ends; every other block can hold the two tags
      and the two links. */
  ghost predicate Fenced(h: Heap)
  {
    && 8 <= h.len
    && 0 in h.tags && h.tags[0] == -2
    && h.len - 2 in h.tags && h.tags[h.len - 2] == -2
    && (forall i {:trigger Roomy(h, i)} | i in h.tags && i != 0 && i != h.len - 2 :: Roomy(h, i))
  }

  ghost predicate NoRepeats(s: seq<int>)
  {
    forall j, k | 0 <= j < k < |s| :: s[j] != s[k]
  }

  ghost predicate Available(h: Heap, i: int)
  {
    i in h.tags && h.tags[i] > 0
  }

  ghost predicate OnList(h: Heap, i: int)
  {
    i in h.free
  }

  /** The free list holds exactly the available blocks, each once. */
  ghost predicate Listed(h: Heap)
  {
    && NoRepeats(h.free)
    && (forall i {:trigger Available(h, i)} {:trigger OnList(h, i)} :: Available(h, i) <==> OnList(h, i))
  }

  ghost predicate RightTaken(h: Heap, i: int)
    requires i in h.tags
  {
    End(h, i) in h.tags && h.tags[End(h, i)] < 0
  }

  /** No two available blocks are adjacent. */
  ghost predicate Coalesced(h: Heap)
  {
    forall i {:trigger RightTaken(h, i)} | Available(h, i) :: RightTaken(h, i)
  }

  ghost predicate Inv(h: Heap)
  {
    Tiled(h) && Fenced(h) && Listed(h) && Coalesced(h)
  }

  // ----- operations -----

  /** The heap after heapInit's three block writes. */
  function Initial(len: int): Heap
    requires 8 <= len
  {
    Heap(len, map[0 := -2, 2 := len - 4, len - 2 := -2], [2])
  }

  function Without(s: seq<int>, x: int): (w: seq<int>)
    ensures forall y :: y in w <==> y in s && y != x
  {
    if s == [] then []
    else if s[0] == x then Without(s[1..], x)
    else [s[0]] + Without(s[1..], x)
  }

  /** Words asked for: the payload in words plus the two tags, at least four.  `bytes` is a
      32-bit unsigned value and the addition wraps. */
  function RequestInts(bytes: int): (ints: int)
    requires 0 <= bytes < 0x1_0000_0000
    ensures 4 <= ints <= 0x4000_0001
  {
    var ints := ((bytes + 3) % 0x1_0000_0000) / 4 + 2;
    if ints < 4 then 4 else ints
  }

  function SizeIn(h: Heap, i: int): nat
  {
    if i in h.tags then Abs(h.tags[i]) else 0
  }

  /** The available blocks of at least `ints` words, in list order. */
  function Fitting(h: Heap, free: seq<int>, ints: int): seq<int>
  {
    if free == [] then []
    else
      var rest := Fitting(h, free[1..], ints);
      if SizeIn(h, free[0]) >= ints then [free[0]] + rest else rest
  }

  function Prefix(s: seq<int>, n: nat): (p: seq<int>)
    ensures p <= s && |p| <= n && (|p| == n || p == s)
  {
    if |s| <= n then s else s[..n]
  }

  /** The k-th block of `s` is the first of its smallest blocks. */
  ghost predicate SmallestAt(h: Heap, s: seq<int>, k: nat)
    requires k < |s|
  {
    && (forall j | 0 <= j < k :: SizeIn(h, s[k]) < SizeIn(h, s[j]))
    && (forall j | k <= j < |s| :: SizeIn(h, s[k]) <= SizeIn(h, s[j]))
  }

  /** Taking `ints` words at the front of the available block `it`; a remainder of four words
      or more becomes a new available block at the head of the list. */
  function Carve(h: Heap, it: int, ints: int): Heap
    requires it in h.tags
  {
    var rest := Without(h.free, it);
    var extra := h.tags[it] - ints;
    if extra >= 4
    then Heap(h.len, h.tags[it := -ints][it + ints := extra], [it + ints] + rest)
    else Heap(h.len, h.tags[it := -h.tags[it]], rest)
  }

  ghost predicate IsLeft(h: Heap, i: int, l: int)
  {
    l in h.tags && End(h, l) == i
  }

  ghost predicate Live(h: Heap, i: int)
  {
    i in h.tags && h.tags[i] < 0 && i != 0 && i != h.len - 2
  }

  /** Releasing the taken block `idx` whose neighbours start at `l` and `r`: whichever of them
      is available is joined, and the result goes to the head of the list. */
  function Release(h: Heap, l: int, idx: int, r: int): Heap
    requires l in h.tags && idx in h.tags && r in h.tags
  {
    var joinL, joinR := h.tags[l] > 0, h.tags[r] > 0;
    var start := if joinL then l else idx;
    var sz := Abs(h.tags[idx]) + (if joinL then h.tags[l] else 0) + (if joinR then h.tags[r] else 0);
    var free1 := if joinL then Without(h.free, l) else h.free;
    var free2 := if joinR then Without(free1, r) else free1;
    Heap(h.len, ((if joinR then h.tags - {r} else h.tags) - {idx})[start := sz], [start] + free2)
  }
}
