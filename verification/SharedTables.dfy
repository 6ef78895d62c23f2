/** How VMM::global_init builds the shared tables of low memory, one page at a time. */
module SharedTables {
  import opened PhysMem
  import opened PageTables

  /** The memory below page `v` is mapped and nothing else is in use. */
  ghost predicate Built(w: View, v: nat)
  {
    && 1 <= v <= FIRST_PRIVATE * ENTRIES && w.cfg.memSize == v * FRAME_SIZE && Inv(w)
    && forall f {:trigger w.role[f]} | f in w.role :: w.role[f].Root? || w.role[f].SharedTable?
  }

  lemma EntriesOf(cfg: Config, v: nat)
    requires 1 <= v && cfg.memSize == v * FRAME_SIZE
    ensures SharedEntries(cfg) == if v == 1 then 0 else (v + 1023) / ENTRIES
  {
  }

  /** Page v is the next one: its table exists unless v is the first page of a table. */
  lemma NextEntry(cfg: Config, v: nat)
    requires 1 <= v && cfg.memSize == v * FRAME_SIZE
    ensures SharedEntries(cfg.(memSize := (v + 1) * FRAME_SIZE)) == v / ENTRIES + 1
    ensures v / ENTRIES < SharedEntries(cfg) || v / ENTRIES == SharedEntries(cfg)
    ensures v / ENTRIES == SharedEntries(cfg) ==> v == 1 || v % ENTRIES == 0
  {
    EntriesOf(cfg, v);
    EntriesOf(cfg.(memSize := (v + 1) * FRAME_SIZE), v + 1);
  }

  /** The shared tables when memory ends at `end`. */
  ghost function SharedUpTo(cfg: Config, end: nat): nat
  {
    SharedEntries(cfg.(memSize := end))
  }

  /** The table of a page below the end of memory is one of the shared tables. */
  lemma SharedGrows(cfg: Config, v: nat)
    requires 1 <= v && v * FRAME_SIZE < cfg.memSize
    ensures SharedUpTo(cfg, v * FRAME_SIZE + FRAME_SIZE) <= SharedEntries(cfg)
  {
    EntriesOf(cfg.(memSize := (v + 1) * FRAME_SIZE), v + 1);
    assert (cfg.memSize + 0x3F_FFFF) / 0x40_0000 >= (v * FRAME_SIZE + 1 + 0x3F_FFFF) / 0x40_0000;
  }

  lemma EntryGrows(cfg: Config, v: nat, i: nat, j: nat)
    requires 1 <= v && cfg.memSize == v * FRAME_SIZE && j < ENTRIES
    ensures SharedEntry(cfg.(memSize := (v + 1) * FRAME_SIZE), i, j) ==
      if i == v / ENTRIES && j == v % ENTRIES then Entry(v) else SharedEntry(cfg, i, j)
    ensures v / ENTRIES < i ==> SharedEntry(cfg, i, j) == 0
    ensures i == v / ENTRIES && v % ENTRIES <= j ==> SharedEntry(cfg, i, j) == 0
    ensures v == 1 && i == 0 ==> SharedEntry(cfg, i, j) == 0
  {
    assert v / ENTRIES * ENTRIES + v % ENTRIES == v;
  }

  /** The view after map(shared, va, va) for page `v`. */
  function Extend(w: View, v: nat, t: nat): View
    requires w.root < |w.mem| && t < |w.mem| && v < FIRST_PRIVATE * ENTRIES
  {
    var i, j := v / ENTRIES, v % ENTRIES;
    var cfg := w.cfg.(memSize := (v + 1) * FRAME_SIZE);
    if Present(w.mem[w.root][i])
    then w.(mem := w.mem[t := w.mem[t][j := Entry(v)]], cfg := cfg)
    else
      var m1 := w.mem[t := ZeroFrame()];
      var m2 := m1[w.root := m1[w.root][i := Entry(t)]];
      w.(mem := m2[t := m2[t][j := Entry(v)]], role := w.role[t := SharedTable(i)], cfg := cfg)
  }

  ghost predicate CanExtend(w: View, v: nat, t: nat)
  {
    && Built(w, v) && v < FIRST_PRIVATE * ENTRIES && t < |w.mem|
    && if Present(w.mem[w.root][v / ENTRIES]) then t == FrameOf(w.mem[w.root][v / ENTRIES]) else t !in w.role
  }

  lemma HasTable(w: View, v: nat)
    requires Built(w, v) && v < FIRST_PRIVATE * ENTRIES
    ensures var e := w.mem[w.root][v / ENTRIES];
      if v / ENTRIES < SharedEntries(w.cfg)
      then Present(e) && e == Entry(FrameOf(e)) && FrameOf(e) < |w.mem| && HasRole(w, FrameOf(e), SharedTable(v / ENTRIES))
      else e == 0
  {
    assert FrameOk(w, w.root);
    assert RootEntryOk(w, v / ENTRIES);
    EntryFacts(FrameOf(w.mem[w.root][v / ENTRIES]));
    if v / ENTRIES < SharedEntries(w.cfg) { assert FrameOk(w, FrameOf(w.mem[w.root][v / ENTRIES])); }
  }

  lemma ExtendKeeps(w: View, v: nat, t: nat)
    requires CanExtend(w, v, t)
    ensures Built(Extend(w, v, t), v + 1)
  {
    var w' := Extend(w, v, t);
    HasTable(w, v);
    NextEntry(w.cfg, v);
    ExtendRoot(w, v, t);
    forall f | f in w'.role ensures FrameOk(w', f) && (w'.role[f].Root? || w'.role[f].SharedTable?) {
      assert f in w.role ==> FrameOk(w, f) && (w.role[f].Root? || w.role[f].SharedTable?);
      if w'.role[f].SharedTable? { ExtendTable(w, v, t, f); }
    }
  }

  lemma ExtendRoot(w: View, v: nat, t: nat)
    requires CanExtend(w, v, t)
    ensures var w' := Extend(w, v, t);
      HasRole(w', w.root, Root) && forall k: nat {:trigger RootEntryOk(w', k)} | k < ENTRIES :: RootEntryOk(w', k)
  {
    var w' := Extend(w, v, t);
    HasTable(w, v);
    NextEntry(w.cfg, v);
    assert FrameOk(w, w.root);
    EntryFacts(t);
    forall k: nat | k < ENTRIES ensures RootEntryOk(w', k) {
      assert RootEntryOk(w, k);
    }
  }

  lemma ExtendTable(w: View, v: nat, t: nat, f: nat)
    requires CanExtend(w, v, t) && f in Extend(w, v, t).role && Extend(w, v, t).role[f].SharedTable?
    ensures FrameOk(Extend(w, v, t), f)
  {
    var w' := Extend(w, v, t);
    HasTable(w, v);
    NextEntry(w.cfg, v);
    assert FrameOk(w, w.root);
    if f in w.role { assert FrameOk(w, f); }
    var i := w'.role[f].entry;
    forall j: nat | j < ENTRIES ensures w'.mem[f][j] == SharedEntry(w'.cfg, i, j) {
      EntryGrows(w.cfg, v, i, j);
      assert f in w.role ==> w.mem[f][j] == SharedEntry(w.cfg, i, j);
    }
  }

  /** Rounding the size of memory up to a page changes no entry. */
  lemma RoundedUp(w: View, v: nat, cfg: Config)
    requires Built(w, v) && cfg.ioAPIC == w.cfg.ioAPIC && cfg.localAPIC == w.cfg.localAPIC
    requires cfg.memSize <= v * FRAME_SIZE && (v == 1 || (v - 1) * FRAME_SIZE < cfg.memSize)
    ensures Inv(w.(cfg := cfg))
  {
    var w' := w.(cfg := cfg);
    RoundedEntries(w.cfg, cfg, v);
    forall f | f in w.role ensures FrameOk(w', f) {
      assert FrameOk(w, f) && (w.role[f].Root? || w.role[f].SharedTable?);
      match w.role[f]
      case Root =>
        forall k: nat | k < ENTRIES ensures RootEntryOk(w', k) { assert RootEntryOk(w, k); }
      case SharedTable(i) =>
        forall j: nat | j < ENTRIES ensures w'.mem[f][j] == SharedEntry(cfg, i, j) {
          assert w.mem[f][j] == SharedEntry(w.cfg, i, j);
        }
    }
  }

  /** The root and the shared tables up to `end` have been taken. */
  ghost predicate Paid(start: int, left: int, cfg: Config, end: nat)
  {
    0 <= left == start - 1 - SharedUpTo(cfg, end)
  }

  /** When the loop ends, low memory is mapped and exactly its tables have been taken. */
  lemma LowMemoryDone(w: View, v: nat, cfg: Config, start: int, left: int)
    requires Built(w, v) && cfg == w.cfg.(memSize := cfg.memSize)
    requires cfg.memSize <= v * FRAME_SIZE && (v == 1 || (v - 1) * FRAME_SIZE < cfg.memSize)
    requires Paid(start, left, cfg, v * FRAME_SIZE)
    ensures Inv(w.(cfg := cfg)) && 0 <= left == start - 1 - SharedEntries(cfg)
  {
    RoundedUp(w, v, cfg);
    RoundedEntries(w.cfg, cfg, v);
  }

  lemma RoundedEntries(big: Config, cfg: Config, v: nat)
    requires 1 <= v && big.memSize == v * FRAME_SIZE
    requires cfg.memSize <= v * FRAME_SIZE && (v == 1 || (v - 1) * FRAME_SIZE < cfg.memSize)
    ensures SharedEntries(cfg) == SharedEntries(big)
    ensures forall i: nat, j: nat {:trigger SharedEntry(cfg, i, j)} :: SharedEntry(cfg, i, j) == SharedEntry(big, i, j)
  {
    EntriesOf(big, v);
  }
}
