/** Two-level page tables held in physical frames, and who owns each frame.

    `role` says for every frame in use what it holds.  A table belongs to one entry of one
    directory and a leaf frame to one page of one directory, so two directories share nothing
    but the tables of low memory and the two APIC pages, which lie outside memory. */
module PageTables {
  import opened Common
  import opened PhysMem

  datatype Config = Config(memSize: nat, ioAPIC: nat, localAPIC: nat)

  datatype Role =
    | Root                               // the directory that all others start from
    | SharedTable(entry: nat)            // a table of low memory
    | Dir                                // the directory of one address space
    | Table(dir: nat, entry: nat)        // a private table
    | Leaf(dir: nat, page: nat)          // a page of one address space
    | Orphan                             // in use, not mapped anywhere

  datatype View = View(mem: seq<Frame>, role: map<nat, Role>, root: nat, cfg: Config)

  const FIRST_PRIVATE := 512             // the entry of address 0x80000000
  const ENTRIES := 1024

  /** Memory is at most 2 GB; the APIC pages are page-aligned, above it, and below 4 GB. */
  predicate ConfigOk(cfg: Config)
  {
    && cfg.memSize <= 0x8000_0000
    && 0x8000_0000 <= cfg.ioAPIC < 0x1_0000_0000 && cfg.ioAPIC % FRAME_SIZE == 0
    && 0x8000_0000 <= cfg.localAPIC < 0x1_0000_0000 && cfg.localAPIC % FRAME_SIZE == 0
  }

  // ----- entries -----

  function Entry(f: nat): nat { f * FRAME_SIZE + 7 }

  predicate Present(e: nat) { e % 2 == 1 }

  function FrameOf(e: nat): nat { e / FRAME_SIZE }

  predicate IsApic(cfg: Config, v: nat)
  {
    v * FRAME_SIZE == cfg.ioAPIC || v * FRAME_SIZE == cfg.localAPIC
  }

  /** The entry of page j of shared table i: the identity on 4096..memSize. */
  function SharedEntry(cfg: Config, i: nat, j: nat): nat
  {
    var v := i * ENTRIES + j;
    if 0 < v && v * FRAME_SIZE < cfg.memSize then Entry(v) else 0
  }

  /** How many entries of a directory are shared. */
  function SharedEntries(cfg: Config): nat
  {
    if cfg.memSize <= FRAME_SIZE then 0 else (cfg.memSize + 0x3F_FFFF) / 0x40_0000
  }

  /** What the hardware makes of page `v` under directory `d`. */
  function Translate(mem: seq<Frame>, d: nat, v: nat): Option<nat>
    requires d < |mem| && v < ENTRIES * ENTRIES
  {
    var pde := mem[d][v / ENTRIES];
    if !Present(pde) || |mem| <= FrameOf(pde) then None
    else
      var pte := mem[FrameOf(pde)][v % ENTRIES];
      if Present(pte) then Some(FrameOf(pte)) else None
  }

  // ----- ownership -----

  ghost predicate HasRole(w: View, f: nat, r: Role)
  {
    f in w.role && w.role[f] == r
  }

  ghost predicate DirEntryOk(w: View, d: nat, i: nat)
    requires d < |w.mem| && i < ENTRIES && w.root < |w.mem|
  {
    var e := w.mem[d][i];
    if i < SharedEntries(w.cfg) then e == w.mem[w.root][i]
    else e == 0 || (FIRST_PRIVATE <= i && e == Entry(FrameOf(e)) && HasRole(w, FrameOf(e), Table(d, i)))
  }

  ghost predicate TableEntryOk(w: View, t: nat, d: nat, i: nat, j: nat)
    requires t < |w.mem| && j < ENTRIES
  {
    var e, v := w.mem[t][j], i * ENTRIES + j;
    || e == 0
    || (IsApic(w.cfg, v) && e == Entry(v))
    || (!IsApic(w.cfg, v) && e == Entry(FrameOf(e)) && HasRole(w, FrameOf(e), Leaf(d, v)))
  }

  ghost predicate RootEntryOk(w: View, i: nat)
    requires w.root < |w.mem| && i < ENTRIES
  {
    var e := w.mem[w.root][i];
    if i < SharedEntries(w.cfg) then e == Entry(FrameOf(e)) && HasRole(w, FrameOf(e), SharedTable(i))
    else e == 0
  }

  ghost predicate FrameOk(w: View, f: nat)
    requires f in w.role && w.root < |w.mem|
  {
    f < |w.mem| && match w.role[f]
      case Root => f == w.root && forall i: nat {:trigger RootEntryOk(w, i)} | i < ENTRIES :: RootEntryOk(w, i)
      case SharedTable(i) =>
        && i < SharedEntries(w.cfg) && i < ENTRIES && w.mem[w.root][i] == Entry(f)
        && forall j: nat {:trigger SharedEntry(w.cfg, i, j)} | j < ENTRIES :: w.mem[f][j] == SharedEntry(w.cfg, i, j)
      case Dir => forall i: nat {:trigger DirEntryOk(w, f, i)} | i < ENTRIES :: DirEntryOk(w, f, i)
      case Table(d, i) =>
        && FIRST_PRIVATE <= i < ENTRIES && HasRole(w, d, Dir) && d < |w.mem| && w.mem[d][i] == Entry(f)
        && forall j: nat {:trigger TableEntryOk(w, f, d, i, j)} | j < ENTRIES :: TableEntryOk(w, f, d, i, j)
      case Leaf(d, v) =>
        && FIRST_PRIVATE * ENTRIES <= v < ENTRIES * ENTRIES && !IsApic(w.cfg, v)
        && HasRole(w, d, Dir) && d < |w.mem| && Translate(w.mem, d, v) == Some(f)
      case Orphan => true
  }

  ghost predicate Inv(w: View)
  {
    && ConfigOk(w.cfg) && w.root < |w.mem| <= 0x8_0000 && HasRole(w, w.root, Root)
    && forall f {:trigger FrameOk(w, f)} | f in w.role :: FrameOk(w, f)
  }

  // ----- what the invariant says -----

  lemma SharedBound(cfg: Config)
    requires ConfigOk(cfg)
    ensures SharedEntries(cfg) <= FIRST_PRIVATE
  {
  }

  /** Private tables of different entries or directories are different frames. */
  lemma TablesDisjoint(w: View, d: nat, i: nat, d': nat, i': nat)
    requires Inv(w) && HasRole(w, d, Dir) && HasRole(w, d', Dir) && (d, i) != (d', i')
    requires FIRST_PRIVATE <= i < ENTRIES && FIRST_PRIVATE <= i' < ENTRIES
    requires d < |w.mem| && d' < |w.mem| && Present(w.mem[d][i]) && Present(w.mem[d'][i'])
    ensures FrameOf(w.mem[d][i]) != FrameOf(w.mem[d'][i'])
  {
    SharedBound(w.cfg);
    assert FrameOk(w, d) && FrameOk(w, d') && DirEntryOk(w, d, i) && DirEntryOk(w, d', i');
  }

  /** A private page that is mapped is an APIC page mapped to itself, or has a frame that no
      other page of any address space has. */
  lemma PageOwnsFrame(w: View, d: nat, v: nat)
    requires Inv(w) && HasRole(w, d, Dir) && d < |w.mem| && FIRST_PRIVATE * ENTRIES <= v < ENTRIES * ENTRIES
    ensures Translate(w.mem, d, v).Some? ==>
      var f := Translate(w.mem, d, v).value;
      if IsApic(w.cfg, v) then f == v else HasRole(w, f, Leaf(d, v))
  {
    SharedBound(w.cfg);
    assert FrameOk(w, d) && DirEntryOk(w, d, v / ENTRIES);
    var e := w.mem[d][v / ENTRIES];
    if Present(e) {
      var t := FrameOf(e);
      assert FrameOk(w, t) && TableEntryOk(w, t, d, v / ENTRIES, v % ENTRIES);
    }
  }

  /** No frame is mapped at two pages, in one address space or in two; APIC pages excepted. */
  lemma LeavesDisjoint(w: View, d: nat, v: nat, d': nat, v': nat)
    requires Inv(w) && HasRole(w, d, Dir) && HasRole(w, d', Dir) && d < |w.mem| && d' < |w.mem|
    requires FIRST_PRIVATE * ENTRIES <= v < ENTRIES * ENTRIES && FIRST_PRIVATE * ENTRIES <= v' < ENTRIES * ENTRIES
    requires Translate(w.mem, d, v).Some? && Translate(w.mem, d', v').Some?
    requires !IsApic(w.cfg, v) && (d, v) != (d', v')
    ensures Translate(w.mem, d, v) != Translate(w.mem, d', v')
  {
    PageOwnsFrame(w, d, v);
    PageOwnsFrame(w, d', v');
    var f := Translate(w.mem, d, v).value;
    assert FrameOk(w, f);
  }

  lemma SharedEntryAt(cfg: Config, v: nat)
    requires ConfigOk(cfg) && v < FIRST_PRIVATE * ENTRIES
    ensures SharedEntry(cfg, v / ENTRIES, v % ENTRIES) == if 0 < v && v * FRAME_SIZE < cfg.memSize then Entry(v) else 0
    ensures SharedEntries(cfg) <= v / ENTRIES ==> !(0 < v && v * FRAME_SIZE < cfg.memSize)
  {
    assert v / ENTRIES * ENTRIES + v % ENTRIES == v;
  }

  lemma EntryFacts(f: nat)
    ensures Present(Entry(f)) && FrameOf(Entry(f)) == f
  {
  }

  lemma SharedWalk(w: View, d: nat, i: nat, j: nat, s: nat)
    requires Inv(w) && HasRole(w, d, Dir) && d < |w.mem| && i < FIRST_PRIVATE && j < ENTRIES
    requires s == SharedEntries(w.cfg)
    ensures if i < s
            then var t := FrameOf(w.mem[d][i]);
              w.mem[d][i] == Entry(t) && t < |w.mem| && w.mem[t][j] == SharedEntry(w.cfg, i, j)
            else w.mem[d][i] == 0
  {
    assert FrameOk(w, d) && FrameOk(w, w.root);
    assert DirEntryOk(w, d, i);
    if i < s {
      assert RootEntryOk(w, i);
      assert FrameOk(w, FrameOf(w.mem[w.root][i]));
    }
  }

  /** Below 2 GB every address space sees the same identity mapping of memory. */
  lemma LowMemoryShared(w: View, d: nat, v: nat)
    requires Inv(w) && HasRole(w, d, Dir) && d < |w.mem| && v < FIRST_PRIVATE * ENTRIES
    ensures Translate(w.mem, d, v) == if 0 < v && v * FRAME_SIZE < w.cfg.memSize then Some(v) else None
  {
    var i, j, s := v / ENTRIES, v % ENTRIES, SharedEntries(w.cfg);
    SharedWalk(w, d, i, j, s);
    SharedEntryAt(w.cfg, v);
    EntryFacts(FrameOf(w.mem[d][i]));
    EntryFacts(v);
    LookedUp(w.mem, d, v, FrameOf(w.mem[d][i]));
  }

  lemma LookedUp(mem: seq<Frame>, d: nat, v: nat, t: nat)
    requires d < |mem| && v < ENTRIES * ENTRIES && t == FrameOf(mem[d][v / ENTRIES])
    ensures Translate(mem, d, v) ==
      if Present(mem[d][v / ENTRIES]) && t < |mem| && Present(mem[t][v % ENTRIES])
      then Some(FrameOf(mem[t][v % ENTRIES])) else None
  {
  }
}
