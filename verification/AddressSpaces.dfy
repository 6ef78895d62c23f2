/** Address spaces (kernel/vmm.cc) and the copy made by fork (kernel/sys.cc). */
module AddressSpaces {
  import opened Common
  import opened PhysMem
  import opened PageTables
  import opened PageSteps
  import opened SharedTables
  import opened ForkSteps
  import opened ForkCosts

  /** pa | 7. */
  function Or7(pa: nat): nat
  {
    pa - pa % 8 + 7
  }

  lemma Or7Frame(pa: nat)
    requires pa % FRAME_SIZE == 0
    ensures Or7(pa) == Entry(pa / FRAME_SIZE) == Or7(pa + 7)
  {
    var q := pa / FRAME_SIZE;
    assert pa == 8 * (512 * q);
    Or7Eight(512 * q);
  }

  lemma Or7Eight(k: nat)
    ensures Or7(8 * k) == 8 * k + 7 == Or7(8 * k + 7)
  {
  }

  lemma PageOfAddress(va: nat)
    ensures va / 0x40_0000 == va / FRAME_SIZE / ENTRIES
    ensures va / FRAME_SIZE % ENTRIES < ENTRIES
    ensures va < 0x1_0000_0000 ==> va / 0x40_0000 < ENTRIES && va / FRAME_SIZE < ENTRIES * ENTRIES
    ensures va >= 0x8000_0000 ==> FIRST_PRIVATE * ENTRIES <= va / FRAME_SIZE
  {
  }

  /** The words after map has set page `v` of `d` to `e`, `t` being the frame of a new table. */
  function MapWords(m: seq<Frame>, d: nat, v: nat, e: nat, t: nat): seq<Frame>
    requires d < |m| && t < |m| && v < ENTRIES * ENTRIES
    requires Present(m[d][v / ENTRIES]) ==> t == FrameOf(m[d][v / ENTRIES])
  {
    if Present(m[d][v / ENTRIES]) then m[t := m[t][v % ENTRIES := e]]
    else
      var m1 := m[t := ZeroFrame()];
      var m2 := m1[d := m1[d][v / ENTRIES := Entry(t)]];
      m2[t := m2[t][v % ENTRIES := e]]
  }

  class AddressSpaces {
    const pm: Frames
    const cfg: Config
    var shared: nat
    ghost var role: map<nat, Role>

    ghost function V(): View
      reads this, pm, pm.mem
    {
      View(pm.mem[..], role, shared / FRAME_SIZE, cfg)
    }

    ghost predicate Valid()
      reads this, pm, pm.mem
    {
      pm.Valid() && role.Keys == pm.used && Inv(V()) && shared % FRAME_SIZE == 0
    }

    /** Before global_init: every frame is still to be handed out. */
    constructor (pm: Frames, cfg: Config)
      ensures this.pm == pm && this.cfg == cfg && shared == 0 && role == map[]
    {
      this.pm, this.cfg := pm, cfg;
      shared, role := 0, map[];
    }

    /** A word of an entry is written twice: into the directory when there is no table yet, and
        into the table.  False where the kernel panics. */
    method Map(pd: nat, va: nat, pa: nat) returns (ok: bool, ghost t: nat)
      requires pm.Valid() && pd % FRAME_SIZE == 0 && pd / FRAME_SIZE in pm.used && pd / FRAME_SIZE < pm.mem.Length
      requires va < 0x1_0000_0000
      requires var e := pm.mem[pd / FRAME_SIZE][va / FRAME_SIZE / ENTRIES];
        Present(e) ==> FrameOf(e) in pm.used && e == Entry(FrameOf(e))
      modifies pm, pm.mem
      ensures pm.Valid()
      ensures var d, v := pd / FRAME_SIZE, va / FRAME_SIZE;
        var had := Present(old(pm.mem[d][v / ENTRIES]));
        && (ok ==> t < pm.mem.Length && (had ==> t == FrameOf(old(pm.mem[d][v / ENTRIES])))
                   && (!had ==> t !in old(pm.used))
                   && pm.used == old(pm.used) + (if had then {} else {t})
                   && pm.mem[..] == MapWords(old(pm.mem[..]), d, v, Or7(pa), t))
        && (!ok ==> pm.used == old(pm.used) && pm.mem[..] == old(pm.mem[..]))
        && (ok <==> had || old(pm.Left()) > 0)
        && 0 <= pm.Left() == old(pm.Left()) - (if ok && !had then 1 else 0)
    {
      PageOfAddress(va);
      var d := pd / FRAME_SIZE;
      var pdi := va / 0x40_0000;
      var pti := va / FRAME_SIZE % ENTRIES;
      var pde := pm.mem[d][pdi];
      if pde % 2 == 0 {
        var r := pm.AllocFrame();
        if r.None? { return false, 0; }
        pde := r.value + 7;
        pm.Store(d, pdi, pde);
      }
      t := FrameOf(pde);
      var pt := pde / FRAME_SIZE;
      pm.Store(pt, pti, Or7(pa));
      ok := true;
    }

    /** map on a private page: only that page of that address space changes. */
    method MapPage(pd: nat, va: nat, pa: nat) returns (ok: bool)
      requires Valid() && va < 0x1_0000_0000 && pd % FRAME_SIZE == 0
      requires CanMap(V(), pd / FRAME_SIZE, va / FRAME_SIZE, Or7(pa))
      modifies this`role, pm, pm.mem
      ensures Valid()
      ensures ok ==> OnlyPage(old(V()), V(), pd / FRAME_SIZE, va / FRAME_SIZE, Some(FrameOf(Or7(pa))))
      ensures !ok ==> V() == old(V())
      ensures OnlySpace(old(V()), V(), pd / FRAME_SIZE)
      ensures var cost := TableCost(old(V()), pd / FRAME_SIZE, va / FRAME_SIZE);
        (ok <==> cost <= old(pm.Left())) && 0 <= pm.Left() == old(pm.Left()) - (if ok then cost else 0)
      ensures ok ==> OneTableMore(old(V()), V(), pd / FRAME_SIZE, va / FRAME_SIZE / ENTRIES)
    {
      ghost var w, d, v, e := V(), pd / FRAME_SIZE, va / FRAME_SIZE, Or7(pa);
      TableEntryShape(w, d, v);
      ghost var t;
      ok, t := Map(pd, va, pa);
      if ok {
        MappedKeeps(w, d, v, e, t);
        MappedKeepsPages(w, d, v, e, t);
        MappedTables(w, d, v, e, t);
        MappedWords(w, d, v, e, t);
        role := Mapped(w, d, v, e, t).role;
        assert V() == Mapped(w, d, v, e, t);
      }
      forall p | HasRole(w, p, Dir) && p != d ensures SpaceKept(w, V(), p) {
        assert FrameOk(w, p);
        if ok { MappedKeepsSpace(w, d, v, e, t, p); }
      }
    }

    /** A zeroed frame, in use and not mapped. */
    method TakeFrame() returns (r: Option<nat>)
      requires Valid()
      modifies this`role, pm, pm.mem
      ensures Valid()
      ensures r.None? ==> V() == old(V())
      ensures (r.None? <==> old(pm.Left()) == 0) && 0 <= pm.Left() == old(pm.Left()) - (if r.Some? then 1 else 0)
      ensures r.Some? ==> r.value % FRAME_SIZE == 0
      ensures r.Some? ==> var f := r.value / FRAME_SIZE;
                && f < |old(V()).mem| && f !in old(role) && V() == Fresh(old(V()), f) && SameMaps(old(V()), V())
    {
      ghost var w := V();
      r := pm.AllocFrame();
      if r.Some? {
        FreshKeeps(w, r.value / FRAME_SIZE);
        role := role[r.value / FRAME_SIZE := Orphan];
        assert V() == Fresh(w, r.value / FRAME_SIZE);
      }
    }

    /** vmm_pageFault: a zeroed frame of its own for a page of the upper half. */
    method PageFault(pd: nat, address: nat) returns (r: Fault)
      requires Valid() && address < 0x1_0000_0000 && pd % FRAME_SIZE == 0
      requires IsPage(V(), pd / FRAME_SIZE, address / FRAME_SIZE) && !IsApic(cfg, address / FRAME_SIZE)
      modifies this`role, pm, pm.mem
      ensures Valid()
      ensures r == Unhandled <==> address < 0x8000_0000
      ensures r == Unhandled ==> V() == old(V())
      ensures r == NoFrames <==>
                0x8000_0000 <= address && old(pm.Left()) < 1 + TableCost(old(V()), pd / FRAME_SIZE, address / FRAME_SIZE)
      ensures r == Handled ==>
                var page := Translate(V().mem, pd / FRAME_SIZE, address / FRAME_SIZE);
                && OnlyPage(old(V()), V(), pd / FRAME_SIZE, address / FRAME_SIZE, page)
                && page.Some? && page.value !in old(role) && page.value < |V().mem|
                && V().mem[page.value] == ZeroFrame()
    {
      var va := address / FRAME_SIZE * FRAME_SIZE;
      assert va / FRAME_SIZE == address / FRAME_SIZE;
      if va >= 0x8000_0000 {
        var ok := MapFresh(pd, va);
        return if ok then Handled else NoFrames;
      }
      return Unhandled;
    }

    /** Maps a zeroed frame of its own at a page of the upper half. */
    method MapFresh(pd: nat, va: nat) returns (ok: bool)
      requires Valid() && 0x8000_0000 <= va < 0x1_0000_0000 && pd % FRAME_SIZE == 0
      requires IsPage(V(), pd / FRAME_SIZE, va / FRAME_SIZE) && !IsApic(cfg, va / FRAME_SIZE)
      modifies this`role, pm, pm.mem
      ensures Valid()
      ensures ok <==> 1 + TableCost(old(V()), pd / FRAME_SIZE, va / FRAME_SIZE) <= old(pm.Left())
      ensures ok ==>
                var page := Translate(V().mem, pd / FRAME_SIZE, va / FRAME_SIZE);
                && OnlyPage(old(V()), V(), pd / FRAME_SIZE, va / FRAME_SIZE, page)
                && page.Some? && page.value !in old(role) && page.value < |V().mem|
                && V().mem[page.value] == ZeroFrame()
    {
      PageOfAddress(va);
      ghost var w, d, v := V(), pd / FRAME_SIZE, va / FRAME_SIZE;
      var pa := TakeFrame();
      if pa.None? { return false; }
      ghost var f, w1 := pa.value / FRAME_SIZE, V();
      Or7Frame(pa.value);
      FreshCanMap(w, d, v, f);
      assert TableCost(w1, d, v) == TableCost(w, d, v);
      ok := MapPage(pd, va, pa.value);
      if ok { FreshMapped(w, w1, V(), d, v, f); }
    }

    /** unmap on a private page that is not an APIC page: its frame is given back. */
    method Unmap(pd: nat, va: nat)
      requires Valid() && 0x8000_0000 <= va < 0x1_0000_0000 && pd % FRAME_SIZE == 0
      requires IsPage(V(), pd / FRAME_SIZE, va / FRAME_SIZE) && !IsApic(cfg, va / FRAME_SIZE)
      modifies this`role, pm, pm.mem
      ensures Valid()
      ensures OnlyPage(old(V()), V(), pd / FRAME_SIZE, va / FRAME_SIZE, None)
      ensures var was := Translate(old(V()).mem, pd / FRAME_SIZE, va / FRAME_SIZE);
        pm.used == old(pm.used) - (if was.Some? then {was.value} else {})
    {
      PageOfAddress(va);
      ghost var w, v := V(), va / FRAME_SIZE;
      var d := pd / FRAME_SIZE;
      var pdi := va / 0x40_0000;
      var pti := va / FRAME_SIZE % ENTRIES;
      UnmapFacts(w, d, v);
      var pde := pm.mem[d][pdi];
      if pde % 2 == 0 { return; }
      var pt := pde / FRAME_SIZE;
      var pte := pm.mem[pt][pti];
      if pte % 2 == 0 { return; }
      ClearPage(d, pt, pti, v);
      ghost var w1 := V();
      GiveBack(pte / FRAME_SIZE * FRAME_SIZE);
      OnlyThenSame(w, w1, V(), d, v, None);
    }

    method ClearPage(d: nat, pt: nat, pti: nat, ghost v: nat)
      requires Valid() && CanSet(V(), d, v, 0) && !IsApic(cfg, v) && Translate(V().mem, d, v).Some?
      requires pt == FrameOf(V().mem[d][v / ENTRIES]) && pti == v % ENTRIES
      modifies this`role, pm, pm.mem
      ensures Valid() && OnlyPage(old(V()), V(), d, v, None) && DirsKept(old(V()), V())
      ensures pm.used == old(pm.used) && HasRole(V(), Translate(old(V()).mem, d, v).value, Orphan)
    {
      ghost var w := V();
      SetPageKeeps(w, d, v, 0);
      SetPageTable(w, d, v, 0);
      pm.Store(pt, pti, 0);
      role := SetPage(w, d, v, 0).role;
      assert V() == SetPage(w, d, v, 0);
    }

    /** Deallocates a frame that is not mapped. */
    method GiveBack(pa: nat)
      requires Valid() && pa % FRAME_SIZE == 0 && HasRole(V(), pa / FRAME_SIZE, Orphan)
      modifies this`role, pm, pm.mem
      ensures Valid() && SameMaps(old(V()), V()) && role == map f | f in old(role) && f != pa / FRAME_SIZE :: old(role)[f]
    {
      ghost var w := V();
      pm.DeallocFrame(pa);
      role := map f | f in role && f != pa / FRAME_SIZE :: role[f];
      LooseStep(w, V(), pa / FRAME_SIZE);
    }

    /** A program stores a word at an address of a private page it has mapped. */
    method Write(pd: nat, va: nat, value: nat)
      requires Valid() && 0x8000_0000 <= va < 0x1_0000_0000 && va % 4 == 0 && pd % FRAME_SIZE == 0
      requires IsPage(V(), pd / FRAME_SIZE, va / FRAME_SIZE) && !IsApic(cfg, va / FRAME_SIZE)
      requires Translate(V().mem, pd / FRAME_SIZE, va / FRAME_SIZE).Some?
      modifies pm, pm.mem
      ensures Valid() && role == old(role) && SameMaps(old(V()), V())
      ensures var f := Translate(old(V()).mem, pd / FRAME_SIZE, va / FRAME_SIZE).value;
        f < |old(V()).mem| && V().mem == old(V()).mem[f := old(V()).mem[f][va % FRAME_SIZE / 4 := value]]
      ensures OtherContents(old(V()), V(), pd / FRAME_SIZE, va / FRAME_SIZE)
    {
      PageOfAddress(va);
      ghost var w, d, v := V(), pd / FRAME_SIZE, va / FRAME_SIZE;
      PageOwnsFrame(w, d, v);
      TableEntryShape(w, d, v);
      assert FrameOk(w, d);
      var pde := pm.mem[pd / FRAME_SIZE][va / 0x40_0000];
      assert FrameOk(w, FrameOf(pde));
      var pte := pm.mem[pde / FRAME_SIZE][va / FRAME_SIZE % ENTRIES];
      ghost var f := FrameOf(pte);
      assert FrameOk(w, f);
      pm.Store(pte / FRAME_SIZE, va % FRAME_SIZE / 4, value);
      LeafWritten(w, V(), f, d, v);
      WrittenAlone(w, V(), d, v);
    }

    // ----- initialisation -----

    /** VMM::global_init: maps low memory to itself in the directory that all others share. */
    method GlobalInit() returns (ok: bool)
      requires pm.Valid() && pm.used == {} && role == map[] && ConfigOk(cfg) && pm.mem.Length <= 0x8_0000
      modifies this, pm, pm.mem
      ensures pm.Valid()
      ensures ok ==> Valid() && forall f {:trigger role[f]} | f in role :: role[f].Root? || role[f].SharedTable?
      ensures ok <==> 1 + SharedEntries(cfg) <= old(pm.Left())
      ensures ok ==> pm.Left() == old(pm.Left()) - 1 - SharedEntries(cfg)
    {
      ok := MakeRoot();
      if !ok { return; }
      ghost var v := 1;
      var va := FRAME_SIZE;
      while va < cfg.memSize
        invariant va == v * FRAME_SIZE && v <= FIRST_PRIVATE * ENTRIES && (v == 1 || (v - 1) * FRAME_SIZE < cfg.memSize)
        invariant pm.Valid() && role.Keys == pm.used && shared % FRAME_SIZE == 0
        invariant Built(Low(va), v)
        invariant Paid(old(pm.Left()), pm.Left(), cfg, va)
        decreases cfg.memSize - va
      {
        SharedGrows(cfg, v);
        ok := MapLow(va, v, old(pm.Left()));
        if !ok { return; }
        va := va + FRAME_SIZE;
        v := v + 1;
      }
      LowMemoryDone(Low(va), v, cfg, old(pm.Left()), pm.Left());
      ok := true;
    }

    /** The empty directory that all others will share entries of. */
    method MakeRoot() returns (ok: bool)
      requires pm.Valid() && pm.used == {} && role == map[] && ConfigOk(cfg) && pm.mem.Length <= 0x8_0000
      modifies this, pm, pm.mem
      ensures pm.Valid() && (ok <==> old(pm.Left()) > 0)
      ensures ok ==> role.Keys == pm.used && shared % FRAME_SIZE == 0 && Built(Low(FRAME_SIZE), 1)
      ensures ok ==> Paid(old(pm.Left()), pm.Left(), cfg, FRAME_SIZE)
    {
      var r := pm.AllocFrame();
      if r.None? { return false; }
      shared := r.value;
      role := map[r.value / FRAME_SIZE := Root];
      EmptyRoot(pm.mem[..], r.value / FRAME_SIZE, cfg);
      ok := true;
    }

    ghost function Low(memSize: nat): View
      reads this, pm, pm.mem
    {
      V().(cfg := cfg.(memSize := memSize))
    }

    method MapLow(va: nat, ghost v: nat, ghost start: int) returns (ok: bool)
      requires pm.Valid() && role.Keys == pm.used && shared % FRAME_SIZE == 0
      requires va == v * FRAME_SIZE && v < FIRST_PRIVATE * ENTRIES && Built(Low(va), v)
      requires Paid(start, pm.Left(), cfg, va)
      modifies this`role, pm, pm.mem
      ensures pm.Valid()
      ensures ok ==> role.Keys == pm.used && Built(Low(va + FRAME_SIZE), v + 1)
      ensures ok ==> Paid(start, pm.Left(), cfg, va + FRAME_SIZE)
      ensures !ok ==> start < 1 + SharedUpTo(cfg, va + FRAME_SIZE)
    {
      ghost var w := Low(va);
      NextEntry(w.cfg, v);
      HasTable(w, v);
      assert FrameOk(w, w.root);
      assert Present(w.mem[w.root][v / ENTRIES]) ==> FrameOf(w.mem[w.root][v / ENTRIES]) in role;
      ghost var t;
      ok, t := Map(shared, va, va);
      if !ok { return; }
      Or7Frame(va);
      ExtendKeeps(w, v, t);
      role := Extend(w, v, t).role;
      assert Low(va + FRAME_SIZE) == Extend(w, v, t);
    }

    // ----- whole address spaces -----

    /** make_pd: the shared low tables, the two APIC pages and nothing else. */
    method MakePd() returns (r: Option<nat>)
      requires Valid()
      modifies this`role, pm, pm.mem
      ensures Valid()
      ensures r.Some? ==> r.value % FRAME_SIZE == 0
      ensures r.Some? ==> var d := r.value / FRAME_SIZE;
                && d !in old(role) && HasRole(V(), d, Dir) && SameMaps(old(V()), V()) && OnlyApics(V(), d)
      ensures r.Some? <==> 1 + ApicTables(cfg) <= old(pm.Left())
      ensures r.Some? ==> pm.Left() == old(pm.Left()) - 1 - ApicTables(cfg)
    {
      ghost var w := V();
      r := TakeFrame();
      if r.None? { return; }
      ghost var w1 := V();
      var d := r.value / FRAME_SIZE;
      CopyRoot(d);
      ghost var w2 := V();
      var ok := MapApics(r.value);
      if !ok { return None; }
      MadePd(w, w1, w2, V(), d);
    }

    method MapApics(pd: nat) returns (ok: bool)
      requires Valid() && pd % FRAME_SIZE == 0 && HasRole(V(), pd / FRAME_SIZE, Dir) && NoTables(V(), pd / FRAME_SIZE)
      modifies this`role, pm, pm.mem
      ensures Valid() && PagesKept(old(V()), V())
      ensures ok ==> ApicsMapped(old(V()), V(), pd / FRAME_SIZE)
      ensures ok <==> ApicTables(cfg) <= old(pm.Left())
      ensures ok ==> pm.Left() == old(pm.Left()) - ApicTables(cfg)
    {
      ghost var w, d := V(), pd / FRAME_SIZE;
      CanMapApics(w, d);
      ApicCosts(w, d);
      ok := MapPage(pd, cfg.ioAPIC, cfg.ioAPIC);
      if !ok { return; }
      ghost var w1 := V();
      CanMapApics(w1, d);
      ApicCostsThen(w, w1, d);
      ok := MapPage(pd, cfg.localAPIC, cfg.localAPIC);
      if !ok { return; }
      BothApics(w, w1, V(), d);
      PagesKeptThen(w, w1, V());
    }

    /** Turns an unmapped zeroed frame into a directory by copying the shared entries. */
    method CopyRoot(d: nat)
      requires Valid() && HasRole(V(), d, Orphan) && d < pm.mem.Length && pm.mem[d] == ZeroFrame()
      modifies this`role, pm, pm.mem
      ensures Valid() && SameMaps(old(V()), V()) && role == old(role)[d := Dir] && NoPrivate(V(), d)
      ensures NoTables(V(), d) && pm.Left() == old(pm.Left())
    {
      ghost var w := V();
      SharedBound(cfg);
      assert FrameOk(w, w.root);
      pm.CopyFrame(d, shared / FRAME_SIZE, (cfg.memSize + 0x3F_FFFF) / 0x40_0000);
      role := role[d := Dir];
      CopiedRoot(w, V(), d);
      MakeDirKeeps(w, V(), d);
    }

    /** delete_pd: the private tables and the directory are given back, the pages are not. */
    method DeletePd(pd: nat)
      requires Valid() && pd % FRAME_SIZE == 0 && HasRole(V(), pd / FRAME_SIZE, Dir)
      modifies this`role, pm, pm.mem
      ensures Valid() && role == DropDir(old(role), pd / FRAME_SIZE)
      ensures forall d', v {:trigger SameAt(old(V()), V(), d', v)} |
                IsPage(old(V()), d', v) && d' != pd / FRAME_SIZE :: SameAt(old(V()), V(), d', v)
    {
      ghost var w := V();
      FreeTables(pd / FRAME_SIZE, w);
      pm.DeallocFrame(pd);
      role := DropDir(role, pd / FRAME_SIZE);
      DroppedKeys(w, pd / FRAME_SIZE);
      DropDirKeeps(w, V(), pd / FRAME_SIZE);
    }

    method FreeTables(d: nat, ghost w: View)
      requires Valid() && w == V() && HasRole(w, d, Dir)
      modifies pm, pm.mem
      ensures pm.Valid() && d in pm.used && d < pm.mem.Length
      ensures pm.used == w.role.Keys - TablesBelow(w, d, ENTRIES)
      ensures forall f: nat | f < |w.mem| && f in pm.used :: pm.mem[f] == w.mem[f]
    {
      assert FrameOk(w, d);
      var i := FIRST_PRIVATE;
      TablesFrom(w, d);
      while i < ENTRIES
        invariant FIRST_PRIVATE <= i <= ENTRIES && pm.Valid()
        invariant pm.used == w.role.Keys - TablesBelow(w, d, i) && d in pm.used
        invariant forall f: nat | f < |w.mem| && f in pm.used :: pm.mem[f] == w.mem[f]
      {
        TableAt(w, d, i);
        var pde := pm.mem[d][i];
        if pde % 2 == 1 {
          pm.DeallocFrame(pde / FRAME_SIZE * FRAME_SIZE);
        }
        i := i + 1;
      }
    }

    // ----- fork -----

    /** A frame not in use before, with a copy of frame `g`; it is mapped nowhere. */
    method TakeCopy(g: nat) returns (r: Option<nat>)
      requires Valid() && g in role && g < pm.mem.Length
      modifies this`role, pm, pm.mem
      ensures Valid()
      ensures r.None? ==> V() == old(V())
      ensures (r.None? <==> old(pm.Left()) == 0) && 0 <= pm.Left() == old(pm.Left()) - (if r.Some? then 1 else 0)
      ensures r.Some? ==> r.value % FRAME_SIZE == 0
      ensures r.Some? ==> var f := r.value / FRAME_SIZE;
                f < |old(V()).mem| && f !in old(role) && V() == Loaded(old(V()), f, old(V()).mem[g])
    {
      ghost var w := V();
      r := pm.AllocFrame();
      if r.Some? {
        var f := r.value / FRAME_SIZE;
        pm.CopyFrame(f, g, WORDS);
        assert pm.mem[f] == w.mem[g];
        LoadedKeeps(w, f, w.mem[g], 0);
        role := role[f := Orphan];
        assert V() == Loaded(w, f, w.mem[g]);
      }
    }

    /** The body of fork's inner loop for the page at `va` of the parent `p`. */
    method ForkPage(p: nat, child: nat, va: nat, entry: nat, ghost v: nat, ghost w0: View, ghost lo: nat,
                    ghost start: int) returns (ok: bool)
      requires Valid() && child % FRAME_SIZE == 0 && va == v * FRAME_SIZE && FIRST_PRIVATE * ENTRIES <= v < ENTRIES * ENTRIES
      requires Settled(w0, V(), p, child / FRAME_SIZE, lo, v, start, pm.Left())
      requires Translate(V().mem, p, v) == if Present(entry) then Some(FrameOf(entry)) else None
      modifies this`role, pm, pm.mem
      ensures Valid()
      ensures ok ==> Settled(w0, V(), p, child / FRAME_SIZE, lo, v + 1, start, pm.Left())
      ensures !ok ==> start < ForkCost(w0, p, child / FRAME_SIZE, lo, ENTRIES * ENTRIES)
    {
      assert va / FRAME_SIZE == v;
      CostGrows(w0, p, child / FRAME_SIZE, lo, v + 1, ENTRIES * ENTRIES);
      SameCopies(w0, V(), p, child / FRAME_SIZE, lo, v);
      if va == cfg.ioAPIC || va == cfg.localAPIC {
        ok := ForkApicPage(p, child, va, w0, lo, start);
      } else if entry % 2 == 1 {
        ok := ForkPresent(p, child, va, entry, v, w0, lo, start);
      } else {
        ForkSkip(w0, V(), p, child / FRAME_SIZE, lo, v);
        NoneCopied(w0, V(), p, child / FRAME_SIZE, lo, v, v + 1, start, pm.Left());
        ok := true;
      }
    }

    /** An APIC page keeps its own frame. */
    method ForkApicPage(p: nat, child: nat, va: nat, ghost w0: View, ghost lo: nat, ghost start: int) returns (ok: bool)
      requires Valid() && child % FRAME_SIZE == 0 && (va == cfg.ioAPIC || va == cfg.localAPIC)
      requires Settled(w0, V(), p, child / FRAME_SIZE, lo, va / FRAME_SIZE, start, pm.Left())
      modifies this`role, pm, pm.mem
      ensures ok && Valid() && Settled(w0, V(), p, child / FRAME_SIZE, lo, va / FRAME_SIZE + 1, start, pm.Left())
    {
      ghost var w, c, v := V(), child / FRAME_SIZE, va / FRAME_SIZE;
      ApicCanMap(w, c, va, v);
      ApicHasTable(w0, w, p, c, lo, v, start, pm.Left());
      ok := MapPage(child, va, Or7(va));
      ForkApic(w0, w, V(), p, c, lo, v);
      ApicPaid(w0, w, V(), p, c, lo, v, start, pm.Left());
    }

    /** The copy of one present page. */
    method ForkPresent(p: nat, child: nat, va: nat, entry: nat, ghost v: nat, ghost w0: View, ghost lo: nat,
                       ghost start: int) returns (ok: bool)
      requires Valid() && child % FRAME_SIZE == 0 && va < 0x1_0000_0000 && v == va / FRAME_SIZE
      requires Settled(w0, V(), p, child / FRAME_SIZE, lo, v, start, pm.Left())
      requires IsPage(V(), p, v) && FIRST_PRIVATE * ENTRIES <= v && Copied(w0, p, v)
      requires Translate(V().mem, p, v) == Some(FrameOf(entry))
      modifies this`role, pm, pm.mem
      ensures Valid()
      ensures ok ==> Settled(w0, V(), p, child / FRAME_SIZE, lo, v + 1, start, pm.Left())
      ensures !ok ==> start < ForkCost(w0, p, child / FRAME_SIZE, lo, v + 1)
    {
      ghost var w := V();
      CopyNeeds(w0, w, p, child / FRAME_SIZE, lo, v, start, pm.Left());
      var r := TakeCopy(entry / FRAME_SIZE);
      if r.None? { return false; }
      ok := MapCopy(p, child, va, r.value, v, w, w0, lo, start);
    }

    /** Maps the copy at the parent's page in the child. */
    method MapCopy(p: nat, child: nat, va: nat, pa: nat, ghost v: nat, ghost w: View, ghost w0: View, ghost lo: nat,
                   ghost start: int) returns (ok: bool)
      requires Valid() && child % FRAME_SIZE == 0 && pa % FRAME_SIZE == 0 && va < 0x1_0000_0000 && v == va / FRAME_SIZE
      requires CopyPending(w0, w, V(), p, child / FRAME_SIZE, lo, v, pa / FRAME_SIZE, start, pm.Left())
      modifies this`role, pm, pm.mem
      ensures Valid()
      ensures ok ==> Settled(w0, V(), p, child / FRAME_SIZE, lo, v + 1, start, pm.Left())
      ensures !ok ==> start < ForkCost(w0, p, child / FRAME_SIZE, lo, v + 1)
    {
      ghost var w1, c, f := V(), child / FRAME_SIZE, pa / FRAME_SIZE;
      CopyReady(w0, w, w1, p, c, lo, v, f, pa, start, pm.Left());
      ok := MapPage(child, va, pa + 7);
      if ok { PageCopied(w0, w, w1, V(), p, c, lo, v, f, start, old(pm.Left())); }
    }

    /** Reads the parent's entry for the page. */
    method ForkSlot(p: nat, child: nat, pdi: nat, pti: nat, parentPt: nat, ghost v: nat, ghost w0: View, ghost lo: nat,
                    ghost start: int) returns (ok: bool)
      requires Valid() && child % FRAME_SIZE == 0 && FIRST_PRIVATE <= pdi < ENTRIES && pti < ENTRIES
      requires IsTable(w0, p, pdi, parentPt) && v == pdi * ENTRIES + pti
      requires Settled(w0, V(), p, child / FRAME_SIZE, lo, v, start, pm.Left())
      modifies this`role, pm, pm.mem
      ensures Valid()
      ensures ok ==> Settled(w0, V(), p, child / FRAME_SIZE, lo, v + 1, start, pm.Left())
      ensures !ok ==> start < ForkCost(w0, p, child / FRAME_SIZE, lo, ENTRIES * ENTRIES)
    {
      TableRead(w0, V(), p, child / FRAME_SIZE, lo, pdi, pti, v, parentPt);
      var parentFrame := pm.mem[parentPt][pti];
      ok := ForkPage(p, child, pdi * 0x40_0000 + pti * FRAME_SIZE, parentFrame, v, w0, lo, start);
    }

    /** fork's copy of the parent's address space into a fresh one.  False where the kernel
        panics for want of frames. */
    method Fork(parent: nat, child: nat) returns (ok: bool)
      requires Valid() && parent % FRAME_SIZE == 0 && child % FRAME_SIZE == 0 && parent != child
      requires HasRole(V(), parent / FRAME_SIZE, Dir) && HasRole(V(), child / FRAME_SIZE, Dir)
      requires OnlyApics(V(), child / FRAME_SIZE)
      modifies this`role, pm, pm.mem
      ensures Valid()
      ensures ok ==> Forked(old(V()), V(), parent / FRAME_SIZE, child / FRAME_SIZE)
      ensures ok <==> WholeCost(old(V()), parent / FRAME_SIZE, child / FRAME_SIZE) <= old(pm.Left())
      ensures ok ==> pm.Left() == old(pm.Left()) - WholeCost(old(V()), parent / FRAME_SIZE, child / FRAME_SIZE)
      ensures ok ==>
                (ForkedAll(old(V()), V(), parent / FRAME_SIZE, child / FRAME_SIZE)
                 <==> cfg.memSize < 0x8000_0000 || !MapsFirstEntry(old(V()), parent / FRAME_SIZE))
    {
      ghost var w0, c := V(), child / FRAME_SIZE;
      var p, treeStart := parent / FRAME_SIZE, TreeStart(cfg);
      ghost var lo := treeStart * ENTRIES;
      DifferentFrames(parent, child);
      ForkBegins(w0, p, c, lo, pm.Left());
      ok := ForkEntries(p, child, treeStart, w0, lo, pm.Left());
      if ok { ForkEnds(w0, V(), p, c, lo, old(pm.Left()), pm.Left()); }
    }

    /** fork's outer loop, over the entries of the parent's directory. */
    method ForkEntries(p: nat, child: nat, treeStart: nat, ghost w0: View, ghost lo: nat, ghost start: int)
        returns (ok: bool)
      requires Valid() && child % FRAME_SIZE == 0 && SharedEntries(cfg) <= treeStart <= ENTRIES && lo == treeStart * ENTRIES
      requires Settled(w0, V(), p, child / FRAME_SIZE, lo, lo, start, pm.Left())
      modifies this`role, pm, pm.mem
      ensures Valid()
      ensures ok ==> Settled(w0, V(), p, child / FRAME_SIZE, lo, ENTRIES * ENTRIES, start, pm.Left())
      ensures !ok ==> start < ForkCost(w0, p, child / FRAME_SIZE, lo, ENTRIES * ENTRIES)
    {
      ghost var c := child / FRAME_SIZE;
      var pdi := treeStart;
      while pdi < ENTRIES
        invariant treeStart <= pdi <= ENTRIES && Valid()
        invariant Settled(w0, V(), p, c, lo, pdi * ENTRIES, start, pm.Left())
      {
        ok := ForkEntry(p, child, pdi, w0, lo, start);
        if !ok { return; }
        pdi := pdi + 1;
      }
      ok := true;
    }

    /** The body of fork's outer loop: one entry of the parent's directory. */
    method ForkEntry(p: nat, child: nat, pdi: nat, ghost w0: View, ghost lo: nat, ghost start: int) returns (ok: bool)
      requires Valid() && child % FRAME_SIZE == 0 && SharedEntries(cfg) <= pdi < ENTRIES && lo <= pdi * ENTRIES
      requires Settled(w0, V(), p, child / FRAME_SIZE, lo, pdi * ENTRIES, start, pm.Left())
      modifies this`role, pm, pm.mem
      ensures Valid()
      ensures ok ==> Settled(w0, V(), p, child / FRAME_SIZE, lo, pdi * ENTRIES + ENTRIES, start, pm.Left())
      ensures !ok ==> start < ForkCost(w0, p, child / FRAME_SIZE, lo, ENTRIES * ENTRIES)
    {
      ghost var w, c := V(), child / FRAME_SIZE;
      assert FrameOk(w, p);
      var parentPde := pm.mem[p][pdi];
      if parentPde % 2 == 1 {
        PrivateTable(w, p, pdi);
        ok := ForkTable(p, child, pdi, parentPde / FRAME_SIZE, w0, lo, start);
      } else {
        ForkSkipTable(w0, w, p, c, lo, pdi, 0);
        assert SpaceKept(w0, w, p);
        NoneInEntry(w0, w, p, c, lo, pdi, start, pm.Left());
        ok := true;
      }
    }

    /** fork's inner loop over one table of the parent. */
    method ForkTable(p: nat, child: nat, pdi: nat, parentPt: nat, ghost w0: View, ghost lo: nat,
                     ghost start: int) returns (ok: bool)
      requires Valid() && child % FRAME_SIZE == 0 && FIRST_PRIVATE <= pdi < ENTRIES
      requires Settled(w0, V(), p, child / FRAME_SIZE, lo, pdi * ENTRIES, start, pm.Left())
      requires IsTable(V(), p, pdi, parentPt)
      modifies this`role, pm, pm.mem
      ensures Valid()
      ensures ok ==> Settled(w0, V(), p, child / FRAME_SIZE, lo, pdi * ENTRIES + ENTRIES, start, pm.Left())
      ensures !ok ==> start < ForkCost(w0, p, child / FRAME_SIZE, lo, ENTRIES * ENTRIES)
    {
      ghost var c, v := child / FRAME_SIZE, pdi * ENTRIES;
      TableSince(w0, V(), p, c, lo, v, pdi, parentPt);
      var pti := 0;
      while pti < ENTRIES
        invariant pti <= ENTRIES && v == pdi * ENTRIES + pti && Valid()
        invariant Settled(w0, V(), p, c, lo, v, start, pm.Left())
      {
        ok := ForkSlot(p, child, pdi, pti, parentPt, v, w0, lo, start);
        if !ok { return; }
        pti, v := pti + 1, v + 1;
      }
      ok := true;
    }
  }

  // ----- the parent's tables during fork -----

  ghost predicate IsTable(w: View, p: nat, i: nat, t: nat)
  {
    p < |w.mem| && i < ENTRIES && t < |w.mem| && HasRole(w, t, Table(p, i)) && w.mem[p][i] == Entry(t)
  }

  lemma ApicsFrom(w: View, c: nat, lo: nat)
    requires Inv(w) && HasRole(w, c, Dir) && OnlyApics(w, c) && w.cfg.memSize <= lo * FRAME_SIZE
    ensures OnlyApicsFrom(w, c, lo)
  {
    assert FrameOk(w, c);
    forall v: nat | lo <= v < ENTRIES * ENTRIES ensures ApicOnly(w, c, v) {
      if v < FIRST_PRIVATE * ENTRIES {
        LowMemoryShared(w, c, v);
        NoLowPages(w, c, v);
      } else {
        assert IsPage(w, c, v);
      }
    }
  }

  lemma DifferentFrames(a: nat, b: nat)
    requires a % FRAME_SIZE == 0 && b % FRAME_SIZE == 0 && a != b
    ensures a / FRAME_SIZE != b / FRAME_SIZE
  {
  }

  /** Before the first page. */
  lemma ForkBegins(w: View, p: nat, c: nat, lo: nat, start: int)
    requires Inv(w) && HasRole(w, p, Dir) && HasRole(w, c, Dir) && p != c && OnlyApics(w, c) && 0 <= start
    requires lo == TreeStart(w.cfg) * ENTRIES
    ensures SharedEntries(w.cfg) <= TreeStart(w.cfg) <= ENTRIES
    ensures Settled(w, w, p, c, lo, lo, start, start)
  {
    ForkStartsBelowPrivatePages(w.cfg);
    ForkStart(w, p, c, lo);
    ApicsFrom(w, c, lo);
    PaidAtStart(w, p, c, lo, start);
  }

  lemma PrivateTable(w: View, p: nat, i: nat)
    requires Inv(w) && HasRole(w, p, Dir) && p < |w.mem| && SharedEntries(w.cfg) <= i < ENTRIES && Present(w.mem[p][i])
    ensures FIRST_PRIVATE <= i && IsTable(w, p, i, FrameOf(w.mem[p][i]))
  {
    assert FrameOk(w, p) && DirEntryOk(w, p, i);
    assert FrameOk(w, FrameOf(w.mem[p][i]));
  }

  lemma TableSince(w0: View, w: View, p: nat, c: nat, lo: nat, v: nat, i: nat, t: nat)
    requires Forking(w0, w, p, c, lo, v) && FIRST_PRIVATE <= i && IsTable(w, p, i, t)
    ensures IsTable(w0, p, i, t)
  {
    assert SpaceKept(w0, w, p);
    SharedBound(w0.cfg);
    EntryFacts(t);
    assert FrameOk(w0, p) && DirEntryOk(w0, p, i);
    assert FrameOk(w0, t);
  }

  /** The parent's table is still there, and its entries are the parent's pages. */
  lemma TableRead(w0: View, w: View, p: nat, c: nat, lo: nat, i: nat, j: nat, v: nat, t: nat)
    requires Forking(w0, w, p, c, lo, v) && IsTable(w0, p, i, t) && j < ENTRIES && v == i * ENTRIES + j
    ensures t < |w.mem| && Translate(w.mem, p, v) == if Present(w.mem[t][j]) then Some(FrameOf(w.mem[t][j])) else None
  {
    assert SpaceKept(w0, w, p);
    assert w.mem[t] == w0.mem[t];
    EntryFacts(t);
    assert v / ENTRIES == i && v % ENTRIES == j;
  }

  /** The parent's pages are still where they were. */
  lemma SameCopies(w0: View, w: View, p: nat, c: nat, lo: nat, v: nat)
    requires Forking(w0, w, p, c, lo, v) && FIRST_PRIVATE * ENTRIES <= v < ENTRIES * ENTRIES
    ensures Copied(w0, p, v) <==> !IsApic(w.cfg, v) && Translate(w.mem, p, v).Some?
  {
    assert SpaceKept(w0, w, p);
    KeptTranslation(w0, w, p, v);
  }

  lemma CopyNeeds(w0: View, w: View, p: nat, c: nat, lo: nat, v: nat, start: int, left: int)
    requires Settled(w0, w, p, c, lo, v, start, left) && Copied(w0, p, v) && FIRST_PRIVATE * ENTRIES <= v
    requires IsPage(w, p, v) && Translate(w.mem, p, v).Some?
    ensures Translate(w.mem, p, v).value in w.role && Translate(w.mem, p, v).value < |w.mem|
    ensures 0 <= left && (left == 0 ==> start < ForkCost(w0, p, c, lo, v + 1))
  {
    PageOwnsFrame(w, p, v);
    assert FrameOk(w, Translate(w.mem, p, v).value);
    OneCopied(w0, w, p, c, lo, v, start, left);
  }

  /** Frame `f` has been taken and holds a copy of the parent's page. */
  ghost predicate CopyTaken(w: View, w1: View, p: nat, v: nat, f: nat)
  {
    && p < |w.mem| && v < ENTRIES * ENTRIES && f < |w.mem| && f !in w.role
    && Translate(w.mem, p, v).Some? && Translate(w.mem, p, v).value < |w.mem|
    && w1 == Loaded(w, f, w.mem[Translate(w.mem, p, v).value])
  }

  /** All pages before `v` are settled, and a copy of page `v` waits in frame `f`. */
  ghost predicate CopyPending(w0: View, w: View, w1: View, p: nat, c: nat, lo: nat, v: nat, f: nat, start: int, left: int)
  {
    && Settled(w0, w, p, c, lo, v, start, left + 1) && Copied(w0, p, v) && FIRST_PRIVATE * ENTRIES <= v
    && CopyTaken(w, w1, p, v, f) && 0 <= left
  }

  lemma CopyReady(w0: View, w: View, w1: View, p: nat, c: nat, lo: nat, v: nat, f: nat, pa: nat, start: int, left: int)
    requires CopyPending(w0, w, w1, p, c, lo, v, f, start, left) && Inv(w1) && pa == f * FRAME_SIZE
    ensures CanMap(w1, c, v, Or7(pa + 7)) && FrameOf(Or7(pa + 7)) == f
    ensures left < TableCost(w1, c, v) ==> start < ForkCost(w0, p, c, lo, v + 1)
  {
    CopyCanMap(w, w1, c, v, f, pa);
    OneCopied(w0, w, p, c, lo, v, start, left + 1);
  }

  /** The copy of one page is made and paid for. */
  lemma PageCopied(w0: View, w: View, w1: View, w': View, p: nat, c: nat, lo: nat, v: nat, f: nat, start: int, left: int)
    requires CopyPending(w0, w, w1, p, c, lo, v, f, start, left) && TableCost(w1, c, v) <= left
    requires Inv(w') && OnlySpace(w1, w', c) && OnlyPage(w1, w', c, v, Some(f)) && OneTableMore(w1, w', c, v / ENTRIES)
    ensures Settled(w0, w', p, c, lo, v + 1, start, left - TableCost(w1, c, v))
  {
    ForkCopy(w0, w, w1, w', p, c, lo, v, f);
    assert HasRole(w, c, Dir) && w1.mem[c] == w.mem[c];
    assert forall i: nat | i < ENTRIES :: TableThere(w1, c, i) <==> TableThere(w, c, i);
    OneCopiedThen(w0, w, w', p, c, lo, v, start, left + 1);
  }

  // ----- directories -----

  lemma EmptyRoot(m: seq<Frame>, root: nat, cfg: Config)
    requires ConfigOk(cfg) && root < |m| <= 0x8_0000 && m[root] == ZeroFrame()
    ensures Built(View(m, map[root := Root], root, cfg.(memSize := FRAME_SIZE)), 1)
  {
    var w := View(m, map[root := Root], root, cfg.(memSize := FRAME_SIZE));
    forall i: nat | i < ENTRIES ensures RootEntryOk(w, i) {
    }
    assert FrameOk(w, root);
  }

  ghost predicate NoPrivate(w: View, d: nat)
  {
    d < |w.mem| && forall v: nat {:trigger Translate(w.mem, d, v)} |
      FIRST_PRIVATE * ENTRIES <= v < ENTRIES * ENTRIES :: Translate(w.mem, d, v) == None
  }

  /** The tables that the two APIC pages need: one, if they lie in the same 4 MB. */
  function ApicTables(cfg: Config): nat
  {
    if cfg.ioAPIC / 0x40_0000 == cfg.localAPIC / 0x40_0000 then 1 else 2
  }

  ghost predicate NoTables(w: View, d: nat)
  {
    d < |w.mem| && forall i: nat {:trigger TableThere(w, d, i)} | FIRST_PRIVATE <= i < ENTRIES :: !TableThere(w, d, i)
  }

  lemma ApicCosts(w: View, d: nat)
    requires ConfigOk(w.cfg) && NoTables(w, d)
    ensures TableCost(w, d, w.cfg.ioAPIC / FRAME_SIZE) == 1
  {
    PageOfAddress(w.cfg.ioAPIC);
  }

  lemma ApicCostsThen(w: View, w1: View, d: nat)
    requires ConfigOk(w.cfg) && NoTables(w, d) && w1.cfg == w.cfg
    requires OneTableMore(w, w1, d, w.cfg.ioAPIC / FRAME_SIZE / ENTRIES)
    ensures TableCost(w1, d, w.cfg.localAPIC / FRAME_SIZE) == ApicTables(w.cfg) - 1
  {
    PageOfAddress(w.cfg.ioAPIC);
    PageOfAddress(w.cfg.localAPIC);
  }

  lemma CanMapApics(w: View, d: nat)
    requires Inv(w) && HasRole(w, d, Dir)
    ensures CanMap(w, d, w.cfg.ioAPIC / FRAME_SIZE, Or7(w.cfg.ioAPIC))
    ensures CanMap(w, d, w.cfg.localAPIC / FRAME_SIZE, Or7(w.cfg.localAPIC))
    ensures FrameOf(Or7(w.cfg.ioAPIC)) == w.cfg.ioAPIC / FRAME_SIZE
    ensures FrameOf(Or7(w.cfg.localAPIC)) == w.cfg.localAPIC / FRAME_SIZE
  {
    ApicEntry(w.cfg, w.cfg.ioAPIC);
    ApicEntry(w.cfg, w.cfg.localAPIC);
    EntryFacts(w.cfg.ioAPIC / FRAME_SIZE);
    EntryFacts(w.cfg.localAPIC / FRAME_SIZE);
    assert FrameOk(w, d);
  }

  lemma CopiedRoot(w: View, w': View, d: nat)
    requires Inv(w) && d < |w.mem| && w.mem[d] == ZeroFrame() && |w'.mem| == |w.mem|
    requires var n := (w.cfg.memSize + 0x3F_FFFF) / 0x40_0000;
      n <= ENTRIES && w'.mem[d] == w.mem[w.root][..n] + w.mem[d][n..]
    ensures forall i: nat | i < ENTRIES :: w'.mem[d][i] == if i < SharedEntries(w.cfg) then w.mem[w.root][i] else 0
  {
    var n := (w.cfg.memSize + 0x3F_FFFF) / 0x40_0000;
    assert FrameOk(w, w.root);
    forall i: nat | i < ENTRIES
      ensures w'.mem[d][i] == if i < SharedEntries(w.cfg) then w.mem[w.root][i] else 0
    {
      assert RootEntryOk(w, i);
      assert w'.mem[d][i] == if i < n then w.mem[w.root][i] else w.mem[d][i];
    }
  }

  lemma ApicAddress(cfg: Config, v: nat)
    requires ConfigOk(cfg)
    ensures IsApic(cfg, v) <==> v == cfg.ioAPIC / FRAME_SIZE || v == cfg.localAPIC / FRAME_SIZE
  {
  }

  lemma ApicEntry(cfg: Config, pa: nat)
    requires ConfigOk(cfg) && (pa == cfg.ioAPIC || pa == cfg.localAPIC)
    ensures Or7(pa) == Entry(pa / FRAME_SIZE) && IsApic(cfg, pa / FRAME_SIZE)
    ensures FIRST_PRIVATE * ENTRIES <= pa / FRAME_SIZE < ENTRIES * ENTRIES
  {
    Or7Frame(pa);
    var q := pa / FRAME_SIZE;
    assert pa == q * FRAME_SIZE;
  }

  ghost predicate ApicsMapped(w: View, w': View, d: nat)
  {
    |w'.mem| == |w.mem| && forall d': nat, v: nat {:trigger Translate(w'.mem, d', v)} | IsPage(w, d', v) ::
      Translate(w'.mem, d', v) == if d' == d && IsApic(w.cfg, v) then Some(v) else Translate(w.mem, d', v)
  }

  lemma BothApics(w: View, w1: View, w2: View, d: nat)
    requires ConfigOk(w.cfg) && PagesKept(w, w1) && PagesKept(w1, w2) && HasRole(w, d, Dir)
    requires var io, lo := w.cfg.ioAPIC / FRAME_SIZE, w.cfg.localAPIC / FRAME_SIZE;
      OnlyPage(w, w1, d, io, Some(io)) && OnlyPage(w1, w2, d, lo, Some(lo))
    ensures ApicsMapped(w, w2, d)
  {
    var io, lo := w.cfg.ioAPIC / FRAME_SIZE, w.cfg.localAPIC / FRAME_SIZE;
    forall d': nat, v: nat | IsPage(w, d', v)
      ensures Translate(w2.mem, d', v) == if d' == d && IsApic(w.cfg, v) then Some(v) else Translate(w.mem, d', v)
    {
      ApicAddress(w.cfg, v);
      assert HasRole(w1, d', Dir);
      assert (d', v) != (d, io) ==> SameAt(w, w1, d', v);
      assert (d', v) != (d, lo) ==> SameAt(w1, w2, d', v);
    }
  }

  lemma MadePd(w: View, w1: View, w2: View, w3: View, d: nat)
    requires w.cfg == w2.cfg == w3.cfg && d !in w.role && SameMaps(w, w1) && SameMaps(w1, w2)
    requires DirsKept(w, w1) && DirsKept(w1, w2) && HasRole(w2, d, Dir) && NoPrivate(w2, d)
    requires ApicsMapped(w2, w3, d)
    ensures SameMaps(w, w3) && OnlyApics(w3, d)
  {
    forall v: nat | IsPage(w3, d, v) && FIRST_PRIVATE * ENTRIES <= v
      ensures Translate(w3.mem, d, v) == if IsApic(w.cfg, v) then Some(v) else None
    {
      assert Translate(w2.mem, d, v) == None && IsPage(w2, d, v);
    }
    forall d': nat, v: nat | IsPage(w, d', v) ensures SameAt(w, w3, d', v) {
      assert HasRole(w1, d', Dir) && HasRole(w2, d', Dir);
      assert SameAt(w, w1, d', v) && SameAt(w1, w2, d', v);
    }
  }

  ghost function TablesBelow(w: View, d: nat, i: nat): set<nat>
  {
    set f | f in w.role && w.role[f].Table? && w.role[f].dir == d && w.role[f].entry < i
  }

  lemma TablesFrom(w: View, d: nat)
    requires Inv(w)
    ensures TablesBelow(w, d, FIRST_PRIVATE) == {}
  {
    forall f | f in w.role ensures w.role[f].Table? ==> FIRST_PRIVATE <= w.role[f].entry {
      assert FrameOk(w, f);
    }
  }

  lemma TableEntry(w: View, d: nat, i: nat)
    requires Inv(w) && HasRole(w, d, Dir) && d < |w.mem| && FIRST_PRIVATE <= i < ENTRIES
    ensures var e := w.mem[d][i]; if Present(e) then FrameOf(e) < |w.mem| && HasRole(w, FrameOf(e), Table(d, i)) else e == 0
    ensures forall f {:trigger HasRole(w, f, Table(d, i))} | HasRole(w, f, Table(d, i)) :: w.mem[d][i] == Entry(f)
  {
    SharedBound(w.cfg);
    var e := w.mem[d][i];
    EntryFacts(FrameOf(e));
    assert FrameOk(w, d);
    assert DirEntryOk(w, d, i);
    if e != 0 { assert FrameOk(w, FrameOf(e)); }
    forall f | HasRole(w, f, Table(d, i)) ensures w.mem[d][i] == Entry(f) {
      assert FrameOk(w, f);
    }
  }

  lemma TableAt(w: View, d: nat, i: nat)
    requires Inv(w) && HasRole(w, d, Dir) && d < |w.mem| && FIRST_PRIVATE <= i < ENTRIES
    ensures var e := w.mem[d][i]; var t := FrameOf(e);
      if Present(e) then t < |w.mem| && HasRole(w, t, Table(d, i)) && t !in TablesBelow(w, d, i)
           && TablesBelow(w, d, i + 1) == TablesBelow(w, d, i) + {t}
      else TablesBelow(w, d, i + 1) == TablesBelow(w, d, i)
    ensures d !in TablesBelow(w, d, i)
  {
    TableEntry(w, d, i);
    var e := w.mem[d][i];
    var here := if Present(e) then {FrameOf(e)} else {};
    forall f ensures HasRole(w, f, Table(d, i)) <==> f in here {
      if HasRole(w, f, Table(d, i)) { EntryFacts(f); }
    }
    forall f ensures f in TablesBelow(w, d, i + 1) <==> f in TablesBelow(w, d, i) || f in here {
      assert HasRole(w, f, Table(d, i)) <==> f in here;
    }
  }

  lemma DroppedKeys(w: View, d: nat)
    requires Inv(w) && HasRole(w, d, Dir)
    ensures DropDir(w.role, d).Keys == w.role.Keys - TablesBelow(w, d, ENTRIES) - {d}
  {
    forall f | f in w.role && w.role[f].Table? && w.role[f].dir == d ensures f in TablesBelow(w, d, ENTRIES) {
      assert FrameOk(w, f);
    }
  }

  datatype Fault = Handled | Unhandled | NoFrames

  lemma FreshCanMap(w: View, d: nat, v: nat, f: nat)
    requires Inv(w) && IsPage(w, d, v) && FIRST_PRIVATE * ENTRIES <= v && !IsApic(w.cfg, v)
    requires f < |w.mem| && f !in w.role && Inv(Fresh(w, f))
    ensures CanMap(Fresh(w, f), d, v, Entry(f))
  {
    EntryFacts(f);
  }

  lemma ApicCanMap(w: View, c: nat, va: nat, v: nat)
    requires Inv(w) && HasRole(w, c, Dir) && (va == w.cfg.ioAPIC || va == w.cfg.localAPIC) && v == va / FRAME_SIZE
    ensures CanMap(w, c, v, Or7(Or7(va))) && FrameOf(Or7(Or7(va))) == v
    ensures IsApic(w.cfg, v) && FIRST_PRIVATE * ENTRIES <= v < ENTRIES * ENTRIES && va < 0x1_0000_0000
  {
    ApicEntry(w.cfg, va);
    Or7Frame(va);
    CanMapApics(w, c);
  }

  /** Every other private page of every address space shows what it showed before. */
  ghost predicate OtherContents(w: View, w': View, d: nat, v: nat)
  {
    |w'.mem| == |w.mem| && forall d': nat, v': nat {:trigger SameContents(w, w', d', v')} |
      IsPage(w, d', v') && FIRST_PRIVATE * ENTRIES <= v' && (d', v') != (d, v) :: SameContents(w, w', d', v')
  }

  ghost predicate SameContents(w: View, w': View, d: nat, v: nat)
    requires d < |w.mem| == |w'.mem| && v < ENTRIES * ENTRIES
  {
    Translate(w.mem, d, v).Some? && !IsApic(w.cfg, v) ==>
      var f := Translate(w.mem, d, v).value; f < |w.mem| && w'.mem[f] == w.mem[f]
  }

  lemma WrittenAlone(w: View, w': View, d: nat, v: nat)
    requires Inv(w) && IsPage(w, d, v) && FIRST_PRIVATE * ENTRIES <= v && !IsApic(w.cfg, v)
    requires Translate(w.mem, d, v).Some? && SameElsewhere(w, w', Translate(w.mem, d, v).value)
    ensures OtherContents(w, w', d, v)
  {
    forall d': nat, v': nat | IsPage(w, d', v') && FIRST_PRIVATE * ENTRIES <= v' && (d', v') != (d, v)
      ensures SameContents(w, w', d', v')
    {
      if Translate(w.mem, d', v').Some? && !IsApic(w.cfg, v') {
        LeavesDisjoint(w, d, v, d', v');
        PageOwnsFrame(w, d', v');
        assert FrameOk(w, Translate(w.mem, d', v').value);
      }
    }
  }

  lemma CopyCanMap(w: View, w1: View, c: nat, v: nat, f: nat, pa: nat)
    requires Inv(w) && HasRole(w, c, Dir) && IsPage(w, c, v) && FIRST_PRIVATE * ENTRIES <= v && !IsApic(w.cfg, v)
    requires f < |w.mem| && f !in w.role && exists g: nat | g < |w.mem| :: w1 == Loaded(w, f, w.mem[g])
    requires pa == f * FRAME_SIZE
    ensures CanMap(w1, c, v, Or7(pa + 7)) && FrameOf(Or7(pa + 7)) == f
    ensures w1.mem[c] == w.mem[c] && TableCost(w1, c, v) == TableCost(w, c, v)
  {
    var g: nat :| g < |w.mem| && w1 == Loaded(w, f, w.mem[g]);
    LoadedKeeps(w, f, w.mem[g], c);
    Or7Frame(pa);
    EntryFacts(f);
    assert HasRole(w1, c, Dir);
  }

  /** Taking a frame and mapping it changes one page; the page is new and holds zeros. */
  lemma FreshMapped(w: View, w1: View, w2: View, d: nat, v: nat, f: nat)
    requires IsPage(w, d, v) && f < |w.mem| && f !in w.role && w1 == Fresh(w, f) && SameMaps(w, w1)
    requires OnlyPage(w1, w2, d, v, Some(f)) && PagesKept(w1, w2)
    ensures OnlyPage(w, w2, d, v, Some(f)) && f < |w2.mem| && w2.mem[f] == ZeroFrame()
  {
    assert DirsKept(w, w1);
    OnlyPageThen(w, w1, w2, d, v, Some(f));
    assert w1.mem[f] == ZeroFrame() && w1.role[f] == Orphan;
  }

  lemma UnmapFacts(w: View, d: nat, v: nat)
    requires Inv(w) && IsPage(w, d, v) && FIRST_PRIVATE * ENTRIES <= v && !IsApic(w.cfg, v)
    ensures d < |w.mem| && v / ENTRIES < ENTRIES
    ensures Translate(w.mem, d, v) == None ==> OnlyPage(w, w, d, v, None)
    ensures var e := w.mem[d][v / ENTRIES];
      if Present(e) then
        var t := FrameOf(e);
        && t < |w.mem| && CanSet(w, d, v, 0)
        && Translate(w.mem, d, v) == if Present(w.mem[t][v % ENTRIES]) then Some(FrameOf(w.mem[t][v % ENTRIES])) else None
      else Translate(w.mem, d, v) == None
  {
    TableOf(w, d, v);
  }

  lemma OnlyThenSame(w: View, w1: View, w2: View, d: nat, v: nat, r: Option<nat>)
    requires OnlyPage(w, w1, d, v, r) && SameMaps(w1, w2) && DirsKept(w, w1) && IsPage(w, d, v)
    ensures OnlyPage(w, w2, d, v, r)
  {
    assert HasRole(w1, d, Dir) && SameAt(w1, w2, d, v);
    forall d': nat, v': nat | IsPage(w, d', v') && (d', v') != (d, v) ensures SameAt(w, w2, d', v') {
      assert HasRole(w1, d', Dir);
      assert SameAt(w, w1, d', v') && SameAt(w1, w2, d', v');
    }
  }

  lemma TableEntryShape(w: View, d: nat, v: nat)
    requires Inv(w) && IsPage(w, d, v)
    ensures var e := w.mem[d][v / ENTRIES]; Present(e) ==> e == Entry(FrameOf(e)) && FrameOf(e) in w.role
  {
    TableOf(w, d, v);
    assert FrameOk(w, d) && DirEntryOk(w, d, v / ENTRIES) && FrameOk(w, w.root) && RootEntryOk(w, v / ENTRIES);
  }

  lemma MappedWords(w: View, d: nat, v: nat, e: nat, t: nat)
    requires CanMap(w, d, v, e) && t < |w.mem|
    requires if Present(w.mem[d][v / ENTRIES]) then t == FrameOf(w.mem[d][v / ENTRIES]) else t !in w.role
    ensures Mapped(w, d, v, e, t).mem == MapWords(w.mem, d, v, e, t)
  {
  }
}
