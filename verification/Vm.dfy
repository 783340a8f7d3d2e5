/** kern/vm.c over kern/kalloc.c: walking, mapping, copying and freeing page tables in place. */
module Vm {
  import opened Common
  import opened VmSpec
  import Frames

  const MAPPED: int := 0
  const CLASH: int := -1        // map_region found a page that is already mapped
  const STUCK: int := -2        // kalloc ran out; the source then holds its lock for ever

  // ---- indices -----------------------------------------------------------------------------

  /** The part of a page number that selects a table at level l. */
  function Pre(vpn: nat, l: nat): nat
    requires l <= 4
    decreases 4 - l
  {
    if l == 4 then vpn else Pre(vpn, l + 1) / ENTRYSZ
  }

  function Ptx(vpn: nat, l: nat): nat
    requires l <= 3
  {
    Pre(vpn, l + 1) % ENTRYSZ
  }

  /** The PTX macro: `(va >> (39 - 9 * level)) & 0x1FF`. */
  lemma PtxIsMacro(va: nat)
    ensures Ptx(va / PGSIZE, 0) == va / 0x80_0000_0000 % 512
    ensures Ptx(va / PGSIZE, 1) == va / 0x4000_0000 % 512
    ensures Ptx(va / PGSIZE, 2) == va / 0x20_0000 % 512
    ensures Ptx(va / PGSIZE, 3) == va / 0x1000 % 512
  {
    assert Pre(va / PGSIZE, 4) == va / PGSIZE;
    assert Pre(va / PGSIZE, 3) == va / PGSIZE / 512 == va / 0x20_0000;
    assert Pre(va / PGSIZE, 2) == va / 0x20_0000 / 512 == va / 0x4000_0000;
    assert Pre(va / PGSIZE, 1) == va / 0x4000_0000 / 512 == va / 0x80_0000_0000;
  }

  lemma RootPrefix(vpn: nat)
    requires vpn < VPNS
    ensures Pre(vpn, 0) == 0 && Pre(vpn, 3) == vpn / ENTRYSZ
  {
    assert Pre(vpn, 4) == vpn;
    assert Pre(vpn, 3) == vpn / 512;
    assert Pre(vpn, 2) == vpn / 512 / 512;
    assert Pre(vpn, 1) == vpn / 512 / 512 / 512;
  }

  // ---- growth ------------------------------------------------------------------------------

  /** What an operation on the tables of `root` may do to memory: take frames from the front of
      the free list for new tables, and write tables. */
  ghost predicate Grown(mem0: Mem, free0: seq<nat>, mem: Mem, free: seq<nat>, root: nat) {
    && |mem| == |mem0| && |free| <= |free0| && free == free0[|free0| - |free|..]
    && (forall k: nat, q: nat :: k <= 3 && Tab(mem0, root, k, q).At? ==> Tab(mem, root, k, q) == Tab(mem0, root, k, q))
    && (forall k: nat, q: nat :: k <= 3 && Tab(mem, root, k, q).At? ==>
          Tab(mem0, root, k, q) == Tab(mem, root, k, q) || Tab(mem, root, k, q).f in free0[..|free0| - |free|])
    && forall f: nat :: f < |mem| && mem[f] != mem0[f] ==> Table(mem, root, f)
  }

  lemma GrownTrans(mem0: Mem, free0: seq<nat>, mem1: Mem, free1: seq<nat>, mem2: Mem, free2: seq<nat>, root: nat)
    requires Grown(mem0, free0, mem1, free1, root) && Grown(mem1, free1, mem2, free2, root)
    ensures Grown(mem0, free0, mem2, free2, root)
  {
    var n, m := |free0| - |free1|, |free0| - |free2|;
    assert free1[..|free1| - |free2|] == free0[n..m];
    assert free0[..m] == free0[..n] + free0[n..m];
    forall f: nat | f < |mem2| && mem2[f] != mem0[f] ensures Table(mem2, root, f) {
      if mem2[f] == mem1[f] {
        assert Table(mem1, root, f);
        var k: nat, q: nat :| k <= 3 && Tab(mem1, root, k, q) == At(f);
        assert Tab(mem2, root, k, q) == At(f);
      }
    }
  }

  lemma HangGrows(mem: Mem, root: nat, l: nat, p: nat, t: nat, f: nat, free: seq<nat>)
    requires CanHang(mem, root, l, p, t, f) && Space(mem, root, [f] + free)
    ensures Grown(mem, [f] + free, Hang(mem, t, p, f), free, root)
  {
    var mem' := Hang(mem, t, p, f);
    HangKeeps(mem, root, l, p, t, f, free);
    assert ([f] + free)[1..] == free && ([f] + free)[..1] == [f];
    assert Tab(mem', root, l, p / ENTRYSZ) == At(t);
    forall g: nat | g < |mem'| && mem'[g] != mem[g] ensures Table(mem', root, g) {
      assert g == t || g == f;
    }
  }

  lemma LeafGrows(mem: Mem, root: nat, vpn: nat, t: nat, w: Word, free: seq<nat>)
    requires Space(mem, root, free) && Tab(mem, root, 3, vpn / ENTRYSZ) == At(t) && t < |mem|
    ensures Grown(mem, free, SetLeaf(mem, t, vpn, w), free, root)
  {
    SetLeafKeeps(mem, root, vpn, t, w, free);
    var mem' := SetLeaf(mem, t, vpn, w);
    forall f: nat | f < |mem'| && mem'[f] != mem[f] ensures Table(mem', root, f) {
      assert Tab(mem', root, 3, vpn / ENTRYSZ) == At(f);
    }
  }

  class Memory {
    var mem: Mem
    var free: seq<nat>          // kmem.free_list

    /** kalloc. The frame is in no address space that stands beside the free list, and each of those
        stands beside the shorter one. */
    method Kalloc() returns (ok: bool, f: nat)
      modifies this`free
      ensures ok <==> old(free) != []
      ensures ok ==> f == old(free)[0] && free == old(free)[1..]
      ensures ok ==> free == Frames.Apply(Frames.State(old(free), {}), Frames.Take).free
      ensures ok && FreeOk(mem, old(free)) ==> FreeOk(mem, free) && f < |mem| && f !in free
      ensures ok ==> forall root: nat :: Space(mem, root, old(free)) ==> Space(mem, root, free) && !Table(mem, root, f)
      ensures !ok ==> free == old(free)
    {
      if free == [] {
        return false, 0;
      }
      f := free[0];
      free := free[1..];
      ok := true;
      forall root: nat | Space(mem, root, old(free)) ensures Space(mem, root, free) && !Table(mem, root, f) {
        TakeFree(mem, root, old(free));
      }
    }

    /** kfree. The free list stays good exactly if the frame was not free, and an address space stands
        beside it exactly if the frame is not one of its tables either. */
    method Kfree(f: nat)
      requires f < |mem|
      modifies this`free
      ensures free == [f] + old(free) == Frames.Apply(Frames.State(old(free), {f}), Frames.Give(f)).free
      ensures FreeOk(mem, old(free)) ==> (FreeOk(mem, free) <==> f !in old(free))
      ensures forall root: nat :: Space(mem, root, old(free)) ==>
        (Space(mem, root, free) <==> f !in old(free) && !Table(mem, root, f))
    {
      free := [f] + free;
      MoreFree(mem, old(free), f);
      forall root: nat | Space(mem, root, old(free))
        ensures Space(mem, root, free) <==> f !in old(free) && !Table(mem, root, f)
      {
        GiveFree(mem, root, old(free), f);
      }
    }

    /** One level of pgdir_walk with alloc: the next table, created if it is missing. */
    method Descend(root: nat, l: nat, p: nat, tb: nat) returns (ok: bool, next: nat)
      requires Space(mem, root, free) && l < 3 && Tab(mem, root, l, p / ENTRYSZ) == At(tb)
      modifies this
      ensures Space(mem, root, free) && Grown(old(mem), old(free), mem, free, root)
      ensures forall q: nat :: Ent(mem, root, 3, q) == Ent(old(mem), root, 3, q)
      ensures !ok ==> free == [] && mem == old(mem) && !Present(Ent(mem, root, l, p))
      ensures ok ==> Tab(mem, root, l + 1, p) == At(next) && next < |mem|
      ensures ok && !Present(Ent(old(mem), root, l, p)) ==> TableFields(Ent(mem, root, l, p))
    {
      var idx := p % ENTRYSZ;
      next := 0;
      assert Ent(mem, root, l, p) == mem[tb][idx];
      if !Present(mem[tb][idx]) {
        var f;
        ok, f := Kalloc();
        if !ok {
          return;
        }
        assert old(free) == [f] + free && f in old(free);
        assert !Table(mem, root, f);
        HangKeeps(mem, root, l, p, tb, f, free);
        HangGrows(mem, root, l, p, tb, f, free);
        mem := Hang(mem, tb, p, f);
        next := f;
        return;
      }
      next := mem[tb][idx].frame;
      ok := true;
    }

    /** pgdir_walk with alloc: the level-3 table of page vpn. No page's descriptor changes. */
    method Walk(root: nat, vpn: nat) returns (ok: bool, t: nat)
      requires Space(mem, root, free) && vpn < VPNS
      modifies this
      ensures Space(mem, root, free) && Grown(old(mem), old(free), mem, free, root)
      ensures forall q: nat :: Ent(mem, root, 3, q) == Ent(old(mem), root, 3, q)
      ensures !ok ==> free == [] && !Present(Ent(mem, root, 3, vpn))
      ensures ok ==> Tab(mem, root, 3, vpn / ENTRYSZ) == At(t) && t < |mem|
    {
      RootPrefix(vpn);
      t := root;
      var i := 0;
      while i < 3
        invariant 0 <= i <= 3 && Space(mem, root, free) && Grown(old(mem), old(free), mem, free, root)
        invariant forall q: nat :: Ent(mem, root, 3, q) == Ent(old(mem), root, 3, q)
        invariant Tab(mem, root, i, Pre(vpn, i)) == At(t)
      {
        ghost var mem1, free1 := mem, free;
        assert Pre(vpn, i) == Pre(vpn, i + 1) / ENTRYSZ;
        ok, t := Descend(root, i, Pre(vpn, i + 1), t);
        GrownTrans(old(mem), old(free), mem1, free1, mem, free, root);
        if !ok {
          NoneBelow(mem, root, vpn, i + 1);
          return;
        }
        i := i + 1;
      }
      ok := true;
    }

    /** pgdir_walk without alloc. */
    method Find(root: nat, vpn: nat) returns (r: Frame)
      requires Tree(mem, root) && vpn < VPNS
      ensures r == Tab(mem, root, 3, vpn / ENTRYSZ)
    {
      RootPrefix(vpn);
      var tb := root;
      var i := 0;
      while i < 3
        invariant 0 <= i <= 3 && Tab(mem, root, i, Pre(vpn, i)) == At(tb)
      {
        var p := Pre(vpn, i + 1);
        assert Pre(vpn, i) == p / ENTRYSZ;
        var w := mem[tb][p % ENTRYSZ];
        assert Ent(mem, root, i, p) == w;
        if !Present(w) {
          NoneBelow(mem, root, vpn, i + 1);
          return Absent;
        }
        tb := w.frame;
        i := i + 1;
      }
      r := At(tb);
    }

    /** map_region over the pages from rounddown(va) up to va + size. `k` pages were mapped: all of
        them exactly when none was mapped before, short of running out of memory. The other pages'
        descriptors are untouched, whichever tables were created. */
    method MapRegion(root: nat, va: nat, size: nat, pa: nat, perm: bv12) returns (r: int, k: nat)
      requires Space(mem, root, free) && va + size <= VPNS * PGSIZE
      modifies this
      ensures Space(mem, root, free) && Grown(old(mem), old(free), mem, free, root)
      ensures k <= Span(va, size) && (r == MAPPED <==> k == Span(va, size))
      ensures r == MAPPED || r == CLASH || r == STUCK
      ensures forall q: nat ::
        Ent(mem, root, 3, q) == Mapped(Ent(old(mem), root, 3, q), q, va / PGSIZE, k, pa / PGSIZE, perm)
      ensures forall q: nat :: va / PGSIZE <= q < va / PGSIZE + k ==> PageFields(Ent(mem, root, 3, q), perm)
      ensures Unmapped(old(mem), root, va / PGSIZE, k)
      ensures r == CLASH <==> k < Span(va, size) && Present(Ent(old(mem), root, 3, va / PGSIZE + k))
      ensures r == STUCK ==> free == []
    {
      var first := va / PGSIZE;
      ghost var frame := pa / PGSIZE;
      var v, p := first * PGSIZE, pa;
      k := 0;
      while v < va + size
        invariant v == (first + k) * PGSIZE && p == pa + k * PGSIZE && k <= Span(va, size)
        invariant Space(mem, root, free) && Grown(old(mem), old(free), mem, free, root)
        invariant Region(old(mem), mem, root, first, k, frame, perm) && Unmapped(old(mem), root, first, k)
        decreases va + size - v
      {
        SpanStep(va, size, first, k, v, pa);
        r := MapTurn(root, first, k, p / PGSIZE, frame, perm, old(mem), old(free));
        if r != MAPPED {
          RegionFields(old(mem), mem, root, first, k, frame, perm);
          return;
        }
        v, p, k := v + PGSIZE, p + PGSIZE, k + 1;
      }
      SpanEnd(va, size, first, k);
      RegionFields(old(mem), mem, root, first, k, frame, perm);
      r := MAPPED;
    }

    /** One turn of map_region's loop. */
    method MapTurn(root: nat, first: nat, k: nat, f: nat, ghost frame: nat, perm: bv12,
                   ghost mem0: Mem, ghost free0: seq<nat>) returns (r: int)
      requires Space(mem, root, free) && first + k < VPNS && Grown(mem0, free0, mem, free, root) && f == frame + k
      requires Region(mem0, mem, root, first, k, frame, perm) && Unmapped(mem0, root, first, k)
      modifies this
      ensures Space(mem, root, free) && Grown(mem0, free0, mem, free, root)
      ensures r == MAPPED || r == CLASH || r == STUCK
      ensures Region(mem0, mem, root, first, if r == MAPPED then k + 1 else k, frame, perm)
      ensures r == MAPPED ==> Unmapped(mem0, root, first, k + 1)
      ensures r == CLASH <==> Present(Ent(mem0, root, 3, first + k))
      ensures r == STUCK ==> free == []
    {
      ghost var mem1 := mem;
      UnmappedNext(mem0, mem, root, first, k, frame, perm);
      r := MapPage(root, first + k, Word(f, perm | PAGE_FLAGS), mem0, free0);
      RegionStep(mem0, mem1, mem, root, first, k, frame, perm, r);
    }

    method MapPage(root: nat, vpn: nat, w: Word, ghost mem0: Mem, ghost free0: seq<nat>) returns (r: int)
      requires Space(mem, root, free) && vpn < VPNS && Grown(mem0, free0, mem, free, root)
      modifies this
      ensures Space(mem, root, free) && Grown(mem0, free0, mem, free, root)
      ensures r == MAPPED || r == CLASH || r == STUCK
      ensures forall q: nat :: Ent(mem, root, 3, q) == if r == MAPPED && q == vpn then w else Ent(old(mem), root, 3, q)
      ensures r == CLASH <==> Present(Ent(old(mem), root, 3, vpn))
      ensures r == STUCK ==> free == []
    {
      ghost var mem1, free1 := mem, free;
      var ok, t := Walk(root, vpn);
      GrownTrans(mem0, free0, mem1, free1, mem, free, root);
      if !ok {
        return STUCK;
      }
      assert Ent(mem, root, 3, vpn) == mem[t][vpn % ENTRYSZ];
      if Present(mem[t][vpn % ENTRYSZ]) {
        return CLASH;
      }
      SetLeafKeeps(mem, root, vpn, t, w, free);
      LeafGrows(mem, root, vpn, t, w, free);
      GrownTrans(mem0, free0, mem, free, SetLeaf(mem, t, vpn, w), free, root);
      mem := SetLeaf(mem, t, vpn, w);
      r := MAPPED;
    }

    /** uvm_copy: on success the child maps every page below sz to a frame of its own with the same
        bytes and the same flags (and map_region's), and no other page; the parent and every other
        frame in use are untouched. It fails exactly when the parent lacks one of those pages, short
        of running out of memory. */
    method UvmCopy(parent: nat, sz: nat) returns (r: int, child: nat)
      requires Space(mem, parent, free) && LeavesOk(mem, parent, free) && sz <= VPNS * PGSIZE
      modifies this
      ensures r == MAPPED ==> Child(old(mem), old(free), mem, free, parent, child, PagesIn(sz))
      ensures r == CLASH ==> exists x: nat :: x < PagesIn(sz) && !Present(Ent(old(mem), parent, 3, x))
      ensures r == STUCK ==> free == []
      ensures r == MAPPED || r == CLASH || r == STUCK
    {
      ghost var mem0, free0 := mem, free;
      var ok;
      ok, child := Kalloc();
      if !ok {
        return STUCK, child;
      }
      assert child == free0[0] && free0 == [child] + free;
      mem := mem[child := ZeroPage()];
      ChildInit(mem0, free0, mem, free, parent, child);
      var x := 0;
      while x * PGSIZE < sz
        invariant x <= PagesIn(sz) && Child(mem0, free0, mem, free, parent, child, x)
        decreases sz - x * PGSIZE
      {
        r := CopyPage(parent, child, x, mem0, free0);
        if r != MAPPED {
          return;
        }
        x := x + 1;
      }
      r := MAPPED;
    }

    method CopyPage(parent: nat, child: nat, x: nat, ghost mem0: Mem, ghost free0: seq<nat>) returns (r: int)
      requires Child(mem0, free0, mem, free, parent, child, x) && x < VPNS
      requires Space(mem0, parent, free0) && LeavesOk(mem0, parent, free0)
      modifies this
      ensures r == MAPPED || r == CLASH || r == STUCK
      ensures r == MAPPED ==> Child(mem0, free0, mem, free, parent, child, x + 1)
      ensures r == CLASH ==> !Present(Ent(mem0, parent, 3, x))
      ensures r == STUCK ==> free == []
    {
      SpaceFrame(mem0, mem, parent, free0, free);
      var pte := ReadPte(parent, x);
      if !Present(pte) {
        return CLASH;
      }
      assert pte.frame < |mem| && pte.frame !in free0;
      assert mem[pte.frame] == mem0[pte.frame] by { assert pte.frame !in Taken(free0, free); }
      var ok, pg := Kalloc();
      if !ok {
        return STUCK;
      }
      assert old(free) == [pg] + free;
      CopyInto(mem0, free0, mem, old(free), mem[pg := mem[pte.frame]], free, parent, child, x, pg);
      mem := mem[pg := mem[pte.frame]];
      r := PlacePage(parent, child, x, pg, pte.flags, mem0, free0);
    }

    /** pgdir_walk without alloc, and the descriptor it points to; no table reads as zero. */
    method ReadPte(root: nat, vpn: nat) returns (w: Word)
      requires Tree(mem, root) && vpn < VPNS
      ensures w == Ent(mem, root, 3, vpn)
    {
      var t := Find(root, vpn);
      if t == Absent {
        return ZERO;
      }
      w := mem[t.f][vpn % ENTRYSZ];
    }

    /** uvm_copy's map_region of the freshly filled frame. */
    method PlacePage(parent: nat, child: nat, x: nat, pg: nat, flags: bv12, ghost mem0: Mem,
                     ghost free0: seq<nat>) returns (r: int)
      requires Child(mem0, free0, mem, free, parent, child, x) && x < VPNS
      requires Filled(mem0, free0, mem, free, parent, child, x, pg) && flags == Ent(mem0, parent, 3, x).flags
      modifies this
      ensures r == MAPPED || r == STUCK
      ensures r == MAPPED ==> Child(mem0, free0, mem, free, parent, child, x + 1)
      ensures r == STUCK ==> free == []
    {
      OneSpan(x);
      OneSpan(pg);
      var k;
      r, k := MapRegion(child, x * PGSIZE, PGSIZE, pg * PGSIZE, flags);
      if r == MAPPED {
        CopyMapped(mem0, free0, old(mem), old(free), mem, free, parent, child, x, pg);
      } else {
        assert k == 0 && !Present(Ent(old(mem), child, 3, x));
      }
    }

    /** vm_free_dfs: the frames of Pages go onto the free list in that order, each once, and no
        other frame is touched. It descends a level per call, so it ends. */
    method FreeDfs(t: nat, level: nat)
      requires level <= 3 && NoDup(Pages(mem, t, level)) && forall f: nat :: f in Pages(mem, t, level) ==> f < |mem|
      modifies this
      ensures |mem| == |old(mem)| && free == Reversed(Pages(old(mem), t, level)) + old(free)
      ensures forall f: nat :: f < |mem| && f !in Pages(old(mem), t, level) ==> mem[f] == old(mem)[f]
      decreases 3 - level, 1
    {
      assert t in Pages(mem, t, level);
      var i := 0;
      while i < ENTRYSZ
        invariant 0 <= i <= ENTRYSZ && PartFreed(old(mem), old(free), mem, free, t, level, i)
      {
        FreeEntry(t, level, i, old(mem), old(free));
        i := i + 1;
      }
      ReversedConcat(PagesTo(old(mem), t, level, ENTRYSZ), [t], old(free));
      Kfree(t);
    }

    method FreeEntry(t: nat, level: nat, i: nat, ghost mem0: Mem, ghost free0: seq<nat>)
      requires level <= 3 && i < ENTRYSZ && t < |mem0| && PartFreed(mem0, free0, mem, free, t, level, i)
      requires NoDup(Pages(mem0, t, level)) && forall f: nat :: f in Pages(mem0, t, level) ==> f < |mem0|
      modifies this
      ensures PartFreed(mem0, free0, mem, free, t, level, i + 1)
      decreases 3 - level, 0
    {
      ghost var done, below := PagesTo(mem0, t, level, i), Below(mem0, t, level, i);
      ReversedConcat(done, below, free0);
      assert PagesTo(mem0, t, level, i + 1) == done + below;
      var w := mem[t][i];
      if Present(w) {
        if IsTable(w) && level != 3 {
          Apart(mem0, t, level, i);
          PagesFrame(mem0, mem, w.frame, level + 1);
          FreeDfs(w.frame, level + 1);
        }
        mem := mem[t := mem[t][i := ZERO]];
      }
    }

    /** vm_free on a well-formed address space: the tables, all of them and nothing else, become free,
        and the free list stays free of duplicates. Mapped pages are not freed. */
    method VmFree(root: nat)
      requires Space(mem, root, free)
      modifies this
      ensures FreeOk(mem, free) && |mem| == |old(mem)|
      ensures forall f: nat :: f in free <==> f in old(free) || Table(old(mem), root, f)
      ensures forall f: nat :: f < |mem| && !Table(old(mem), root, f) ==> mem[f] == old(mem)[f]
    {
      FreesExactlyTables(mem, root);
      ghost var ps := Pages(mem, root, 0);
      FreeDfs(root, 0);
      ReversedSame(ps);
      forall f: nat | f in Reversed(ps) ensures f !in old(free) && f < |mem| {
        assert Table(old(mem), root, f);
      }
      Concat(Reversed(ps), old(free));
      forall i | 0 <= i < |free| ensures free[i] < |mem| {
        assert i < |Reversed(ps)| ==> free[i] == Reversed(ps)[i] && free[i] in Reversed(ps);
        assert i >= |Reversed(ps)| ==> free[i] == old(free)[i - |Reversed(ps)|];
      }
    }
  }

  /** vm_free_dfs after i entries of table t: the frames below them are freed, later entries and
      other frames are as at the start. */
  ghost predicate PartFreed(mem0: Mem, free0: seq<nat>, mem: Mem, free: seq<nat>, t: nat, level: nat, i: nat)
    requires level <= 3 && i <= ENTRYSZ
  {
    && |mem| == |mem0| && free == Reversed(PagesTo(mem0, t, level, i)) + free0
    && (forall f: nat :: f < |mem| && f != t && f !in PagesTo(mem0, t, level, i) ==> mem[f] == mem0[f])
    && (t < |mem| ==> forall j :: i <= j < ENTRYSZ ==> mem[t][j] == mem0[t][j])
  }

  function Reversed(s: seq<nat>): (r: seq<nat>) {
    if s == [] then [] else [s[|s| - 1]] + Reversed(s[..|s| - 1])
  }

  lemma {:induction false} ReversedConcat(a: seq<nat>, b: seq<nat>, c: seq<nat>)
    ensures Reversed(a + b) + c == Reversed(b) + (Reversed(a) + c)
    decreases |b|
  {
    if b == [] {
      assert a + b == a;
      assert Reversed(b) + (Reversed(a) + c) == Reversed(a) + c;
    } else {
      assert (a + b)[..|a + b| - 1] == a + b[..|b| - 1];
      ReversedConcat(a, b[..|b| - 1], c);
      assert Reversed(a + b) + c == [b[|b| - 1]] + (Reversed(a + b[..|b| - 1]) + c);
      assert Reversed(b) + (Reversed(a) + c) == [b[|b| - 1]] + (Reversed(b[..|b| - 1]) + (Reversed(a) + c));
    }
  }

  lemma {:induction false} ReversedSame(s: seq<nat>)
    requires NoDup(s)
    ensures NoDup(Reversed(s)) && forall f: nat :: f in Reversed(s) <==> f in s
  {
    if s != [] {
      var front, x := s[..|s| - 1], s[|s| - 1];
      ReversedSame(front);
      assert s == front + [x];
      assert x !in front;
      assert forall f: nat :: f in Reversed(s) <==> f == x || f in Reversed(front);
    }
  }

  /** The frames below one entry are none of those freed before it, nor the table itself. */
  lemma Apart(mem: Mem, t: nat, level: nat, i: nat)
    requires level <= 3 && i < ENTRYSZ && NoDup(Pages(mem, t, level))
    ensures NoDup(Below(mem, t, level, i))
    ensures forall f: nat :: f in Below(mem, t, level, i) ==>
      f != t && f !in PagesTo(mem, t, level, i) && f in Pages(mem, t, level)
  {
    PagesPrefix(mem, t, level, i + 1, ENTRYSZ);
    var a, b, all := PagesTo(mem, t, level, i), Below(mem, t, level, i), Pages(mem, t, level);
    assert a + b <= all && all[|all| - 1] == t && |a| + |b| < |all|;
    PartsApart(a, b, all, t);
  }

  lemma PartsApart(a: seq<nat>, b: seq<nat>, all: seq<nat>, t: nat)
    requires NoDup(all) && a + b <= all && |a| + |b| < |all| && all[|all| - 1] == t
    ensures NoDup(b) && forall f: nat :: f in b ==> f != t && f !in a && f in all
  {
    assert forall x :: 0 <= x < |a| ==> a[x] == all[x];
    assert forall x :: 0 <= x < |b| ==> b[x] == all[|a| + x];
  }

  function PagesIn(sz: nat): nat {
    (sz + PGSIZE - 1) / PGSIZE
  }

  lemma OneSpan(x: nat)
    ensures Span(x * PGSIZE, PGSIZE) == 1 && x * PGSIZE / PGSIZE == x
  {
  }

  /** The frames taken from the free list so far. */
  function Taken(free0: seq<nat>, free: seq<nat>): seq<nat>
    requires |free| <= |free0|
  {
    free0[..|free0| - |free|]
  }

  /** Mapped pages are backed by frames that exist and are not free. */
  ghost predicate LeavesOk(mem: Mem, root: nat, free: seq<nat>) {
    forall q: nat :: Present(Ent(mem, root, 3, q)) ==>
      Ent(mem, root, 3, q).frame < |mem| && Ent(mem, root, 3, q).frame !in free
  }

  /** Page x of the child: a private frame with the parent's bytes and flags. */
  ghost predicate Copy(mem0: Mem, free0: seq<nat>, mem: Mem, free: seq<nat>, parent: nat, child: nat, x: nat)
    requires |free| <= |free0|
  {
    var w0, w := Ent(mem0, parent, 3, x), Ent(mem, child, 3, x);
    && Present(w0) && w0.frame < |mem0| && w.frame < |mem| && w.flags == w0.flags | PAGE_FLAGS
    && w.frame in Taken(free0, free) && !Table(mem, child, w.frame) && mem[w.frame] == mem0[w0.frame]
  }

  /** The child has copies of the parent's first n pages and nothing else; everything it uses was
      free before, and everything that was not free is unchanged. */
  ghost predicate Child(mem0: Mem, free0: seq<nat>, mem: Mem, free: seq<nat>, parent: nat, child: nat, n: nat) {
    && |mem| == |mem0| && |free| <= |free0| && free == free0[|free0| - |free|..] && FreeOk(mem0, free0)
    && Space(mem, child, free)
    && (forall f: nat :: f < |mem| && f !in Taken(free0, free) ==> mem[f] == mem0[f])
    && (forall k: nat, q: nat :: k <= 3 && Tab(mem, child, k, q).At? ==> Tab(mem, child, k, q).f in Taken(free0, free))
    && (forall x: nat :: x < n ==> Copy(mem0, free0, mem, free, parent, child, x))
    && (forall x: nat, y: nat :: x < y < n ==> Ent(mem, child, 3, x).frame != Ent(mem, child, 3, y).frame)
    && (forall x: nat :: n <= x ==> !Present(Ent(mem, child, 3, x)))
  }

  lemma TakenApart(free0: seq<nat>, free: seq<nat>, f: nat)
    requires NoDup(free0) && |free| <= |free0| && free == free0[|free0| - |free|..] && f in free
    ensures f !in Taken(free0, free) && f in free0
  {
    var i :| 0 <= i < |free| && free[i] == f;
    assert free0[|free0| - |free| + i] == f;
  }

  /** A page directory freshly zeroed maps nothing. */
  lemma {:induction false} EmptyTab(mem: Mem, root: nat, k: nat, q: nat)
    requires root < |mem| && mem[root] == ZeroPage() && k <= 4
    ensures k > 0 ==> Tab(mem, root, k, q) == Absent && Ent(mem, root, k - 1, q) == ZERO
    decreases k
  {
    FlagBits();
    if k > 0 { EmptyTab(mem, root, k - 1, q / ENTRYSZ); }
  }

  lemma ChildInit(mem0: Mem, free0: seq<nat>, mem: Mem, free: seq<nat>, parent: nat, child: nat)
    requires FreeOk(mem0, free0) && free0 == [child] + free && child < |mem0| && mem == mem0[child := ZeroPage()]
    ensures Child(mem0, free0, mem, free, parent, child, 0)
  {
    FlagBits();
    assert free0[0] == child && Taken(free0, free) == [child];
    forall k: nat, q: nat | k <= 3
      ensures Tab(mem, child, k, q) == (if k == 0 && q == 0 then At(child) else Absent) && Ent(mem, child, k, q) == ZERO
    {
      EmptyTab(mem, child, k, q);
      EmptyTab(mem, child, k + 1, q);
    }
    forall i | 0 <= i < |free| ensures free[i] == free0[i + 1] && free[i] != child {
    }
    assert FreeOk(mem, free) by {
      forall i, j | 0 <= i < j < |free| ensures free[i] != free[j] {
        assert free0[i + 1] != free0[j + 1];
      }
    }
  }

  /** The frame pg has been filled for page x and is not mapped yet. */
  ghost predicate Filled(mem0: Mem, free0: seq<nat>, mem: Mem, free: seq<nat>, parent: nat, child: nat, x: nat, pg: nat)
    requires |free| <= |free0|
  {
    var w0 := Ent(mem0, parent, 3, x);
    && Present(w0) && w0.frame < |mem0| && pg < |mem| && pg in Taken(free0, free) && !Table(mem, child, pg)
    && mem[pg] == mem0[w0.frame] && forall y: nat :: y < x ==> Ent(mem, child, 3, y).frame != pg
  }

  /** kalloc and memcpy: the child's tables and copies do not notice the new frame. */
  lemma CopyInto(mem0: Mem, free0: seq<nat>, mem1: Mem, free1: seq<nat>, mem: Mem, free: seq<nat>, parent: nat,
                 child: nat, x: nat, pg: nat)
    requires Child(mem0, free0, mem1, free1, parent, child, x) && free1 == [pg] + free && pg < |mem1|
    requires Present(Ent(mem0, parent, 3, x)) && Ent(mem0, parent, 3, x).frame < |mem0|
    requires mem == mem1[pg := mem0[Ent(mem0, parent, 3, x).frame]]
    ensures Child(mem0, free0, mem, free, parent, child, x)
    ensures Filled(mem0, free0, mem, free, parent, child, x, pg)
  {
    assert free1[0] == pg && pg in free1;
    TakenApart(free0, free1, pg);
    TakenGrows(free0, free1, free);
    assert Taken(free1, free) == [pg];
    FreeTail(mem1, pg, free);
    assert forall i :: 0 <= i < |free| ==> free[i] == free1[i + 1];
    SpaceFrame(mem1, mem, child, free1, free);
    assert !Table(mem, child, pg) && !Table(mem1, child, pg);
    forall y: nat | y < x ensures Copy(mem0, free0, mem, free, parent, child, y) && Ent(mem, child, 3, y).frame != pg {
      assert Copy(mem0, free0, mem1, free1, parent, child, y);
      assert Ent(mem, child, 3, y) == Ent(mem1, child, 3, y);
    }
  }

  lemma FreeTail(mem: Mem, f: nat, free: seq<nat>)
    requires FreeOk(mem, [f] + free)
    ensures FreeOk(mem, free)
  {
    assert forall i :: 0 <= i < |free| ==> free[i] == ([f] + free)[i + 1];
  }

  /** map_region of the filled frame: one more page of the child. */
  lemma CopyMapped(mem0: Mem, free0: seq<nat>, mem2: Mem, free2: seq<nat>, mem: Mem, free: seq<nat>, parent: nat,
                   child: nat, x: nat, pg: nat)
    requires Child(mem0, free0, mem2, free2, parent, child, x) && Grown(mem2, free2, mem, free, child)
    requires Filled(mem0, free0, mem2, free2, parent, child, x, pg) && Space(mem, child, free)
    requires forall q: nat :: q != x ==> Ent(mem, child, 3, q) == Ent(mem2, child, 3, q)
    requires Ent(mem, child, 3, x) == Word(pg, Ent(mem0, parent, 3, x).flags | PAGE_FLAGS)
    ensures Child(mem0, free0, mem, free, parent, child, x + 1)
  {
    TakenGrows(free0, free2, free);
    Untouched(mem0, free0, mem2, free2, mem, free, parent, child, x);
    forall y: nat | y < x + 1 ensures Copy(mem0, free0, mem, free, parent, child, y) {
      if y < x { assert Copy(mem0, free0, mem2, free2, parent, child, y); }
    }
  }

  /** Popping frames one after the other pops them in order. */
  lemma TakenGrows(free0: seq<nat>, free1: seq<nat>, free: seq<nat>)
    requires |free| <= |free1| <= |free0| && free1 == free0[|free0| - |free1|..] && free == free1[|free1| - |free|..]
    ensures free == free0[|free0| - |free|..]
    ensures Taken(free0, free) == Taken(free0, free1) + Taken(free1, free)
  {
    assert free0[|free0| - |free1|..][..|free1| - |free|] == free0[|free0| - |free1|..|free0| - |free|];
  }

  /** What map_region on the child may not have changed: the copies, and everything in use before. */
  lemma Untouched(mem0: Mem, free0: seq<nat>, mem2: Mem, free2: seq<nat>, mem: Mem, free: seq<nat>, parent: nat,
                  child: nat, x: nat)
    requires Child(mem0, free0, mem2, free2, parent, child, x) && Grown(mem2, free2, mem, free, child)
    ensures Taken(free0, free) == Taken(free0, free2) + Taken(free2, free)
    ensures forall f: nat :: f in Taken(free0, free2) && !Table(mem2, child, f) && f < |mem| ==>
      !Table(mem, child, f) && mem[f] == mem2[f]
    ensures forall k: nat, q: nat :: k <= 3 && Tab(mem, child, k, q).At? ==>
      Tab(mem, child, k, q).f in Taken(free0, free)
    ensures forall f: nat :: f < |mem| && f !in Taken(free0, free) ==> mem[f] == mem0[f]
  {
    TakenGrows(free0, free2, free);
    forall f: nat | f in Taken(free0, free2) ensures f !in Taken(free2, free) {
      TakenNotFree(free0, free2, f);
    }
    forall f: nat | f < |mem| && mem[f] != mem2[f] ensures f in Taken(free0, free) {
      assert Table(mem, child, f);
    }
  }

  lemma TakenNotFree(free0: seq<nat>, free: seq<nat>, f: nat)
    requires NoDup(free0) && |free| <= |free0| && free == free0[|free0| - |free|..] && f in Taken(free0, free)
    ensures f !in free
  {
    var i :| 0 <= i < |free0| - |free| && free0[i] == f;
    assert forall j :: 0 <= j < |free| ==> free[j] == free0[|free0| - |free| + j] != f;
  }

  ghost predicate Unmapped(mem: Mem, root: nat, first: nat, k: nat) {
    forall q: nat :: first <= q < first + k ==> !Present(Ent(mem, root, 3, q))
  }

  /** Page q's descriptor after map_region has mapped k pages from page first on. */
  function Mapped(before: Word, q: nat, first: nat, k: nat, frame: nat, perm: bv12): Word {
    if first <= q < first + k then Word(frame + (q - first), perm | PAGE_FLAGS) else before
  }

  ghost predicate Region(mem0: Mem, mem: Mem, root: nat, first: nat, k: nat, frame: nat, perm: bv12) {
    forall q: nat :: Ent(mem, root, 3, q) == Mapped(Ent(mem0, root, 3, q), q, first, k, frame, perm)
  }

  lemma RegionFields(mem0: Mem, mem: Mem, root: nat, first: nat, k: nat, frame: nat, perm: bv12)
    requires Region(mem0, mem, root, first, k, frame, perm)
    ensures forall q: nat :: first <= q < first + k ==> PageFields(Ent(mem, root, 3, q), perm)
  {
    forall q: nat | first <= q < first + k ensures PageFields(Ent(mem, root, 3, q), perm) {
      PageFlagFields(frame + (q - first), perm);
    }
  }

  lemma RegionStep(mem0: Mem, mem1: Mem, mem: Mem, root: nat, first: nat, k: nat, frame: nat, perm: bv12, r: int)
    requires Region(mem0, mem1, root, first, k, frame, perm)
    requires forall q: nat ::
      Ent(mem, root, 3, q)
        == if r == MAPPED && q == first + k then Word(frame + k, perm | PAGE_FLAGS) else Ent(mem1, root, 3, q)
    ensures Region(mem0, mem, root, first, if r == MAPPED then k + 1 else k, frame, perm)
  {
    forall q: nat
      ensures Ent(mem, root, 3, q)
        == Mapped(Ent(mem0, root, 3, q), q, first, if r == MAPPED then k + 1 else k, frame, perm)
    {
      MappedNext(Ent(mem0, root, 3, q), Ent(mem1, root, 3, q), Ent(mem, root, 3, q), q, first, k, frame, perm, r);
    }
  }

  lemma MappedNext(w0: Word, w1: Word, w: Word, q: nat, first: nat, k: nat, frame: nat, perm: bv12, r: int)
    requires w1 == Mapped(w0, q, first, k, frame, perm)
    requires w == if r == MAPPED && q == first + k then Word(frame + k, perm | PAGE_FLAGS) else w1
    ensures w == Mapped(w0, q, first, if r == MAPPED then k + 1 else k, frame, perm)
  {
  }

  lemma UnmappedNext(mem0: Mem, mem1: Mem, root: nat, first: nat, k: nat, frame: nat, perm: bv12)
    requires Region(mem0, mem1, root, first, k, frame, perm) && Unmapped(mem0, root, first, k)
    ensures Ent(mem1, root, 3, first + k) == Ent(mem0, root, 3, first + k)
    ensures !Present(Ent(mem1, root, 3, first + k)) ==> Unmapped(mem0, root, first, k + 1)
  {
  }

  /** A copied page has the parent's flags exactly when those have what map_region always sets, as the
      flags of every page that map_region mapped do. */
  lemma CopiedFlags(mem0: Mem, free0: seq<nat>, mem: Mem, free: seq<nat>, parent: nat, child: nat, n: nat, x: nat,
                    perm: bv12)
    requires Child(mem0, free0, mem, free, parent, child, n) && x < n
    ensures Ent(mem, child, 3, x).flags == Ent(mem0, parent, 3, x).flags <==>
      Ent(mem0, parent, 3, x).flags | PAGE_FLAGS == Ent(mem0, parent, 3, x).flags
    ensures Ent(mem0, parent, 3, x).flags == perm | PAGE_FLAGS ==>
      Ent(mem, child, 3, x).flags == Ent(mem0, parent, 3, x).flags
  {
    assert Copy(mem0, free0, mem, free, parent, child, x);
    Absorbs(perm);
  }

  lemma Absorbs(perm: bv12)
    ensures (perm | PAGE_FLAGS) | PAGE_FLAGS == perm | PAGE_FLAGS
  {
  }

  /** How many pages map_region visits. */
  function Span(va: nat, size: nat): nat {
    (va + size + PGSIZE - 1) / PGSIZE - va / PGSIZE
  }

  lemma SpanStep(va: nat, size: nat, first: nat, k: nat, v: nat, pa: nat)
    requires first == va / PGSIZE && v == (first + k) * PGSIZE < va + size <= VPNS * PGSIZE
    ensures k + 1 <= Span(va, size) && first + k < VPNS && (pa + k * PGSIZE) / PGSIZE == pa / PGSIZE + k
  {
  }

  lemma SpanEnd(va: nat, size: nat, first: nat, k: nat)
    requires first == va / PGSIZE && va + size <= (first + k) * PGSIZE && k <= Span(va, size)
    ensures k == Span(va, size)
  {
  }

  lemma {:induction false} NoneBelow(mem: Mem, root: nat, vpn: nat, l: nat)
    requires l <= 3 && Tab(mem, root, l, Pre(vpn, l)) == Absent
    ensures Tab(mem, root, 3, Pre(vpn, 3)) == Absent
    decreases 3 - l
  {
    if l < 3 {
      assert Pre(vpn, l) == Pre(vpn, l + 1) / ENTRYSZ;
      assert Ent(mem, root, l, Pre(vpn, l + 1)) == ZERO;
      FlagBits();
      NoneBelow(mem, root, vpn, l + 1);
    }
  }
}
