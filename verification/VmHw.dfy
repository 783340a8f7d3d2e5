/** What the memory management unit makes of the tables that kern/vm.c writes. */
module VmHw {
  import opened Common
  import opened VmSpec
  import opened Vm

  /** The table index that the unit takes from an address at level l. */
  function Index(va: nat, l: nat): nat
    requires l <= 3
  {
    match l
    case 0 => va / 0x80_0000_0000 % 512
    case 1 => va / 0x4000_0000 % 512
    case 2 => va / 0x20_0000 % 512
    case _ => va / 0x1000 % 512
  }

  /** The unit's walk from table t at level l: a descriptor above the last level must be valid and a table. */
  function Lookup(mem: Mem, t: nat, l: nat, va: nat): Option<Word>
    requires l <= 3
    decreases 3 - l
  {
    if t >= |mem| then None
    else
      var w := mem[t][Index(va, l)];
      if l == 3 then Some(w)
      else if w.flags & 0x003 == 0x003 then Lookup(mem, w.frame, l + 1, va)
      else None
  }

  /** Translation of an address: the last descriptor must be valid, a page, and have its access flag set. */
  function Translate(mem: Mem, root: nat, va: nat): Option<nat> {
    var r := Lookup(mem, root, 0, va);
    if r.Some? && r.value.flags & 0x403 == 0x403 then Some(r.value.frame * 4096 + va % 4096) else None
  }

  lemma TableBits(w: Word)
    ensures Present(w) && IsTable(w) <==> w.flags & 0x003 == 0x003
  {
  }

  lemma PageBits(w: Word, perm: bv12)
    requires PageFields(w, perm)
    ensures Present(w) && w.flags & 0x403 == 0x403
  {
  }

  /** The unit comes to the descriptor that the kernel's walk comes to. */
  lemma {:induction false} LookupIs(mem: Mem, root: nat, t: nat, l: nat, va: nat)
    requires Tree(mem, root) && va < VPNS * PGSIZE && l <= 3 && Tab(mem, root, l, Pre(va / PGSIZE, l)) == At(t)
    ensures var r, w := Lookup(mem, t, l, va), Ent(mem, root, 3, va / PGSIZE); r == Some(w) || (r == None && w == ZERO)
    decreases 3 - l
  {
    var vpn := va / PGSIZE;
    PtxIsMacro(va);
    var p := Pre(vpn, l + 1);
    assert Pre(vpn, l) == p / ENTRYSZ && Index(va, l) == p % ENTRYSZ;
    var w := mem[t][p % ENTRYSZ];
    assert Ent(mem, root, l, p) == w;
    TableBits(w);
    if l < 3 {
      if Present(w) {
        LookupIs(mem, root, w.frame, l + 1, va);
      } else {
        NoneBelow(mem, root, vpn, l + 1);
      }
    }
  }

  /** What the unit translates, from the page's descriptor. */
  function ByDescriptor(w: Word, va: nat): Option<nat> {
    if w.flags & 0x403 == 0x403 then Some(w.frame * PGSIZE + va % PGSIZE) else None
  }

  lemma TranslateIs(mem: Mem, root: nat, va: nat)
    requires Tree(mem, root) && va < VPNS * PGSIZE
    ensures Translate(mem, root, va) == ByDescriptor(Ent(mem, root, 3, va / PGSIZE), va)
  {
    RootPrefix(va / PGSIZE);
    LookupIs(mem, root, root, 0, va);
  }

  /** The addresses of the pages that map_region visits. */
  predicate Visited(x: nat, va: nat, size: nat) {
    va / PGSIZE <= x / PGSIZE < va / PGSIZE + Span(va, size)
  }

  lemma VisitedAddresses(x: nat, va: nat, size: nat)
    ensures va / PGSIZE * PGSIZE <= x < va + size ==> Visited(x, va, size)
    ensures x < va / PGSIZE * PGSIZE || va + size + PGSIZE <= x ==> !Visited(x, va, size)
  {
  }

  /** map_region as the unit sees it: on success every address of the region, from the start of its first
      page, goes to its place behind pa's page; every address outside goes where it went, or nowhere as
      before. */
  method MapTranslates(m: Memory, root: nat, va: nat, size: nat, pa: nat, perm: bv12) returns (r: int)
    requires Space(m.mem, root, m.free) && va + size <= VPNS * PGSIZE
    modifies m
    ensures Space(m.mem, root, m.free)
    ensures r == MAPPED ==> forall x: nat :: x < VPNS * PGSIZE ==>
      Translate(m.mem, root, x)
        == if Visited(x, va, size) then Some(pa / PGSIZE * PGSIZE + (x - va / PGSIZE * PGSIZE))
           else Translate(old(m.mem), root, x)
    ensures r == MAPPED ==> Unmapped(old(m.mem), root, va / PGSIZE, Span(va, size))
    ensures r == CLASH ==> !Unmapped(old(m.mem), root, va / PGSIZE, Span(va, size))
  {
    var k;
    r, k := m.MapRegion(root, va, size, pa, perm);
    if r == MAPPED {
      forall x: nat | x < VPNS * PGSIZE
        ensures Translate(m.mem, root, x)
          == if Visited(x, va, size) then Some(pa / PGSIZE * PGSIZE + (x - va / PGSIZE * PGSIZE))
             else Translate(old(m.mem), root, x)
      {
        AddressMapped(old(m.mem), m.mem, root, va, size, pa, perm, x);
      }
    }
  }

  lemma AddressMapped(mem0: Mem, mem: Mem, root: nat, va: nat, size: nat, pa: nat, perm: bv12, x: nat)
    requires Tree(mem0, root) && Tree(mem, root) && x < VPNS * PGSIZE
    requires Region(mem0, mem, root, va / PGSIZE, Span(va, size), pa / PGSIZE, perm)
    ensures Translate(mem, root, x)
      == if Visited(x, va, size) then Some(pa / PGSIZE * PGSIZE + (x - va / PGSIZE * PGSIZE))
         else Translate(mem0, root, x)
  {
    var q := x / PGSIZE;
    TranslateIs(mem, root, x);
    TranslateIs(mem0, root, x);
    if Visited(x, va, size) {
      PageFlagFields(pa / PGSIZE + (q - va / PGSIZE), perm);
      PageBits(Ent(mem, root, 3, q), perm);
    }
  }

  /** A page that map_region mapped cannot be mapped again. */
  method MapTwice(m: Memory, root: nat, va: nat, size: nat, pa: nat, perm: bv12, x: nat, pa2: nat, perm2: bv12)
    returns (r: int, r2: int)
    requires Space(m.mem, root, m.free) && va + size <= VPNS * PGSIZE && x < VPNS * PGSIZE && Visited(x, va, size)
    modifies m
    ensures r == MAPPED ==> r2 == CLASH
  {
    var k;
    r, k := m.MapRegion(root, va, size, pa, perm);
    r2 := r;
    if r == MAPPED {
      PageBits(Ent(m.mem, root, 3, x / PGSIZE), perm);
      WithinPage(x);
      r2, k := m.MapRegion(root, x / PGSIZE * PGSIZE, PGSIZE, pa2, perm2);
    }
  }

  lemma WithinPage(x: nat)
    requires x < VPNS * PGSIZE
    ensures x / PGSIZE * PGSIZE + PGSIZE <= VPNS * PGSIZE
    ensures x / PGSIZE * PGSIZE / PGSIZE == x / PGSIZE && Span(x / PGSIZE * PGSIZE, PGSIZE) == 1
  {
  }
}
