/** Page faults on anonymous regions and below stacks: all steps with their undo sequences. */
module VmFault {
  import opened Wrappers
  import opened VmTree
  import opened VmPages
  import opened Rmap
  import opened VmMove
  import opened VmContract
  import opened VmRegion
  import opened VmState
  import opened VmCarve
  import opened VmSpace

  datatype Action = Resolved | StackGrew | Oom | Killed

  /** Which of the fallible steps succeed. */
  datatype Luck = Luck(frame: bool, pin: bool, table: bool, slots: bool, link: bool, metadata: bool)

  /** What lies outside the address space: translations, and the frames handed out with their pins. */
  class Machine {
    var dat: map<nat, nat>
    var pins: map<nat, nat>

    /** pmm::alloc of one page, and frame_ref */
    method Obtain(f: nat, luck: Luck) returns (ok: bool)
      requires f !in pins
      modifies this`pins
      ensures ok <==> luck.frame && luck.pin
      ensures pins == if ok then old(pins)[f := 1] else old(pins)
    {
      if !luck.frame {
        return false;
      }
      pins := pins[f := 0];
      if !luck.pin {
        pins := pins - {f};
        return false;
      }
      pins := pins[f := pins[f] + 1];
      return true;
    }

    /** frame_unref, and pmm::free */
    method GiveBack(f: nat)
      requires f in pins && pins[f] == 1
      modifies this`pins
      ensures pins == old(pins) - {f}
    {
      pins := pins[f := pins[f] - 1];
      pins := pins - {f};
    }

    /** map_page fails on a page that is mapped, or for want of a table. */
    method MapPage(page: nat, f: nat, luck: Luck) returns (ok: bool)
      modifies this`dat
      ensures ok <==> luck.table && page !in old(dat)
      ensures dat == if ok then old(dat)[page := f] else old(dat)
    {
      if page in dat || !luck.table {
        return false;
      }
      dat := dat[page := f];
      return true;
    }

    method UnmapPage(page: nat)
      modifies this`dat
      ensures dat == old(dat) - {page}
    {
      dat := dat - {page};
    }
  }

  // ---- a page put into a region --------------------------------------------------------------------

  /** No page of the region is at va. */
  ghost predicate Vacant(pm: PageMap, va: nat) {
    forall e | e in Entries(pm) :: e.va != va
  }

  /** r with page s in slot i of pages pm, and counted. */
  function WithPage(r: Region, pm: PageMap, i: nat, s: Slot): Region
    requires i < |pm.slots|
  {
    r.(pages := pm.(slots := pm.slots[i := s]), committed := r.committed + 1, resident := r.resident + 1)
  }

  lemma WithPageOk(r: Region, pm: PageMap, i: nat, s: Slot)
    requires RegionOk(r) && Reserved(r.pages, pm, s.va, i) && |pm.slots| < MAX_U32 && s.state != Empty
    requires IsPageAligned(s.va) && r.start <= s.va < r.end && Vacant(r.pages, s.va)
    ensures i < |pm.slots| && RegionOk(WithPage(r, pm, i, s))
    ensures Entries(WithPage(r, pm, i, s).pages) == Entries(r.pages) + {s}
  {
    ReservedBlank(r.pages, pm, s.va, i);
    Fill(pm, i, s);
    CommittedMore(Entries(r.pages), s);
    hide Entries;
  }

  lemma ReservedBlank(pm: PageMap, pm': PageMap, va: nat, i: nat)
    requires Reserved(pm, pm', va, i) && Vacant(pm, va)
    ensures i < pm'.count <= |pm'.slots| && pm'.slots[i].state == Empty && Ok(pm') && Entries(pm') == Entries(pm)
  {
    if pm'.slots[i].state != Empty {
      EntriesHave(pm', i);
    }
  }

  lemma ReservedExact(chains: Chains, id: nat, pm: PageMap, pm': PageMap, va: nat, i: nat)
    requires Exact(chains, id, pm) && Reserved(pm, pm', va, i)
    ensures Exact(chains, id, pm')
  {
    forall f: nat, k: nat {:trigger Linked(chains, f, Ref(id, k))}
      ensures Linked(chains, f, Ref(id, k)) <==> Wants(pm', k, f)
    {
      assert Wants(pm, k, f) <==> Wants(pm', k, f);
    }
  }

  /** A blank slot that was reserved and given up again changes nothing that matters. */
  lemma ReservedOk(r: Region, pm: PageMap, va: nat, i: nat)
    requires RegionOk(r) && Reserved(r.pages, pm, va, i) && |pm.slots| < MAX_U32 && Vacant(r.pages, va)
    ensures i < |pm.slots| && RegionOk(r.(pages := GivenUp(pm, i))) && Entries(GivenUp(pm, i)) == Entries(r.pages)
  {
    ReservedBlank(r.pages, pm, va, i);
    GiveUp(pm, i);
    hide Entries, Ok;
  }

  /** slot->clear() */
  function GivenUp(pm: PageMap, i: nat): PageMap
    requires i < |pm.slots|
  {
    pm.(slots := pm.slots[i := BLANK])
  }

  lemma GiveUp(pm: PageMap, i: nat)
    requires Ok(pm) && i < pm.count && pm.slots[i].state == Empty
    ensures Ok(GivenUp(pm, i)) && Entries(GivenUp(pm, i)) == Entries(pm)
  {
    var pm' := GivenUp(pm, i);
    forall e | e in Entries(pm) ensures e in Entries(pm') {
      var k :| 0 <= k < pm.count && pm.slots[k].state != Empty && pm.slots[k] == e;
      assert pm'.slots[k] == e;
    }
    forall e | e in Entries(pm') ensures e in Entries(pm) {
      var k :| 0 <= k < pm'.count && pm'.slots[k].state != Empty && pm'.slots[k] == e;
      assert pm.slots[k] == e;
    }
  }

  lemma GivenUpExact(chains: Chains, id: nat, pm: PageMap, i: nat)
    requires Exact(chains, id, pm) && i < pm.count <= |pm.slots| && pm.slots[i].state == Empty
    ensures Exact(chains, id, GivenUp(pm, i))
  {
    forall f: nat, k: nat {:trigger Linked(chains, f, Ref(id, k))}
      ensures Linked(chains, f, Ref(id, k)) <==> Wants(GivenUp(pm, i), k, f)
    {
      assert Wants(pm, k, f) <==> Wants(GivenUp(pm, i), k, f);
    }
  }

  lemma FilledExact(chains: Chains, chains': Chains, id: nat, pm: PageMap, i: nat, s: Slot)
    requires Exact(chains, id, pm) && i < pm.count <= |pm.slots| && pm.slots[i].state == Empty
    requires s.state != Empty && s.state != Portal && s.phys != 0 && LinkedMore(chains, chains', s.phys, Ref(id, i))
    ensures Exact(chains', id, pm.(slots := pm.slots[i := s])) && OthersSame(chains, chains', id, id)
  {
    var pm' := pm.(slots := pm.slots[i := s]);
    forall f: nat, k: nat {:trigger Linked(chains', f, Ref(id, k))}
      ensures Linked(chains', f, Ref(id, k)) <==> Wants(pm', k, f)
    {
      assert Linked(chains, f, Ref(id, k)) <==> Wants(pm, k, f);
      assert Ref(id, k) == Ref(id, i) <==> k == i;
    }
  }

  /** Linking a blank slot and unlinking it again. */
  lemma LinkedAndBack(c0: Chains, c1: Chains, c2: Chains, id: nat, pm: PageMap, i: nat, f: nat)
    requires Exact(c0, id, pm) && i < pm.count <= |pm.slots| && pm.slots[i].state == Empty
    requires LinkedMore(c0, c1, f, Ref(id, i)) && LinkedLess(c1, c2, f, Ref(id, i))
    ensures Exact(c2, id, pm) && OthersSame(c0, c2, id, id)
  {
    forall g: nat, k: nat {:trigger Linked(c2, g, Ref(id, k))} ensures Linked(c2, g, Ref(id, k)) <==> Wants(pm, k, g) {
      assert Linked(c1, g, Ref(id, k)) <==> Linked(c0, g, Ref(id, k)) || (g == f && k == i);
      assert Linked(c0, g, Ref(id, k)) <==> Wants(pm, k, g);
    }
    forall g: nat, x: Ref {:trigger Linked(c2, g, x)} | x.region != id ensures Linked(c2, g, x) <==> Linked(c0, g, x) {
      assert Linked(c1, g, x) <==> Linked(c0, g, x);
    }
  }

  /** The regions but for one, which holds page p as well; or the same pages as before, if p is none. */
  ghost predicate PageAdded(before: Regions, regions: Regions, id: nat, p: Slot) {
    && id in before && id in regions && regions == before[id := regions[id]]
    && regions[id] == before[id].(pages := regions[id].pages, committed := before[id].committed + 1,
        resident := before[id].resident + 1)
    && Entries(regions[id].pages) == Entries(before[id].pages) + {p} && p !in Entries(before[id].pages)
  }

  lemma InstallDone(order: seq<nat>, regions: Regions, chains: Chains, chains': Chains, id: nat, pm: PageMap, i: nat,
                    p: Slot)
    requires SpaceOk(order, regions, chains) && id in regions && Reserved(regions[id].pages, pm, p.va, i)
    requires |pm.slots| < MAX_U32
    requires p.state == Resident || p.state == Cow
    requires IsPageAligned(p.va) && regions[id].start <= p.va < regions[id].end && Vacant(regions[id].pages, p.va)
    requires p.phys != 0 && LinkedMore(chains, chains', p.phys, Ref(id, i))
    ensures i < |pm.slots|
    ensures var regions' := regions[id := WithPage(regions[id], pm, i, p)];
            && SpaceOk(order, regions', chains') && PageAdded(regions, regions', id, p)
            && Knows(order, regions) && Knows(order, regions')
            && Total(order, regions') == Plus(Total(order, regions), Totals(0, 1, 1))
  {
    hide *;
    var r := regions[id];
    OkOf(order, regions, chains, id);
    WithPageOk(r, pm, i, p);
    ReservedBlank(r.pages, pm, p.va, i);
    ReservedExact(chains, id, r.pages, pm, p.va, i);
    FilledExact(chains, chains', id, pm, i, p);
    WithPageIs(r, pm, i, p);
    UpdateKeeps(order, regions, chains, chains', id, WithPage(r, pm, i, p));
    IsPageAdded(regions, id, pm, i, p);
    PlusCancel(Total(order, regions[id := WithPage(r, pm, i, p)]), Of(r), Total(order, regions),
        Of(WithPage(r, pm, i, p)), Totals(0, 1, 1));
  }

  lemma WithPageIs(r: Region, pm: PageMap, i: nat, p: Slot)
    requires i < |pm.slots|
    ensures var r' := WithPage(r, pm, i, p);
            && r'.start == r.start && r'.end == r.end && r'.pages == pm.(slots := pm.slots[i := p])
            && Of(r') == Plus(Of(r), Totals(0, 1, 1))
  {
  }

  lemma IsPageAdded(regions: Regions, id: nat, pm: PageMap, i: nat, p: Slot)
    requires id in regions && i < |pm.slots|
    requires Entries(WithPage(regions[id], pm, i, p).pages) == Entries(regions[id].pages) + {p}
    requires Vacant(regions[id].pages, p.va)
    ensures PageAdded(regions, regions[id := WithPage(regions[id], pm, i, p)], id, p)
  {
  }

  lemma PlusCancel(x: Totals, a: Totals, y: Totals, b: Totals, d: Totals)
    requires Plus(x, a) == Plus(y, b) && b == Plus(a, d)
    ensures x == Plus(y, d)
  {
  }

  lemma InstallUndone(order: seq<nat>, regions: Regions, chains: Chains, chains': Chains, id: nat, pm: PageMap,
                      va: nat, i: nat)
    requires SpaceOk(order, regions, chains) && id in regions && Reserved(regions[id].pages, pm, va, i)
    requires |pm.slots| < MAX_U32
    requires Vacant(regions[id].pages, va)
    requires OthersSame(chains, chains', id, id) && Exact(chains', id, pm)
    ensures i < |pm.slots|
    ensures var regions' := regions[id := regions[id].(pages := GivenUp(pm, i))];
            && SpaceOk(order, regions', chains') && SameRegions(regions, regions')
            && Knows(order, regions) && Knows(order, regions') && Total(order, regions') == Total(order, regions)
  {
    hide *;
    var r := regions[id];
    OkOf(order, regions, chains, id);
    ReservedOk(r, pm, va, i);
    ReservedBlank(r.pages, pm, va, i);
    GivenUpExact(chains', id, pm, i);
    var r' := r.(pages := GivenUp(pm, i));
    UpdateKeeps(order, regions, chains, chains', id, r');
    SameRegionsView(regions, id, GivenUp(pm, i));
    SameOf(r, GivenUp(pm, i));
    PlusCancel(Total(order, regions[id := r']), Of(r), Total(order, regions), Of(r'), Totals(0, 0, 0));
  }

  lemma SameOf(r: Region, pm: PageMap)
    ensures Of(r.(pages := pm)) == Plus(Of(r), Totals(0, 0, 0)) && forall t :: Plus(t, Totals(0, 0, 0)) == t
  {
  }

  /** Nothing stands in the way of one more page: the slot array can grow, and link and metadata can be had. */
  predicate Ample(r: Region, luck: Luck) {
    r.pages.count < MAX_U32 / 2 && luck.slots && luck.link && luck.metadata
  }

  lemma AmpleIs(r: Region, luck: Luck)
    ensures Ample(r, luck) <==> r.pages.count < MAX_U32 / 2 && luck.slots && luck.link && luck.metadata
  {
  }

  /** A blank slot linked to frame f, and the metadata of f set; without metadata the link goes again. */
  method LinkPage(rmap: ReverseMap, id: nat, pm: PageMap, i: nat, f: nat, luck: Luck) returns (ok: bool)
    requires rmap.Valid() && Exact(rmap.chains, id, pm) && i < pm.count <= |pm.slots| && pm.slots[i].state == Empty
    modifies rmap
    ensures rmap.Valid() && (ok <==> 0 < f < rmap.limit && luck.link && luck.metadata)
    ensures ok ==> LinkedMore(old(rmap.chains), rmap.chains, f, Ref(id, i))
    ensures !ok ==> OthersSame(old(rmap.chains), rmap.chains, id, id) && Exact(rmap.chains, id, pm)
  {
    hide *;
    ghost var before := rmap.chains;
    OthersRefl(before, id, id);
    ok := rmap.Insert(Ref(id, i), f, luck.link);
    if ok && !luck.metadata {
      ghost var between := rmap.chains;
      rmap.Remove(Ref(id, i), f);
      LinkedAndBack(before, between, rmap.chains, id, pm, i, f);
      ok := false;
    }
  }

  /** The end of both fault paths: slot, reverse map, metadata, counters; undone as far as it got on failure. */
  method Install(s: Space, id: nat, p: Slot, luck: Luck) returns (ok: bool)
    requires s.rmap.Valid() && SpaceOk(InOrder(s.tree), s.regions, s.rmap.chains) && Knows(InOrder(s.tree), s.regions)
    requires id in s.regions && (p.state == Resident || p.state == Cow) && p.phys != 0
    requires IsPageAligned(p.va) && s.regions[id].start <= p.va < s.regions[id].end
    requires Vacant(s.regions[id].pages, p.va)
    modifies s`regions, s.rmap
    ensures s.rmap.Valid() && SpaceOk(InOrder(s.tree), s.regions, s.rmap.chains) && Knows(InOrder(s.tree), s.regions)
    ensures id in s.regions
    ensures ok ==>
              && PageAdded(old(s.regions), s.regions, id, p)
              && Total(InOrder(s.tree), s.regions) == Plus(Total(InOrder(s.tree), old(s.regions)), Totals(0, 1, 1))
    ensures ok ==> luck.link && luck.metadata && p.phys < s.rmap.limit
    ensures Ample(old(s.regions)[id], luck) && p.phys < s.rmap.limit ==> ok
    ensures !ok ==>
              && SameRegions(old(s.regions), s.regions) && s.regions == old(s.regions)[id := s.regions[id]]
              && Total(InOrder(s.tree), s.regions) == Total(InOrder(s.tree), old(s.regions))
  {
    AmpleIs(s.regions[id], luck);
    hide *;
    ghost var order, before := InOrder(s.tree), s.rmap.chains;
    var r := s.regions[id];
    OkOf(order, s.regions, before, id);
    SameRegionsRefl(s.regions);
    OthersRefl(before, id, id);
    var pm, place := ReservePage(r.pages, p.va, luck.slots);
    if place.None? {
      return false;
    }
    var i := place.value;
    ReservedExact(before, id, r.pages, pm, p.va, i);
    ReservedBlank(r.pages, pm, p.va, i);
    ok := LinkPage(s.rmap, id, pm, i, p.phys, luck);
    if !ok {
      InstallUndone(order, s.regions, before, s.rmap.chains, id, pm, p.va, i);
      s.regions := s.regions[id := r.(pages := GivenUp(pm, i))];
      return;
    }
    InstallDone(order, s.regions, before, s.rmap.chains, id, pm, i, p);
    s.regions := s.regions[id := WithPage(r, pm, i, p)];
  }

  /** The anonymous path of handle_page_fault, on a page that has no slot yet. */
  method AnonymousFault(s: Space, m: Machine, id: nat, page: nat, write: bool, f: nat, luck: Luck) returns (a: Action)
    requires s.Valid() && id in s.regions && f != 0 && f !in m.pins
    requires IsPageAligned(page) && s.regions[id].start <= page < s.regions[id].end
    requires Vacant(s.regions[id].pages, page)
    modifies s`regions, s`totalCommitted, s`totalResident, s.rmap, m
    ensures s.Valid() && (a == Resolved || a == Oom || a == Killed)
    ensures a != Resolved ==>
              && SameRegions(old(s.regions), s.regions) && m.dat == old(m.dat) && m.pins == old(m.pins)
              && s.totalCommitted == old(s.totalCommitted) && s.totalResident == old(s.totalResident)
    ensures a == Resolved ==> luck.frame && luck.pin && luck.table && luck.link && luck.metadata && f < s.rmap.limit
    ensures a == Killed
       <==> old(s.totalCommitted) < s.commitLimit && luck.frame && luck.pin && !(luck.table && page !in old(m.dat))
    ensures a == Oom ==>
              !(old(s.totalCommitted) < s.commitLimit && luck.frame && luck.pin && Ample(old(s.regions)[id], luck)
                  && f < s.rmap.limit)
    ensures a == Resolved ==>
              && PageAdded(old(s.regions), s.regions, id, FaultSlot(old(s.regions)[id], page, f, write))
              && m.dat == old(m.dat)[page := f] && page !in old(m.dat) && m.pins == old(m.pins)[f := 1]
              && s.totalCommitted == old(s.totalCommitted) + 1 && s.totalResident == old(s.totalResident) + 1
  {
    hide *;
    SameRegionsRefl(s.regions);
    AdmitsIs(s.totalCommitted, s.commitLimit, 1);
    if !Admits(s.totalCommitted, s.commitLimit, 1) {
      return Oom;
    }
    var ok := m.Obtain(f, luck);
    if !ok {
      return Oom;
    }
    ok := m.MapPage(page, f, luck);
    if !ok {
      m.GiveBack(f);
      PutBack(old(m.pins), f, 1);
      return Killed;
    }
    s.Parts();
    var p := FaultSlot(s.regions[id], page, f, write);
    FaultSlotIs(s.regions[id], page, f, write);
    ok := Install(s, id, p, luck);
    if !ok {
      m.UnmapPage(page);
      m.GiveBack(f);
      PutBack(old(m.pins), f, 1);
      PutBack(old(m.dat), page, f);
      s.Whole();
      return Oom;
    }
    PlusPage(Total(InOrder(s.tree), old(s.regions)));
    s.totalResident := s.totalResident + 1;
    s.totalCommitted := s.totalCommitted + 1;
    s.Whole();
    return Resolved;
  }

  /** The slot of a page just faulted in: shared for copy-on-write until it is written to. */
  function FaultSlot(r: Region, page: nat, f: nat, write: bool): Slot {
    Slot(page, f, if !write && (r.attrs.flags.cow || r.attrs.flags.sharedRead) then Cow else Resident, 0)
  }

  lemma FaultSlotIs(r: Region, page: nat, f: nat, write: bool)
    ensures var p := FaultSlot(r, page, f, write);
            p.va == page && p.phys == f && (p.state == Resident || p.state == Cow)
  {
  }

  lemma PutBack(m: map<nat, nat>, k: nat, v: nat)
    requires k !in m
    ensures m[k := v] - {k} == m
  {
  }

  lemma PlusPage(t: Totals)
    ensures Plus(t, Totals(0, 1, 1)) == Totals(t.mapped, t.committed + 1, t.resident + 1)
  {
  }
}
