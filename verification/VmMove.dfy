/** Page slots and their reverse-map links on the move between two regions. */
module VmMove {
  import opened Wrappers
  import opened VmTree
  import opened VmPages
  import opened Rmap

  /** Pages that count as committed. */
  predicate Commits(s: Slot) {
    s.state == Resident || s.state == Cow || s.state == Ipc
  }

  ghost function Committed(es: set<Slot>): set<Slot> {
    set s | s in es && Commits(s)
  }

  lemma CommittedMore(es: set<Slot>, s: Slot)
    requires s !in es
    ensures |Committed(es + {s})| == |Committed(es)| + if Commits(s) then 1 else 0
    ensures |es + {s}| == |es| + 1
  {
    assert Committed(es + {s}) == if Commits(s) then Committed(es) + {s} else Committed(es);
  }

  /** Two regions, between them the pages of es, each in one of them, with exact links. */
  ghost predicate Sharing(chains: Chains, a: nat, pa: PageMap, b: nat, pb: PageMap, es: set<Slot>) {
    && a != b && Ok(pa) && Ok(pb)
    && Entries(pa) + Entries(pb) == es && Entries(pa) !! Entries(pb)
    && (forall s, t | s in es && t in es && s.va == t.va :: s == t)
    && Exact(chains, a, pa) && Exact(chains, b, pb)
  }

  lemma MoveReserved(chains: Chains, a: nat, pa: PageMap, b: nat, pb: PageMap, pb1: PageMap, es: set<Slot>, va: nat,
                     j: nat)
    requires Sharing(chains, a, pa, b, pb, es) && Reserved(pb, pb1, va, j)
    ensures Sharing(chains, a, pa, b, pb1, es)
  {
    forall f: nat, i: nat {:trigger Linked(chains, f, Ref(b, i))}
      ensures Linked(chains, f, Ref(b, i)) <==> Wants(pb1, i, f) {
      assert Wants(pb, i, f) <==> Wants(pb1, i, f);
    }
  }

  lemma MovePages(chains: Chains, a: nat, pa: PageMap, b: nat, pb: PageMap, es: set<Slot>, i: nat, j: nat)
    requires Sharing(chains, a, pa, b, pb, es) && i < pa.count && pa.slots[i].state != Empty
    requires j < pb.count && pb.slots[j].state == Empty
    ensures var s, pa', pb' := pa.slots[i], pa.(slots := pa.slots[i := BLANK]),
        pb.(slots := pb.slots[j := pa.slots[i]]);
            && Ok(pa') && Ok(pb') && Entries(pa') == Entries(pa) - {s} && Entries(pb') == Entries(pb) + {s}
            && s in Entries(pa) && s !in Entries(pb)
            && Entries(pa') + Entries(pb') == es && Entries(pa') !! Entries(pb')
  {
    EntriesHave(pa, i);
    Clear(pa, i);
    Fill(pb, j, pa.slots[i]);
  }

  lemma MoveLink(chains: Chains, chains': Chains, a: nat, pa: PageMap, b: nat, pb: PageMap, i: nat, j: nat)
    requires a != b && Exact(chains, a, pa) && Exact(chains, b, pb)
    requires i < pa.count <= |pa.slots| && j < pb.count <= |pb.slots| && pb.slots[j].state == Empty
    requires var s := pa.slots[i];
             if s.phys != 0 && s.state != Portal && s.state != Empty
                 then LinkedMoved(chains, chains', s.phys, Ref(a, i), Ref(b, j))
             else chains' == chains
    ensures Exact(chains', a, pa.(slots := pa.slots[i := BLANK]))
    ensures Exact(chains', b, pb.(slots := pb.slots[j := pa.slots[i]]))
    ensures OthersSame(chains, chains', a, b)
  {
    var pa', pb' := pa.(slots := pa.slots[i := BLANK]), pb.(slots := pb.slots[j := pa.slots[i]]);
    forall f: nat, k: nat {:trigger Linked(chains', f, Ref(a, k))}
      ensures Linked(chains', f, Ref(a, k)) <==> Wants(pa', k, f) {
      assert Linked(chains, f, Ref(a, k)) <==> Wants(pa, k, f);
      assert Ref(a, k) != Ref(b, j) && (Ref(a, k) == Ref(a, i) <==> k == i);
    }
    forall f: nat, k: nat {:trigger Linked(chains', f, Ref(b, k))}
      ensures Linked(chains', f, Ref(b, k)) <==> Wants(pb', k, f) {
      assert Linked(chains, f, Ref(b, k)) <==> Wants(pb, k, f);
      assert Ref(b, k) != Ref(a, i) && (Ref(b, k) == Ref(b, j) <==> k == j);
    }
  }

  /** One turn of the loops of vm_split and vm_join_split; neither of their fatal checks can fire. */
  method MoveSlot(rmap: ReverseMap, a: nat, pa: PageMap, i: nat, b: nat, pb: PageMap, memory: bool, ghost es: set<Slot>)
    returns (pa': PageMap, pb': PageMap)
    requires rmap.Valid() && Sharing(rmap.chains, a, pa, b, pb, es)
    requires i < pa.count && pa.slots[i].state != Empty && Room(pb) && |pb.slots| < MAX_U32
    modifies rmap
    ensures rmap.Valid() && Sharing(rmap.chains, a, pa', b, pb', es) && OthersSame(old(rmap.chains), rmap.chains, a, b)
    ensures pa' == pa.(slots := pa.slots[i := BLANK]) && |pb'.slots| == |pb.slots|
    ensures pb.count <= pb'.count <= pb.count + 1
    ensures Entries(pa') == Entries(pa) - {pa.slots[i]} && Entries(pb') == Entries(pb) + {pa.slots[i]}
    ensures pa.slots[i] in Entries(pa) && pa.slots[i] !in Entries(pb)
  {
    hide *;
    SharingOk(rmap.chains, a, pa, b, pb, es);
    var s := pa.slots[i];
    var pb1, r := ReservePage(pb, s.va, memory);
    // the slots were reserved beforehand
    assert r.Some?;
    var j := r.value;
    MoveReserved(rmap.chains, a, pa, b, pb, pb1, es, s.va, j);
    ReservedIsEmpty(rmap.chains, a, pa, b, pb, pb1, es, i, j);
    // transfer_to finds an empty target
    assert pb1.slots[j].state == Empty;
    ghost var before := rmap.chains;
    MovePages(before, a, pa, b, pb1, es, i, j);
    if s.phys != 0 && s.state != Portal {
      LinkIsThere(before, a, pa, b, pb1, i, j);
      FrameInRange(rmap, s.phys, Ref(a, i));
      var ok := rmap.Rebind(Ref(a, i), Ref(b, j), s.phys);
      // the link is there
      assert ok;
    }
    MoveLink(before, rmap.chains, a, pa, b, pb1, i, j);
    pa', pb' := pa.(slots := pa.slots[i := BLANK]), pb1.(slots := pb1.slots[j := s]);
    SharingAgain(before, rmap.chains, a, pa, b, pb, pa', pb', es);
    ReservedSizes(pb, pb1, s.va, j);
  }

  lemma SharingOk(chains: Chains, a: nat, pa: PageMap, b: nat, pb: PageMap, es: set<Slot>)
    requires Sharing(chains, a, pa, b, pb, es)
    ensures a != b && Ok(pa) && Ok(pb) && pa.count <= |pa.slots| && pb.count <= |pb.slots|
    ensures Exact(chains, a, pa) && Exact(chains, b, pb)
  {
  }

  lemma ReservedSizes(pm: PageMap, pm': PageMap, va: nat, i: nat)
    requires Reserved(pm, pm', va, i)
    ensures Ok(pm') && Entries(pm') == Entries(pm) && i < pm'.count <= |pm'.slots|
    ensures pm.count <= pm'.count <= pm.count + 1
  {
  }

  lemma ReservedIsEmpty(chains: Chains, a: nat, pa: PageMap, b: nat, pb: PageMap, pb1: PageMap, es: set<Slot>, i: nat,
                        j: nat)
    requires Sharing(chains, a, pa, b, pb, es) && i < pa.count <= |pa.slots| && pa.slots[i].state != Empty
    requires Reserved(pb, pb1, pa.slots[i].va, j)
    ensures j < pb1.count <= |pb1.slots| && pb1.slots[j].state == Empty
    ensures Ok(pb1) && Entries(pb1) == Entries(pb) && Exact(chains, b, pb1)
  {
    MoveReserved(chains, a, pa, b, pb, pb1, es, pa.slots[i].va, j);
    EntriesHave(pa, i);
    if pb1.slots[j].state != Empty {
      EntriesHave(pb1, j);
      assert false;
    }
  }

  lemma LinkIsThere(chains: Chains, a: nat, pa: PageMap, b: nat, pb: PageMap, i: nat, j: nat)
    requires Exact(chains, a, pa) && Exact(chains, b, pb)
    requires i < pa.count <= |pa.slots| && j < pb.count <= |pb.slots| && pb.slots[j].state == Empty
    requires var s := pa.slots[i]; s.phys != 0 && s.state != Portal && s.state != Empty
    ensures Linked(chains, pa.slots[i].phys, Ref(a, i)) && !Linked(chains, pa.slots[i].phys, Ref(b, j))
  {
    assert Wants(pa, i, pa.slots[i].phys) && !Wants(pb, j, pa.slots[i].phys);
  }

  lemma FrameInRange(rmap: ReverseMap, f: nat, ref: Ref)
    requires rmap.Valid() && Linked(rmap.chains, f, ref)
    ensures f < rmap.limit
  {
  }

  lemma SharingAgain(before: Chains, chains: Chains, a: nat, pa: PageMap, b: nat, pb: PageMap,
                     pa': PageMap, pb': PageMap, es: set<Slot>)
    requires Sharing(before, a, pa, b, pb, es) && Ok(pa') && Ok(pb')
    requires Entries(pa') + Entries(pb') == es && Entries(pa') !! Entries(pb')
    requires Exact(chains, a, pa') && Exact(chains, b, pb')
    ensures Sharing(chains, a, pa', b, pb', es)
  {
  }

  lemma OthersTrans(c0: Chains, c1: Chains, c2: Chains, a: nat, b: nat)
    requires OthersSame(c0, c1, a, b) && OthersSame(c1, c2, a, b)
    ensures OthersSame(c0, c2, a, b)
  {
    forall f: nat, x: Ref {:trigger Linked(c2, f, x)} | x.region != a && x.region != b
      ensures Linked(c2, f, x) <==> Linked(c0, f, x) {
      assert Linked(c1, f, x) <==> Linked(c0, f, x);
    }
  }

  // ---- vm_split: pages from split on move up -----------------------------------------------------

  /** The first i slots of the lower region have been looked at. */
  ghost predicate MovedUp(lo0: PageMap, lo: PageMap, up: PageMap, split: nat, i: nat) {
    && i <= lo.count == lo0.count <= |lo.slots| == |lo0.slots|
    && up.count <= i && lo0.count <= |up.slots| < MAX_U32
    && (forall s | s in Entries(up) :: s.va >= split)
    && (forall k | 0 <= k < i && lo.slots[k].state != Empty :: lo.slots[k].va < split)
  }

  method MoveUpper(rmap: ReverseMap, a: nat, lo0: PageMap, b: nat, up0: PageMap, split: nat)
    returns (lo: PageMap, up: PageMap, committed: nat, resident: nat)
    requires rmap.Valid() && Sharing(rmap.chains, a, lo0, b, up0, Entries(lo0))
    requires up0.count == 0 && lo0.count <= |up0.slots| < MAX_U32
    modifies rmap
    ensures rmap.Valid() && Sharing(rmap.chains, a, lo, b, up, Entries(lo0))
    ensures OthersSame(old(rmap.chains), rmap.chains, a, b)
    ensures |lo.slots| == |lo0.slots| && |up.slots| == |up0.slots| && lo.count <= lo0.count && up.count <= lo0.count
    ensures Entries(lo) == (set s | s in Entries(lo0) && s.va < split)
    ensures Entries(up) == (set s | s in Entries(lo0) && s.va >= split)
    ensures committed == |Committed(Entries(up))| && resident == |Entries(up)|
  {
    hide *;
    ghost var es := Entries(lo0);
    lo, up, committed, resident := lo0, up0, 0, 0;
    MoveStart(rmap.chains, a, lo0, b, up0, split);
    OthersRefl(rmap.chains, a, b);
    var i := 0;
    while i < lo0.count
      invariant i <= lo0.count && rmap.Valid() && Sharing(rmap.chains, a, lo, b, up, es)
      invariant OthersSame(old(rmap.chains), rmap.chains, a, b) && MovedUp(lo0, lo, up, split, i)
      invariant |up.slots| == |up0.slots|
      invariant committed == |Committed(Entries(up))| && resident == |Entries(up)|
    {
      MovedBounds(lo0, lo, up, split, i);
      ghost var before, lo1, up1 := rmap.chains, lo, up;
      if lo.slots[i].state != Empty && lo.slots[i].va >= split {
        var s := lo.slots[i];
        lo, up := MoveSlot(rmap, a, lo, i, b, up, true, es);
        CommittedMore(Entries(up1), s);
        OthersTrans(old(rmap.chains), before, rmap.chains, a, b);
        MovedStep(lo0, lo1, up1, split, i, lo, up);
        resident := resident + 1;
        if Commits(s) {
          committed := committed + 1;
        }
      } else {
        MovedSkip(lo0, lo, up, split, i);
      }
      i := i + 1;
    }
    MovedEnd(rmap.chains, a, lo0, lo, b, up, split);
    ghost var lo2 := lo;
    lo := Trim(lo);
    TrimSharing(rmap.chains, a, lo2, lo, b, up, es);
  }

  lemma OthersRefl(c: Chains, a: nat, b: nat)
    ensures OthersSame(c, c, a, b)
  {
  }

  lemma MoveStart(chains: Chains, a: nat, lo0: PageMap, b: nat, up0: PageMap, split: nat)
    requires Sharing(chains, a, lo0, b, up0, Entries(lo0)) && up0.count == 0 && lo0.count <= |up0.slots| < MAX_U32
    ensures MovedUp(lo0, lo0, up0, split, 0) && Entries(up0) == {} && Committed(Entries(up0)) == {}
  {
    assert Entries(up0) == {};
  }

  lemma MovedBounds(lo0: PageMap, lo: PageMap, up: PageMap, split: nat, i: nat)
    requires MovedUp(lo0, lo, up, split, i) && i < lo0.count
    ensures i < lo.count <= |lo.slots| && Room(up) && |up.slots| < MAX_U32
  {
  }

  lemma MovedStep(lo0: PageMap, lo: PageMap, up: PageMap, split: nat, i: nat, lo': PageMap, up': PageMap)
    requires MovedUp(lo0, lo, up, split, i) && i < lo.count && lo.slots[i].va >= split
    requires lo' == lo.(slots := lo.slots[i := BLANK]) && |up'.slots| == |up.slots| && up'.count <= up.count + 1
    requires Entries(up') == Entries(up) + {lo.slots[i]}
    ensures MovedUp(lo0, lo', up', split, i + 1)
  {
  }

  lemma MovedSkip(lo0: PageMap, lo: PageMap, up: PageMap, split: nat, i: nat)
    requires MovedUp(lo0, lo, up, split, i) && i < lo.count && (lo.slots[i].state == Empty || lo.slots[i].va < split)
    ensures MovedUp(lo0, lo, up, split, i + 1)
  {
  }

  lemma MovedEnd(chains: Chains, a: nat, lo0: PageMap, lo: PageMap, b: nat, up: PageMap, split: nat)
    requires MovedUp(lo0, lo, up, split, lo0.count) && Sharing(chains, a, lo, b, up, Entries(lo0))
    ensures Ok(lo) && |lo.slots| == |lo0.slots| && lo.count == lo0.count && up.count <= lo0.count
    ensures Entries(lo) == (set s | s in Entries(lo0) && s.va < split)
    ensures Entries(up) == (set s | s in Entries(lo0) && s.va >= split)
  {
    forall s | s in Entries(lo) ensures s.va < split {
      var k :| 0 <= k < lo.count && lo.slots[k].state != Empty && lo.slots[k] == s;
    }
  }

  lemma TrimSharing(chains: Chains, a: nat, pa: PageMap, pa': PageMap, b: nat, pb: PageMap, es: set<Slot>)
    requires Sharing(chains, a, pa, b, pb, es) && Trimmed(pa, pa')
    ensures Sharing(chains, a, pa', b, pb, es) && Entries(pa') == Entries(pa) && |pa'.slots| == |pa.slots|
    ensures pa'.count <= pa.count
  {
    TrimKeeps(pa, pa');
    forall f: nat, i: nat {:trigger Linked(chains, f, Ref(a, i))}
      ensures Linked(chains, f, Ref(a, i)) <==> Wants(pa', i, f) {
      assert Wants(pa, i, f) <==> Wants(pa', i, f);
    }
  }

  // ---- vm_join_split: everything moves back down ------------------------------------------------

  method MoveBack(rmap: ReverseMap, a: nat, lo0: PageMap, b: nat, up0: PageMap, ghost es: set<Slot>)
    returns (lo: PageMap, up: PageMap)
    requires rmap.Valid() && Sharing(rmap.chains, a, lo0, b, up0, es) && |es| <= |lo0.slots| < MAX_U32
    modifies rmap
    ensures rmap.Valid() && Sharing(rmap.chains, a, lo, b, up, es) && OthersSame(old(rmap.chains), rmap.chains, a, b)
    ensures Entries(lo) == es && Entries(up) == {} && |lo.slots| == |lo0.slots|
  {
    hide *;
    lo, up := lo0, up0;
    OthersRefl(rmap.chains, a, b);
    SharingOk(rmap.chains, a, lo, b, up, es);
    var i := 0;
    while i < up0.count
      invariant i <= up0.count == up.count <= |up.slots| && rmap.Valid() && Sharing(rmap.chains, a, lo, b, up, es)
      invariant OthersSame(old(rmap.chains), rmap.chains, a, b) && |lo.slots| == |lo0.slots|
      invariant forall k | 0 <= k < i :: up.slots[k].state == Empty
    {
      if up.slots[i].state != Empty {
        ghost var before := rmap.chains;
        RoomLeft(rmap.chains, a, lo, b, up, es, i);
        SharingSwap(rmap.chains, a, lo, b, up, es);
        up, lo := MoveSlot(rmap, b, up, i, a, lo, true, es);
        SharingSwap(rmap.chains, b, up, a, lo, es);
        BlankIsEmpty();
        OthersSwap(before, rmap.chains, b, a);
        OthersTrans(old(rmap.chains), before, rmap.chains, a, b);
      }
      i := i + 1;
    }
    AllBack(rmap.chains, a, lo, b, up, es);
  }

  lemma BlankIsEmpty()
    ensures BLANK.state == Empty
  {
  }

  lemma RoomLeft(chains: Chains, a: nat, lo: PageMap, b: nat, up: PageMap, es: set<Slot>, i: nat)
    requires Sharing(chains, a, lo, b, up, es) && |es| <= |lo.slots| && i < up.count <= |up.slots|
    requires up.slots[i].state != Empty
    ensures Room(lo)
  {
    EntriesHave(up, i);
    SmallerSet(Entries(lo), es, up.slots[i]);
    FewHaveRoom(lo);
  }

  lemma SmallerSet(x: set<Slot>, y: set<Slot>, s: Slot)
    requires x <= y && s in y && s !in x
    ensures |x| < |y|
  {
    SubsetCard(x, y - {s});
  }

  lemma {:induction false} SubsetCard(x: set<Slot>, y: set<Slot>)
    requires x <= y
    ensures |x| <= |y|
    decreases |x|
  {
    if x != {} {
      var s :| s in x;
      SubsetCard(x - {s}, y - {s});
    }
  }

  lemma SharingSwap(chains: Chains, a: nat, pa: PageMap, b: nat, pb: PageMap, es: set<Slot>)
    requires Sharing(chains, a, pa, b, pb, es)
    ensures Sharing(chains, b, pb, a, pa, es)
  {
  }

  lemma OthersSwap(c: Chains, c': Chains, a: nat, b: nat)
    requires OthersSame(c, c', a, b)
    ensures OthersSame(c, c', b, a)
  {
  }

  lemma AllBack(chains: Chains, a: nat, lo: PageMap, b: nat, up: PageMap, es: set<Slot>)
    requires Sharing(chains, a, lo, b, up, es) && forall k | 0 <= k < up.count :: up.slots[k].state == Empty
    ensures Entries(lo) == es && Entries(up) == {}
  {
  }
}
