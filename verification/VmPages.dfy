/** The page slots of one region: a growable array searched from the front. */
module VmPages {
  import opened Wrappers
  import opened VmTree

  const VM_PAGE_MAP_INITIAL: nat := 16
  const MAX_U32: nat := 0xFFFF_FFFF

  datatype State = Empty | Resident | Cow | FileCache | Portal | Ipc

  /** The other fields of a slot travel together as rest. */
  datatype Slot = Slot(va: nat, phys: nat, state: State, rest: nat)

  const BLANK := Slot(0, 0, Empty, 0)

  /** The first count of slots are in use or empty; the others are spare capacity. */
  datatype PageMap = PageMap(slots: seq<Slot>, count: nat)

  const NO_PAGES := PageMap([], 0)

  ghost predicate Ok(pm: PageMap) {
    && pm.count <= |pm.slots|
    && forall i, j | 0 <= i < j < pm.count && pm.slots[i].state != Empty && pm.slots[j].state != Empty ::
         pm.slots[i].va != pm.slots[j].va
  }

  /** The slots that hold a page. */
  ghost function Entries(pm: PageMap): set<Slot> {
    set i | 0 <= i < pm.count && i < |pm.slots| && pm.slots[i].state != Empty :: pm.slots[i]
  }

  lemma EntriesHave(pm: PageMap, i: nat)
    requires i < pm.count <= |pm.slots| && pm.slots[i].state != Empty
    ensures pm.slots[i] in Entries(pm)
  {
  }

  /** No allocation is needed for one more page. */
  ghost predicate Room(pm: PageMap) {
    pm.count < |pm.slots| || exists i :: 0 <= i < pm.count && i < |pm.slots| && pm.slots[i].state == Empty
  }

  predicate Matches(s: Slot, va: nat) {
    s.state != Empty && s.va == va
  }

  /** find_page */
  method FindPage(pm: PageMap, va: nat) returns (r: Option<nat>)
    requires Ok(pm)
    ensures r.Some? ==> r.value < pm.count && Matches(pm.slots[r.value], va)
    ensures r.None? ==> forall s | s in Entries(pm) :: s.va != va
  {
    var i := 0;
    while i < pm.count
      invariant i <= pm.count && forall k | 0 <= k < i :: !Matches(pm.slots[k], va)
    {
      if Matches(pm.slots[i], va) {
        return Some(i);
      }
      i := i + 1;
    }
    return None;
  }

  /** reserve_capacity; memory tells whether the allocation succeeds. */
  method ReserveCapacity(pm: PageMap, minimum: nat, memory: bool) returns (pm': PageMap, ok: bool)
    requires Ok(pm) && |pm.slots| <= MAX_U32 && minimum <= MAX_U32
    ensures Ok(pm') && pm'.count == pm.count && pm'.slots[..pm.count] == pm.slots[..pm.count]
    ensures |pm.slots| <= |pm'.slots| <= MAX_U32
    ensures ok ==> |pm'.slots| >= minimum
    ensures !ok ==> pm' == pm
    ensures minimum <= |pm.slots| || (memory && minimum <= MAX_U32 / 2) ==> ok
    ensures ok ==> memory || minimum <= |pm.slots|
    ensures |pm.slots| < MAX_U32 ==> |pm'.slots| < MAX_U32
  {
    if |pm.slots| >= minimum {
      return pm, true;
    }
    var cap := if |pm.slots| != 0 then |pm.slots| else VM_PAGE_MAP_INITIAL;
    while cap < minimum
      invariant 0 < cap <= MAX_U32 && |pm.slots| <= cap && (|pm.slots| < MAX_U32 ==> cap < MAX_U32)
    {
      if cap > MAX_U32 / 2 {
        return pm, false;
      }
      cap := cap * 2;
    }
    if !memory {
      return pm, false;
    }
    pm' := PageMap(pm.slots[..pm.count] + seq(cap - pm.count, i => BLANK), pm.count);
    return pm', true;
  }

  /** What reserve_page leaves behind: the same pages, in the same places, and a slot to write to. */
  ghost predicate Reserved(pm: PageMap, pm': PageMap, va: nat, i: nat) {
    && Ok(pm') && Entries(pm') == Entries(pm) && pm.count <= pm'.count <= pm.count + 1 && i < pm'.count
    && |pm.slots| <= |pm'.slots|
    && pm.count <= |pm.slots|
    && (forall k | 0 <= k < pm.count && pm.slots[k].state != Empty :: pm'.slots[k] == pm.slots[k])
    && (forall k | 0 <= k < pm'.count && pm'.slots[k].state != Empty :: k < pm.count && pm.slots[k] == pm'.slots[k])
    && (Matches(pm'.slots[i], va) || (pm'.slots[i] == BLANK.(va := va) && forall s | s in Entries(pm) :: s.va != va))
  }

  lemma ReservedEmpty(pm: PageMap, i: nat, va: nat)
    requires Ok(pm) && i < pm.count && pm.slots[i].state == Empty
    requires forall k | 0 <= k < pm.count :: !Matches(pm.slots[k], va)
    ensures Reserved(pm, pm.(slots := pm.slots[i := BLANK.(va := va)]), va, i)
  {
    var pm' := pm.(slots := pm.slots[i := BLANK.(va := va)]);
    forall s | s in Entries(pm) ensures s in Entries(pm') {
      var k :| 0 <= k < pm.count && pm.slots[k].state != Empty && pm.slots[k] == s;
      assert pm'.slots[k] == s;
    }
    forall s | s in Entries(pm') ensures s in Entries(pm) {
      var k :| 0 <= k < pm'.count && pm'.slots[k].state != Empty && pm'.slots[k] == s;
      assert pm.slots[k] == s;
    }
  }

  lemma ReservedAppend(pm: PageMap, pm1: PageMap, va: nat)
    requires Ok(pm) && Ok(pm1) && pm1.count == pm.count < |pm1.slots| && |pm.slots| <= |pm1.slots|
    requires pm1.slots[..pm.count] == pm.slots[..pm.count]
    requires forall k | 0 <= k < pm.count :: !Matches(pm.slots[k], va)
    ensures Reserved(pm, PageMap(pm1.slots[pm.count := BLANK.(va := va)], pm.count + 1), va, pm.count)
  {
    var pm' := PageMap(pm1.slots[pm.count := BLANK.(va := va)], pm.count + 1);
    forall k | 0 <= k < pm.count ensures pm'.slots[k] == pm.slots[k] {
      assert pm1.slots[..pm.count][k] == pm.slots[..pm.count][k];
    }
    forall s | s in Entries(pm) ensures s in Entries(pm') {
      var k :| 0 <= k < pm.count && pm.slots[k].state != Empty && pm.slots[k] == s;
      assert pm'.slots[k] == s;
    }
    forall s | s in Entries(pm') ensures s in Entries(pm) {
      var k :| 0 <= k < pm'.count && pm'.slots[k].state != Empty && pm'.slots[k] == s;
      assert pm.slots[k] == s;
    }
  }

  /** reserve_page */
  method ReservePage(pm: PageMap, va: nat, memory: bool) returns (pm': PageMap, r: Option<nat>)
    requires Ok(pm) && |pm.slots| < MAX_U32
    ensures r.Some? ==> Reserved(pm, pm', va, r.value)
    ensures r.None? ==> pm' == pm && !Room(pm)
    ensures memory && pm.count < MAX_U32 / 2 ==> r.Some?
    ensures |pm'.slots| < MAX_U32 && (Room(pm) ==> |pm'.slots| == |pm.slots|)
  {
    var spare: Option<nat> := None;
    var i := 0;
    while i < pm.count
      invariant i <= pm.count && forall k | 0 <= k < i :: !Matches(pm.slots[k], va)
      invariant spare.Some? ==> spare.value < i && pm.slots[spare.value].state == Empty
      invariant spare.None? ==> forall k | 0 <= k < i :: pm.slots[k].state != Empty
    {
      if Matches(pm.slots[i], va) {
        return pm, Some(i);
      }
      if spare.None? && pm.slots[i].state == Empty {
        spare := Some(i);
      }
      i := i + 1;
    }
    if spare.Some? {
      ReservedEmpty(pm, spare.value, va);
      return pm.(slots := pm.slots[spare.value := BLANK.(va := va)]), spare;
    }
    var pm1 := pm;
    if pm.count == |pm.slots| {
      var ok: bool;
      pm1, ok := ReserveCapacity(pm, pm.count + 1, memory);
      if !ok {
        return pm, None;
      }
    }
    ReservedAppend(pm, pm1, va);
    pm' := PageMap(pm1.slots[pm.count := BLANK.(va := va)], pm.count + 1);
    return pm', Some(pm.count);
  }

  /** A page written into the slot just reserved for it. */
  lemma Fill(pm: PageMap, i: nat, s: Slot)
    requires Ok(pm) && i < pm.count && pm.slots[i].state == Empty && s.state != Empty
    requires forall e | e in Entries(pm) :: e.va != s.va
    ensures var pm' := pm.(slots := pm.slots[i := s]);
            Ok(pm') && Entries(pm') == Entries(pm) + {s} && s !in Entries(pm)
  {
    var pm' := pm.(slots := pm.slots[i := s]);
    assert pm'.slots[i] == s;
    forall e | e in Entries(pm) ensures e in Entries(pm') {
      var k :| 0 <= k < pm.count && pm.slots[k].state != Empty && pm.slots[k] == e;
      assert pm'.slots[k] == e;
    }
    forall e | e in Entries(pm') ensures e in Entries(pm) + {s} {
      var k :| 0 <= k < pm'.count && pm'.slots[k].state != Empty && pm'.slots[k] == e;
      assert k != i ==> pm.slots[k] == e;
    }
    forall k | 0 <= k < pm.count && pm.slots[k].state != Empty ensures pm.slots[k].va != s.va {
      EntriesHave(pm, k);
    }
  }

  /** A slot cleared. */
  lemma Clear(pm: PageMap, i: nat)
    requires Ok(pm) && i < pm.count && pm.slots[i].state != Empty
    ensures var pm' := pm.(slots := pm.slots[i := BLANK]);
            Ok(pm') && Entries(pm') == Entries(pm) - {pm.slots[i]}
  {
    var pm' := pm.(slots := pm.slots[i := BLANK]);
    forall e | e in Entries(pm) - {pm.slots[i]} ensures e in Entries(pm') {
      var k :| 0 <= k < pm.count && pm.slots[k].state != Empty && pm.slots[k] == e;
      assert pm'.slots[k] == e;
    }
    forall e | e in Entries(pm') ensures e in Entries(pm) - {pm.slots[i]} {
      var k :| 0 <= k < pm'.count && pm'.slots[k].state != Empty && pm'.slots[k] == e;
      assert pm.slots[k] == e && k != i;
      assert e.va != pm.slots[i].va;
    }
  }

  /** The loop that drops empty slots at the end. */
  method Trim(pm: PageMap) returns (pm': PageMap)
    requires Ok(pm)
    ensures Trimmed(pm, pm')
    ensures pm'.count > 0 ==> pm'.slots[pm'.count - 1].state != Empty
  {
    pm' := pm;
    while pm'.count != 0 && pm'.slots[pm'.count - 1].state == Empty
      invariant Trimmed(pm, pm')
      decreases pm'.count
    {
      pm' := pm'.(count := pm'.count - 1);
    }
  }

  ghost predicate Trimmed(pm: PageMap, pm': PageMap) {
    && Ok(pm') && pm'.slots == pm.slots && pm'.count <= pm.count <= |pm.slots|
    && forall k | pm'.count <= k < pm.count :: pm.slots[k].state == Empty
  }

  lemma TrimKeeps(pm: PageMap, pm': PageMap)
    requires Trimmed(pm, pm')
    ensures Entries(pm') == Entries(pm)
  {
    forall e | e in Entries(pm) ensures e in Entries(pm') {
      var k :| 0 <= k < pm.count && pm.slots[k].state != Empty && pm.slots[k] == e;
      assert pm'.slots[k] == e;
    }
  }

  /** release_page: exactly that page goes, and the empty end of the array with it. */
  method ReleasePage(pm: PageMap, va: nat) returns (pm': PageMap, found: bool)
    requires Ok(pm)
    ensures Ok(pm') && Entries(pm') == set s | s in Entries(pm) && s.va != va
    ensures found <==> exists s :: s in Entries(pm) && s.va == va
    ensures !found ==> pm' == pm
  {
    var r := FindPage(pm, va);
    if r.None? {
      return pm, false;
    }
    ghost var s := pm.slots[r.value];
    EntriesHave(pm, r.value);
    Clear(pm, r.value);
    OnlyOne(pm, r.value);
    var pm1 := pm.(slots := pm.slots[r.value := BLANK]);
    pm' := Trim(pm1);
    TrimKeeps(pm1, pm');
    return pm', true;
  }

  lemma OnlyOne(pm: PageMap, i: nat)
    requires Ok(pm) && i < pm.count && pm.slots[i].state != Empty
    ensures Entries(pm) - {pm.slots[i]} == set s | s in Entries(pm) && s.va != pm.slots[i].va
  {
    forall s | s in Entries(pm) && s.va == pm.slots[i].va ensures s == pm.slots[i] {
      var k :| 0 <= k < pm.count && pm.slots[k].state != Empty && pm.slots[k] == s;
    }
  }

  // ---- counting -----------------------------------------------------------------------------

  lemma LastIsNew(pm: PageMap)
    requires Ok(pm) && pm.count > 0 && pm.slots[pm.count - 1].state != Empty
    ensures var less, s := pm.(count := pm.count - 1), pm.slots[pm.count - 1];
            s !in Entries(less) && Entries(pm) == Entries(less) + {s}
  {
    var less, s := pm.(count := pm.count - 1), pm.slots[pm.count - 1];
    forall e | e in Entries(less) ensures e.va != s.va {
      var k :| 0 <= k < less.count && pm.slots[k].state != Empty && pm.slots[k] == e;
    }
    EntriesHave(pm, pm.count - 1);
    forall e | e in Entries(pm) ensures e in Entries(less) + {s} {
      var k :| 0 <= k < pm.count && pm.slots[k].state != Empty && pm.slots[k] == e;
      if k < less.count {
        EntriesHave(less, k);
      }
    }
  }

  lemma {:induction false} EntriesCard(pm: PageMap)
    requires Ok(pm)
    ensures |Entries(pm)| <= pm.count
    ensures (forall i | 0 <= i < pm.count :: pm.slots[i].state != Empty) ==> |Entries(pm)| == pm.count
    decreases pm.count
  {
    if pm.count == 0 {
      assert Entries(pm) == {};
    } else {
      var n := pm.count - 1;
      var less := pm.(count := n);
      EntriesCard(less);
      var s := pm.slots[n];
      if s.state == Empty {
        assert Entries(pm) == Entries(less);
      } else {
        LastIsNew(pm);
      }
    }
  }

  /** Fewer pages than slots: there is room. */
  lemma FewHaveRoom(pm: PageMap)
    requires Ok(pm) && |Entries(pm)| < |pm.slots|
    ensures Room(pm)
  {
    EntriesCard(pm);
  }

  lemma UniquePages(pm: PageMap)
    requires Ok(pm)
    ensures forall s, t | s in Entries(pm) && t in Entries(pm) && s.va == t.va :: s == t
  {
    forall s, t | s in Entries(pm) && t in Entries(pm) && s.va == t.va ensures s == t {
      var i :| 0 <= i < pm.count && pm.slots[i].state != Empty && pm.slots[i] == s;
      var j :| 0 <= j < pm.count && pm.slots[j].state != Empty && pm.slots[j] == t;
    }
  }
}
