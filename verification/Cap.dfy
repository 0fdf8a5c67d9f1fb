/** The capability slot table: issue, derive, validate, release and revoke. */
module Cap {
  import opened Wrappers

  const MAX_CAPABILITIES: nat := 1024
  const LOOKUP_TABLE_SIZE: nat := 16
  const GENERATIONS: nat := 0x1_0000
  /** Object ids have 32 bits; lookup functions take 16 of them. */
  const LOOKUP_IDS: nat := 0x1_0000

  /** Bit of the rights mask that lets a capability go to another domain. */
  const DELEGATE: nat := 4
  const KIND_NONE: nat := 0
  const KIND_DOMAIN: nat := 1

  /** The set bits of a 16-bit rights mask. */
  type Rights = set<nat>

  datatype Token = Token(kind: nat, id: nat, gen: nat, rights: Rights)
  datatype Lifecycle = Embryo | Active | Dying | Destroyed
  datatype Object = Object(kind: nat, id: nat, generation: nat, state: Lifecycle, refs: nat)
  datatype Slot = Slot(target: nat, kind: nat, rights: Rights, owner: nat, targetGen: nat, gen: nat, active: bool)

  datatype Error = NotSupported | NotFound | OutOfMemory | CapabilityInvalid | InvalidArg
  datatype Result<T> = Ok(value: T) | Err(error: Error)

  /** One activation of a slot, with the activation it was derived from. */
  datatype Grant = Grant(kind: nat, rights: Rights, owner: nat, target: nat, parent: Option<nat>)

  // ---- references ----------------------------------------------------------------------------

  predicate Holds(s: Slot, o: nat) {
    s.active && s.target == o
  }

  /** Number of active slots that refer to an object. */
  ghost function Held(slots: seq<Slot>, o: nat): nat {
    if slots == [] then 0 else Held(slots[..|slots| - 1], o) + if Holds(slots[|slots| - 1], o) then 1 else 0
  }

  lemma {:induction false} HeldUpdate(slots: seq<Slot>, i: nat, s: Slot, o: nat)
    requires i < |slots|
    ensures Held(slots[i := s], o) + (if Holds(slots[i], o) then 1 else 0)
         == Held(slots, o) + if Holds(s, o) then 1 else 0
    decreases |slots|
  {
    var n := |slots| - 1;
    if i < n {
      assert slots[i := s][..n] == slots[..n][i := s];
      HeldUpdate(slots[..n], i, s, o);
    } else {
      assert slots[i := s][..n] == slots[..n];
    }
  }

  ghost predicate TargetsOk(slots: seq<Slot>, objects: map<nat, Object>) {
    forall i | 0 <= i < |slots| && slots[i].active ::
      slots[i].target != 0 && slots[i].target in objects && objects[slots[i].target].kind == slots[i].kind
  }

  /** References are those of active slots, one each, and those held elsewhere. */
  ghost predicate RefsOk(slots: seq<Slot>, objects: map<nat, Object>, others: map<nat, nat>) {
    && TargetsOk(slots, objects)
    && forall o | o in objects :: o in others && objects[o].refs == others[o] + Held(slots, o)
  }

  lemma HeldPositive(slots: seq<Slot>, i: nat)
    requires i < |slots| && slots[i].active
    ensures Held(slots, slots[i].target) > 0
  {
    HeldUpdate(slots, i, slots[i].(active := false), slots[i].target);
  }

  lemma RefsDrop(slots: seq<Slot>, objects: map<nat, Object>, others: map<nat, nat>, i: nat, s: Slot)
    requires RefsOk(slots, objects, others) && i < |slots| && slots[i].active && !s.active
    ensures objects[slots[i].target].refs > 0
    ensures var o := slots[i].target;
            RefsOk(slots[i := s], objects[o := objects[o].(refs := objects[o].refs - 1)], others)
  {
    var o := slots[i].target;
    HeldPositive(slots, i);
    forall x | x in objects ensures x in others
        && objects[o := objects[o].(refs := objects[o].refs - 1)][x].refs == others[x] + Held(slots[i := s], x) {
      HeldUpdate(slots, i, s, x);
    }
  }

  lemma RefsTake(slots: seq<Slot>, objects: map<nat, Object>, others: map<nat, nat>, i: nat, s: Slot)
    requires RefsOk(slots, objects, others) && i < |slots| && !slots[i].active && s.active
    requires s.target != 0 && s.target in objects && objects[s.target].kind == s.kind
    ensures var o := s.target;
            RefsOk(slots[i := s], objects[o := objects[o].(refs := objects[o].refs + 1)], others)
  {
    var o := s.target;
    forall x | x in objects ensures x in others
        && objects[o := objects[o].(refs := objects[o].refs + 1)][x].refs == others[x] + Held(slots[i := s], x) {
      HeldUpdate(slots, i, s, x);
    }
  }

  // ---- generations ---------------------------------------------------------------------------

  /** 16-bit generation after a number of deactivations, from an initial 1. */
  function Generation(serial: nat): nat {
    (1 + serial) % GENERATIONS
  }

  ghost predicate SerialsOk(slots: seq<Slot>, serial: seq<nat>) {
    |serial| == |slots| && forall i | 0 <= i < |slots| :: slots[i].gen == Generation(serial[i])
  }

  lemma NextSerial(slots: seq<Slot>, serial: seq<nat>, i: nat, s: Slot)
    requires SerialsOk(slots, serial) && i < |slots| && s.gen == (slots[i].gen + 1) % GENERATIONS
    ensures SerialsOk(slots[i := s], serial[i := serial[i] + 1]) && |serial| == |slots|
  {
  }

  /** slot_for */
  predicate Matches(slots: seq<Slot>, t: Token) {
    && t.kind != KIND_NONE && 0 < t.id < |slots|
    && var s := slots[t.id];
       s.active && s.gen == t.gen && s.kind == t.kind && s.rights == t.rights
  }

  /** What a run of table operations does to slots: serials only grow, an activation does not change. */
  ghost predicate Advanced(slots: seq<Slot>, serial: seq<nat>, slots': seq<Slot>, serial': seq<nat>) {
    && |slots'| == |slots| == |serial| == |serial'|
    && forall i | 0 <= i < |slots| ::
         && serial[i] <= serial'[i]
         && (serial[i] == serial'[i] && slots[i].active ==> slots'[i] == slots[i])
  }

  /**
    After the activation that a token names has ended, whatever has happened to the table since, the
    token is good again exactly if a whole number of generation cycles later its slot is active with
    the token's kind and rights.
   */
  lemma StaleUntilWrap(slots: seq<Slot>, serial: seq<nat>, slots': seq<Slot>, serial': seq<nat>, t: Token)
    requires SerialsOk(slots, serial) && SerialsOk(slots', serial') && Advanced(slots, serial, slots', serial')
    requires Matches(slots, t) && serial[t.id] < serial'[t.id]
    ensures serial'[t.id] < serial[t.id] + GENERATIONS ==> !Matches(slots', t)
    ensures Matches(slots', t) <==>
              && (serial'[t.id] - serial[t.id]) % GENERATIONS == 0
              && slots'[t.id].active && slots'[t.id].kind == t.kind && slots'[t.id].rights == t.rights
  {
    SameGeneration(serial[t.id], serial'[t.id]);
  }

  lemma SameGeneration(a: nat, b: nat)
    requires a <= b
    ensures Generation(a) == Generation(b) <==> (b - a) % GENERATIONS == 0
    ensures a < b < a + GENERATIONS ==> (b - a) % GENERATIONS != 0
  {
  }

  // ---- derivation ----------------------------------------------------------------------------

  /**
    Objects live in tables, one for each kind, in which an id is the place of an object.  Lookup functions find an
    object at its place; a place is used again only when the object there has no references left and is gone.
   */
  ghost predicate RegistryOk(registry: map<(nat, nat), nat>, objects: map<nat, Object>) {
    && (forall k | k in registry ::
         && registry[k] != 0 && registry[k] in objects
         && objects[registry[k]].kind == k.0 && objects[registry[k]].id == k.1)
    && forall o, p |
         o in objects && p in objects && objects[o].kind == objects[p].kind && objects[o].id == objects[p].id ::
         o == p
  }

  /** No table has more than 8192 places. */
  ghost predicate SmallIds(objects: map<nat, Object>) {
    forall o | o in objects :: objects[o].id < LOOKUP_IDS
  }

  lemma RegistryRefs(registry: map<(nat, nat), nat>, objects: map<nat, Object>, k: (nat, nat))
    requires RegistryOk(registry, objects) && SmallIds(objects) && k in registry
    ensures var o := registry[k];
            && o != 0 && o in objects && objects[o].kind == k.0
            && RegistryOk(registry, objects[o := objects[o].(refs := objects[o].refs + 1)])
            && SmallIds(objects[o := objects[o].(refs := objects[o].refs + 1)])
  {
  }

  /** A grant never has more than the one it comes from, changes hands only by delegation, and names the same object. */
  ghost predicate DerivedFrom(g: Grant, p: Grant) {
    && g.rights <= p.rights && g.kind == p.kind && g.target == p.target
    && (g.owner != p.owner ==> DELEGATE in p.rights)
  }

  ghost predicate LogOk(grants: seq<Grant>) {
    forall a | 0 <= a < |grants| && grants[a].parent.Some? ::
      grants[a].parent.value < a && DerivedFrom(grants[a], grants[grants[a].parent.value])
  }

  /**
    A derivation looks its target up again, by the low 16 bits of the target's id.  If that finds anything it
    is the same object, exactly if the id has no other bits.
   */
  lemma LookupAgain(registry: map<(nat, nat), nat>, objects: map<nat, Object>, target: nat)
    requires RegistryOk(registry, objects) && target in objects
    requires (objects[target].kind, objects[target].id % LOOKUP_IDS) in registry
    ensures registry[(objects[target].kind, objects[target].id % LOOKUP_IDS)] == target <==>
        objects[target].id < LOOKUP_IDS
  {
    var found := registry[(objects[target].kind, objects[target].id % LOOKUP_IDS)];
    assert objects[found].id == objects[target].id % LOOKUP_IDS && objects[found].kind == objects[target].kind;
  }

  /** r is a, or the grant a was derived from, or the one that was derived from, and so on. */
  ghost predicate Ancestor(grants: seq<Grant>, a: nat, r: nat)
    requires LogOk(grants) && a < |grants|
    decreases a
  {
    a == r || (grants[a].parent.Some? && Ancestor(grants, grants[a].parent.value, r))
  }

  /**
    Over any chain of derivations rights only shrink, a change of owner needs delegation all the way up, and
    the object stays the same.
   */
  lemma {:induction false} ChainIsMonotone(grants: seq<Grant>, a: nat, r: nat)
    requires LogOk(grants) && a < |grants| && Ancestor(grants, a, r)
    ensures r <= a && DerivedFrom(grants[a], grants[r])
    decreases a
  {
    if a != r {
      ChainIsMonotone(grants, grants[a].parent.value, r);
    }
  }

  /** cur[i] is the grant that slot i stands for while it is active. */
  ghost predicate CurOk(slots: seq<Slot>, grants: seq<Grant>, cur: seq<nat>) {
    && |cur| == |slots|
    && forall i | 0 <= i < |slots| && slots[i].active ::
         && cur[i] < |grants|
         && var g := grants[cur[i]];
            g.kind == slots[i].kind && g.rights == slots[i].rights && g.owner == slots[i].owner
                && g.target == slots[i].target
  }

  lemma CurLength(slots: seq<Slot>, grants: seq<Grant>, cur: seq<nat>)
    requires CurOk(slots, grants, cur)
    ensures |cur| == |slots|
  {
  }

  lemma LogAppend(slots: seq<Slot>, grants: seq<Grant>, cur: seq<nat>, i: nat, s: Slot, g: Grant)
    requires LogOk(grants) && CurOk(slots, grants, cur) && i < |slots|
    requires g.parent.Some? ==> g.parent.value < |grants| && DerivedFrom(g, grants[g.parent.value])
    requires g.kind == s.kind && g.rights == s.rights && g.owner == s.owner && g.target == s.target
    ensures LogOk(grants + [g]) && CurOk(slots[i := s], grants + [g], cur[i := |grants|])
  {
  }

  // ---- revocation for a domain --------------------------------------------------------------

  /** What cap_revoke_for_domain looks for: slots that a domain owns, and those that name it. */
  predicate OfDomain(s: Slot, objects: map<nat, Object>, domain: nat) {
    s.active && (s.owner == domain || (s.kind == KIND_DOMAIN && s.target in objects && objects[s.target].id == domain))
  }

  ghost function Doomed(slots: seq<Slot>, objects: map<nat, Object>, domain: nat, n: nat): set<nat>
    requires n <= |slots|
  {
    set i: nat | 0 < i < n && OfDomain(slots[i], objects, domain)
  }

  lemma DoomedStep(slots: seq<Slot>, objects: map<nat, Object>, domain: nat, n: nat)
    requires 0 < n < |slots|
    ensures |Doomed(slots, objects, domain, n + 1)|
         == |Doomed(slots, objects, domain, n)| + if OfDomain(slots[n], objects, domain) then 1 else 0
  {
    var d := Doomed(slots, objects, domain, n);
    assert Doomed(slots, objects, domain, n + 1) == if OfDomain(slots[n], objects, domain) then d + {n} else d;
  }

  lemma SameDoom(s: Slot, objects: map<nat, Object>, objects': map<nat, Object>, domain: nat)
    requires objects.Keys == objects'.Keys && forall o | o in objects :: objects'[o].id == objects[o].id
    ensures OfDomain(s, objects, domain) <==> OfDomain(s, objects', domain)
  {
  }

  /** Of the slots below n exactly the doomed ones have been freed; nothing else has changed. */
  ghost predicate Swept(slots: seq<Slot>, objects: map<nat, Object>, domain: nat, n: nat, slots': seq<Slot>,
                        serial: seq<nat>, serial': seq<nat>) {
    && n <= |slots| == |slots'| == |serial| == |serial'|
    && forall i | 0 <= i < |slots| ::
         if 0 < i < n && OfDomain(slots[i], objects, domain) then !slots'[i].active && serial'[i] == serial[i] + 1
         else slots'[i] == slots[i] && serial'[i] == serial[i]
  }

  // ---- the table -----------------------------------------------------------------------------

  class Table {
    var slots: seq<Slot>
    var objects: map<nat, Object>
    /** Kinds with a lookup function, and what these find. */
    const kinds: set<nat>
    var registry: map<(nat, nat), nat>

    /** All objects that have ever been; an object is named by its birth. */
    ghost var made: set<nat>
    ghost var others: map<nat, nat>
    ghost var serial: seq<nat>
    ghost var grants: seq<Grant>
    ghost var cur: seq<nat>

    ghost predicate Valid()
      reads this
    {
      && |slots| == MAX_CAPABILITIES
      && RefsOk(slots, objects, others) && SerialsOk(slots, serial)
      && LogOk(grants) && CurOk(slots, grants, cur)
      && RegistryOk(registry, objects) && SmallIds(objects) && objects.Keys <= made
    }

    /** Only the table changed, and only as a run may. */
    twostate predicate Ran()
      reads this
    {
      && Advanced(old(slots), old(serial), slots, serial)
      && others == old(others) && registry == old(registry) && made == old(made)
      && old(grants) <= grants && objects.Keys == old(objects).Keys
      && forall o | o in objects :: objects[o] == old(objects)[o].(refs := objects[o].refs)
    }

    constructor (objects: map<nat, Object>, kinds: set<nat>, registry: map<(nat, nat), nat>)
      requires RegistryOk(registry, objects) && SmallIds(objects)
      ensures Valid() && this.objects == objects && this.others == map o | o in objects :: objects[o].refs
      ensures this.kinds == kinds && this.registry == registry
      ensures forall i | 0 <= i < |slots| :: !slots[i].active && serial[i] == 0
    {
      slots := seq(MAX_CAPABILITIES, i => Slot(0, KIND_NONE, {}, 0xFFFF_FFFF, 0, 1, false));
      this.objects, this.kinds, this.registry := objects, kinds, registry;
      made := objects.Keys;
      others := map o | o in objects :: objects[o].refs;
      serial, grants, cur := seq(MAX_CAPABILITIES, i => 0), [], seq(MAX_CAPABILITIES, i => 0);
      new;
      forall o | o in objects ensures Held(slots, o) == 0 {
        NoHolder(slots, o);
      }
    }

    /** Other kernel code changes an object, its own references included; slot references stay. */
    method Environment(o: nat, x: Object, ghost held: nat)
      requires Valid() && o in objects && x.refs == held + Held(slots, o)
      requires x.id == objects[o].id && x.kind == objects[o].kind
      modifies this`objects, this`others
      ensures Valid() && objects == old(objects)[o := x] && others == old(others)[o := held]
    {
      objects := objects[o := x];
      others := others[o := held];
    }

    /** scoms_table.alloc: an object is born at a free place. */
    method Create(o: nat, x: Object)
      requires Valid() && o != 0 && o !in made && x.id < LOOKUP_IDS
      requires forall p | p in objects :: objects[p].kind != x.kind || objects[p].id != x.id
      modifies this`objects, this`others, this`registry, this`made
      ensures Valid() && objects == old(objects)[o := x] && registry == old(registry)[(x.kind, x.id) := o]
    {
      NotHeld(slots, objects, o);
      objects, registry := objects[o := x], registry[(x.kind, x.id) := o];
      others, made := others[o := x.refs], made + {o};
    }

    /** scoms_table.release: the object is no longer found, but keeps its place as long as it has references. */
    method Retire(kind: nat, id: nat)
      requires Valid() && (kind, id) in registry && others[registry[(kind, id)]] > 0
      modifies this`objects, this`others, this`registry
      ensures Valid() && registry == old(registry) - {(kind, id)} && objects.Keys == old(objects).Keys
      ensures objects[old(registry)[(kind, id)]].state == Destroyed
    {
      var o := registry[(kind, id)];
      objects := objects[o := objects[o].(state := Destroyed, refs := objects[o].refs - 1)];
      others := others[o := others[o] - 1];
      registry := registry - {(kind, id)};
    }

    /** reclaim_retired: the last reference has gone; the place is free.  No capability is left on the object. */
    method Reclaim(o: nat)
      requires Valid() && o in objects && objects[o].refs == 0 && forall k | k in registry :: registry[k] != o
      modifies this`objects, this`others
      ensures Valid() && objects == old(objects) - {o} && forall i | 0 <= i < |slots| :: !Holds(slots[i], o)
    {
      forall i | 0 <= i < |slots| ensures !Holds(slots[i], o) {
        if slots[i].active {
          HeldPositive(slots, i);
        }
      }
      objects, others := objects - {o}, others - {o};
    }

    /** Frees a slot and drops its reference; the tail of release and of every revocation. */
    method Deactivate(i: nat)
      requires Valid() && i < |slots| && slots[i].active
      modifies this`slots, this`objects, this`serial
      ensures Valid() && Ran() && old(objects)[old(slots)[i].target].refs > 0
      ensures var o := old(slots)[i].target;
              objects == old(objects)[o := old(objects)[o].(refs := old(objects)[o].refs - 1)]
      ensures slots == old(slots)[i := slots[i]] && !slots[i].active && serial == old(serial)[i := old(serial)[i] + 1]
    {
      var s := slots[i].(active := false, target := 0, gen := (slots[i].gen + 1) % GENERATIONS);
      var o := slots[i].target;
      RefsDrop(slots, objects, others, i, s);
      NextSerial(slots, serial, i, s);
      hide RefsOk, SerialsOk, LogOk, Held;
      // put() does not trap
      assert objects[o].refs > 0;
      objects := objects[o := objects[o].(refs := objects[o].refs - 1)];
      slots := slots[i := s];
      serial := serial[i := serial[i] + 1];
    }

    /** lookup_kobject */
    method Lookup(kind: nat, id: nat) returns (r: Result<nat>)
      ensures r.Ok? <==> kind < LOOKUP_TABLE_SIZE && kind in kinds && (kind, id) in registry
      ensures r.Ok? ==> r.value == registry[(kind, id)]
      ensures r == Err(NotSupported) <==> kind >= LOOKUP_TABLE_SIZE || kind !in kinds
    {
      if kind >= LOOKUP_TABLE_SIZE || kind !in kinds {
        return Err(NotSupported);
      }
      if (kind, id) !in registry {
        return Err(NotFound);
      }
      return Ok(registry[(kind, id)]);
    }

    method FreeSlot() returns (i: nat)
      requires |slots| == MAX_CAPABILITIES
      ensures i == 0 ==> forall k | 0 < k < |slots| :: slots[k].active
      ensures i != 0 ==> i < |slots| && !slots[i].active && forall k | 0 < k < i :: slots[k].active
    {
      i := 1;
      while i < MAX_CAPABILITIES
        invariant 1 <= i <= MAX_CAPABILITIES && forall k | 0 < k < i :: slots[k].active
      {
        if !slots[i].active {
          return;
        }
        i := i + 1;
      }
      i := 0;
    }

    /** The lookup finds an active object that somebody holds, and a slot is free. */
    ghost predicate CanIssue(kind: nat, id: nat)
      reads this
    {
      && kind < LOOKUP_TABLE_SIZE && kind in kinds && (kind, id) in registry && registry[(kind, id)] in objects
      && objects[registry[(kind, id)]].state == Active && objects[registry[(kind, id)]].refs > 0
      && exists k :: 0 < k < |slots| && !slots[k].active
    }

    /** issue_locked: the token names a fresh activation, recorded with the grant it derives from. */
    method Issue(kind: nat, id: nat, rights: Rights, owner: nat, ghost parent: Option<nat>) returns (r: Result<Token>)
      requires Valid() && id < LOOKUP_IDS
      requires parent.Some? ==>
                 && parent.value < |grants| && var p := grants[parent.value];
                    && ((kind, id) in registry ==> registry[(kind, id)] == p.target)
                    && DerivedFrom(Grant(kind, rights, owner, p.target, parent), p)
      modifies this
      ensures Valid() && Ran()
      ensures r.Ok? <==> old(CanIssue(kind, id))
      ensures r.Err? ==>
                slots == old(slots) && objects == old(objects) && serial == old(serial) && grants == old(grants)
      ensures r.Ok? ==>
                && (kind, id) in registry && var o, t := registry[(kind, id)], r.value;
                   && t == Token(kind, t.id, t.gen, rights)
                   && 0 < t.id < |slots| && !old(slots)[t.id].active && slots[t.id].active && t.gen == slots[t.id].gen
                   && (forall k | 0 < k < t.id :: old(slots)[k].active)
                   && slots == old(slots)[t.id := slots[t.id]] && serial == old(serial)
                   && slots[t.id].owner == owner && slots[t.id].target == o
                   && slots[t.id].targetGen == objects[o].generation
                   && objects == old(objects)[o := old(objects)[o].(refs := old(objects)[o].refs + 1)]
                   && grants == old(grants) + [Grant(kind, rights, owner, o, parent)] && cur[t.id] == |grants| - 1
                   && (kind != KIND_NONE ==> Matches(slots, t))
    {
      hide Held, LogOk, CurOk, DerivedFrom, Generation, RefsOk, RegistryOk, SmallIds;
      var found := Lookup(kind, id);
      if found.Err? {
        return Err(found.error);
      }
      var i := FreeSlot();
      if i == 0 {
        return Err(OutOfMemory);
      }
      var o := found.value;
      RegistryRefs(registry, objects, (kind, id));
      if objects[o].state != Active {
        return Err(NotSupported);
      }
      if objects[o].refs == 0 {
        return Err(NotFound);
      }
      var s := Slot(o, kind, rights, owner, objects[o].generation, slots[i].gen, true);
      RefsTake(slots, objects, others, i, s);
      LogAppend(slots, grants, cur, i, s, Grant(kind, rights, owner, o, parent));
      CurLength(slots, grants, cur);
      objects := objects[o := objects[o].(refs := objects[o].refs + 1)];
      slots := slots[i := s];
      grants := grants + [Grant(kind, rights, owner, o, parent)];
      cur := cur[i := |grants| - 1];
      return Ok(Token(kind, i, s.gen, rights));
    }

    /** Everything validate_slot checks. */
    predicate Good(t: Token, needed: Rights)
      requires TargetsOk(slots, objects)
      reads this
    {
      && Matches(slots, t)
      && var s := slots[t.id];
         var o := objects[s.target];
         o.generation == s.targetGen && o.state != Dying && o.state != Destroyed && needed <= t.rights
    }

    /** validate_slot */
    method Validate(t: Token, needed: Rights, domain: nat, checkOwner: bool) returns (r: Result<nat>)
      requires Valid()
      ensures r.Ok? <==> Good(t, needed) && (checkOwner ==> slots[t.id].owner == domain)
      ensures r.Ok? ==> r.value == slots[t.id].target && cur[t.id] < |grants| && needed <= grants[cur[t.id]].rights
    {
      if !Matches(slots, t) {
        return Err(NotFound);
      }
      var s := slots[t.id];
      var o := objects[s.target];
      if o.generation != s.targetGen || o.state == Dying || o.state == Destroyed {
        return Err(NotFound);
      }
      if checkOwner && s.owner != domain {
        return Err(CapabilityInvalid);
      }
      if needed != {} && t.rights * needed != needed {
        return Err(InvalidArg);
      }
      return Ok(s.target);
    }

    /** cap_issue */
    method CapIssue(kind: nat, id: nat, rights: Rights, owner: nat) returns (r: Result<Token>)
      requires Valid() && id < LOOKUP_IDS
      modifies this
      ensures Valid() && Ran() && (r.Ok? <==> old(CanIssue(kind, id)))
      ensures r.Err? ==> slots == old(slots) && objects == old(objects) && grants == old(grants)
      ensures r.Ok? ==>
                && (kind, id) in registry
                && grants == old(grants) + [Grant(kind, rights, owner, registry[(kind, id)], None)]
                && r.value.kind == kind && r.value.rights == rights && (kind != KIND_NONE ==> Matches(slots, r.value))
                && r.value.id < |slots| && slots[r.value.id].owner == owner && r.value.gen == slots[r.value.id].gen
                && 0 < r.value.id && !old(slots)[r.value.id].active
                && (forall k | 0 < k < r.value.id :: old(slots)[k].active)
                && slots[r.value.id].target == registry[(kind, id)] && serial == old(serial)
                && slots == old(slots)[r.value.id := slots[r.value.id]]
                && slots[r.value.id].targetGen == objects[slots[r.value.id].target].generation
                && var o := registry[(kind, id)];
                   objects == old(objects)[o := old(objects)[o].(refs := old(objects)[o].refs + 1)]
    {
      r := Issue(kind, id, rights, owner, None);
    }

    /** cap_duplicate_for; cap_acquire and cap_duplicate are the case of one domain. */
    method Derive(source: Token, rights: Rights, sourceDomain: nat, owner: nat) returns (r: Result<Token>)
      requires Valid()
      modifies this
      ensures Valid() && Ran()
      ensures r.Ok? <==>
                && old(Good(source, rights)) && old(slots[source.id].owner) == sourceDomain
                && (owner != sourceDomain ==> DELEGATE in source.rights)
                && old(CanIssue(source.kind, objects[slots[source.id].target].id % LOOKUP_IDS))
      ensures r.Err? ==> slots == old(slots) && objects == old(objects) && grants == old(grants)
      ensures r.Ok? ==>
                && old(Good(source, rights)) && old(slots[source.id].owner) == sourceDomain
                && r.value.kind == source.kind && r.value.rights == rights && rights <= source.rights
                && (owner != sourceDomain ==> DELEGATE in source.rights)
                && r.value.id < |slots| && slots[r.value.id].owner == owner && Matches(slots, r.value)
                && slots == old(slots)[r.value.id := slots[r.value.id]] && !old(slots)[r.value.id].active
                && slots[r.value.id].target == old(slots)[source.id].target
    {
      var valid := Validate(source, rights, sourceDomain, true);
      if valid.Err? {
        return Err(valid.error);
      }
      var s := slots[source.id];
      if owner != sourceDomain && DELEGATE !in s.rights {
        return Err(CapabilityInvalid);
      }
      if (s.kind, objects[s.target].id % LOOKUP_IDS) in registry {
        LookupAgain(registry, objects, s.target);
      }
      r := Issue(s.kind, objects[valid.value].id % LOOKUP_IDS, rights, owner, Some(cur[source.id]));
    }

    /** cap_release, and cap_revoke, which does the same */
    method Release(t: Token) returns (r: Result<()>)
      requires Valid()
      modifies this
      ensures Valid() && Ran() && (r.Ok? <==> old(Matches(slots, t))) && !Matches(slots, t)
      ensures r.Err? ==> slots == old(slots) && objects == old(objects)
      ensures r.Ok? ==>
                && serial[t.id] == old(serial)[t.id] + 1 && !slots[t.id].active
                && (forall i | 0 <= i < |slots| && i != t.id :: slots[i] == old(slots)[i])
                && var o := old(slots)[t.id].target;
                   && old(objects)[o].refs > 0
                   && objects == old(objects)[o := old(objects)[o].(refs := old(objects)[o].refs - 1)]
    {
      if t.kind == KIND_NONE {
        return Err(InvalidArg);
      }
      if !Matches(slots, t) {
        return Err(NotFound);
      }
      Deactivate(t.id);
      return Ok(());
    }

    /** cap_revoke_for_domain */
    method RevokeForDomain(domain: nat) returns (n: nat)
      requires Valid()
      modifies this
      ensures Valid() && Ran()
      ensures Swept(old(slots), old(objects), domain, MAX_CAPABILITIES, slots, old(serial), serial)
      ensures forall i | 0 < i < |slots| :: !OfDomain(slots[i], objects, domain)
      ensures n == |Doomed(old(slots), old(objects), domain, MAX_CAPABILITIES)|
    {
      hide Held, LogOk, CurOk, Generation, RegistryOk, RefsOk;
      ghost var s, d := slots, objects;
      n := 0;
      var i := 1;
      while i < MAX_CAPABILITIES
        invariant 1 <= i <= MAX_CAPABILITIES && Valid() && Ran()
        invariant Swept(s, d, domain, i, slots, old(serial), serial) && n == |Doomed(s, d, domain, i)|
      {
        DoomedStep(s, d, domain, i);
        SameDoom(s[i], d, objects, domain);
        if OfDomain(slots[i], objects, domain) {
          Deactivate(i);
          n := n + 1;
        }
        i := i + 1;
      }
      forall k | 0 < k < |slots| ensures !OfDomain(slots[k], objects, domain) {
        SameDoom(s[k], d, objects, domain);
      }
    }

    /** cap_revoke_target, once the slot array exists */
    method RevokeTarget(o: nat) returns (n: nat)
      requires Valid()
      modifies this
      ensures Valid() && Ran()
      ensures forall i | 0 < i < |slots| :: !Holds(slots[i], o)
      ensures forall i | 0 < i < |slots| && !Holds(old(slots)[i], o) :: slots[i] == old(slots)[i]
      ensures o in objects ==> objects[o].refs + n == old(objects)[o].refs
    {
      hide Held, LogOk, CurOk, Generation, RegistryOk;
      n := 0;
      var i := 1;
      while i < MAX_CAPABILITIES
        invariant 1 <= i <= MAX_CAPABILITIES && Valid() && Ran()
        invariant forall k | 0 < k < i :: !Holds(slots[k], o)
        invariant forall k | 0 < k < |slots| && (k >= i || !Holds(old(slots)[k], o)) :: slots[k] == old(slots)[k]
        invariant o in objects ==> objects[o].refs + n == old(objects)[o].refs
        invariant n > 0 ==> o in objects
      {
        if Holds(slots[i], o) {
          Deactivate(i);
          n := n + 1;
        }
        i := i + 1;
      }
    }
  }

  lemma NotHeld(slots: seq<Slot>, objects: map<nat, Object>, o: nat)
    requires TargetsOk(slots, objects) && o !in objects
    ensures Held(slots, o) == 0
  {
    NoHolder(slots, o);
  }

  lemma {:induction false} NoHolder(slots: seq<Slot>, o: nat)
    requires forall i | 0 <= i < |slots| :: !Holds(slots[i], o)
    ensures Held(slots, o) == 0
    decreases |slots|
  {
    if slots != [] {
      NoHolder(slots[..|slots| - 1], o);
    }
  }

  /** One object, id 1 of kind 2, is there, no capability is out, and slot 1 has been freed n times. */
  ghost predicate AllFree(t: Table, n: nat)
    reads t
  {
    && t.Valid() && t.kinds == {2} && t.registry == map[(2, 1) := 10]
        && t.objects == map[10 := Object(2, 1, 1, Active, 1)]
    && t.serial[1] == n && forall i | 0 <= i < |t.slots| :: !t.slots[i].active
  }

  /** Domain 7 gets the only capability there is; it is in slot 1, under the generation that n stands for. */
  method GrantFirst(t: Table, n: nat) returns (a: Token)
    requires AllFree(t, n)
    modifies t
    ensures t.Valid() && a == Token(2, 1, Generation(n), {0}) && Matches(t.slots, a) && t.serial == old(t.serial)
    ensures t.registry == old(t.registry) && forall i | 0 <= i < |t.slots| && i != 1 :: !t.slots[i].active
    ensures t.slots[1].target == 10 && t.objects == map[10 := Object(2, 1, 1, Active, 2)]
  {
    hide Held, LogOk, CurOk, RefsOk, Advanced, RegistryOk, Generation;
    assert t.CanIssue(2, 1) by {
      assert !t.slots[1].active;
    }
    var r := t.CapIssue(2, 1, {0}, 7);
    a := r.value;
  }

  /** It is granted and released again. */
  method GrantAndRelease(t: Table, n: nat)
    requires AllFree(t, n)
    modifies t
    ensures AllFree(t, n + 1)
  {
    hide Held, LogOk, CurOk, RefsOk, Advanced, RegistryOk, Generation;
    var a := GrantFirst(t, n);
    var r := t.Release(a);
  }

  /**
    A token that has been released is good again after 65536 releases: the slot has then gone through all its
    generations, and the same grant made once more gives the same token.
   */
  method TokenComesBack() returns (t: Table, a: Token, ghost slots: seq<Slot>, ghost serial: seq<nat>)
    ensures t.Valid() && SerialsOk(slots, serial) && Matches(slots, a) && Matches(t.slots, a)
    ensures |t.serial| == |serial| && t.serial[a.id] == serial[a.id] + GENERATIONS
  {
    t := new Table(map[10 := Object(2, 1, 1, Active, 1)], {2}, map[(2, 1) := 10]);
    SameGeneration(0, GENERATIONS);
    hide Held, LogOk, CurOk, RefsOk, Advanced, RegistryOk, Generation, SmallIds;
    a := GrantFirst(t, 0);
    slots, serial := t.slots, t.serial;
    var r := t.Release(a);
    var n := 1;
    while n < GENERATIONS
      invariant 1 <= n <= GENERATIONS && AllFree(t, n)
    {
      GrantAndRelease(t, n);
      n := n + 1;
    }
    var b := GrantFirst(t, n);
    assert b == a;
  }
}
