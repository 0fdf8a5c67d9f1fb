/** Chained index over slots: bucket heads and next links, by slot number. */
module SlotIndex {
  import opened Wrappers

  /** The end of a chain. */
  const INVALID: nat := 0xFFFF_FFFF

  ghost predicate LinkOk(next: seq<nat>, l: seq<nat>, k: nat)
    requires k < |l|
  {
    && l[k] < |next| && l[k] != INVALID
    && next[l[k]] == if k + 1 < |l| then l[k + 1] else INVALID
  }

  /** l is the chain from head: every slot once, each linked to the following one. */
  ghost predicate Chain(next: seq<nat>, head: nat, l: seq<nat>) {
    && head == (if l == [] then INVALID else l[0])
    && (forall k | 0 <= k < |l| :: l[k] < |next|)
    && (forall k | 0 <= k < |l| :: LinkOk(next, l, k))
    && (forall j, k | 0 <= j < k < |l| :: l[j] != l[k])
  }

  /** One chain for every bucket; a slot is in the chain of its bucket, or in none. */
  ghost predicate Indexed(heads: seq<nat>, next: seq<nat>, lists: seq<seq<nat>>, home: seq<Option<nat>>) {
    && |heads| == |lists| && |next| == |home| < INVALID
    && (forall b {:trigger lists[b]} | 0 <= b < |lists| :: Chain(next, heads[b], lists[b]))
    && (forall b, i {:trigger i in lists[b]} | 0 <= b < |lists| :: i in lists[b] <==>
        0 <= i < |home| && home[i] == Some(b))
  }

  lemma ChainOther(next: seq<nat>, head: nat, l: seq<nat>, x: nat, y: nat)
    requires Chain(next, head, l) && x !in l && x < |next|
    ensures Chain(next[x := y], head, l)
  {
    var next' := next[x := y];
    forall k | 0 <= k < |l| ensures LinkOk(next', l, k) {
      assert LinkOk(next, l, k) && l[k] in l;
    }
  }

  lemma ChainPush(next: seq<nat>, head: nat, l: seq<nat>, x: nat)
    requires Chain(next, head, l) && x !in l && x < |next| && x != INVALID
    ensures Chain(next[x := head], x, [x] + l)
  {
    ChainOther(next, head, l, x, head);
    var next', l' := next[x := head], [x] + l;
    forall k | 0 <= k < |l'| ensures LinkOk(next', l', k) {
      if k > 0 {
        assert LinkOk(next', l, k - 1);
      }
    }
  }

  function Cut(l: seq<nat>, k: nat): seq<nat>
    requires k < |l|
  {
    l[..k] + l[k + 1..]
  }

  lemma ChainPop(next: seq<nat>, head: nat, l: seq<nat>)
    requires Chain(next, head, l) && l != []
    ensures Chain(next[head := INVALID], next[head], Cut(l, 0))
  {
    var m := Cut(l, 0);
    assert forall j | 0 <= j < |m| :: m[j] == l[j + 1];
    assert LinkOk(next, l, 0);
    var next' := next[head := INVALID];
    forall j | 0 <= j < |m| ensures LinkOk(next', m, j) {
      assert LinkOk(next, l, j + 1);
    }
  }

  lemma ChainCut(next: seq<nat>, head: nat, l: seq<nat>, k: nat)
    requires Chain(next, head, l) && 0 < k < |l|
    ensures Chain(next[l[k - 1] := next[l[k]]][l[k] := INVALID], head, Cut(l, k))
  {
    var m := Cut(l, k);
    var next' := next[l[k - 1] := next[l[k]]][l[k] := INVALID];
    assert forall j | 0 <= j < |m| :: m[j] == if j < k then l[j] else l[j + 1];
    assert LinkOk(next, l, k) && LinkOk(next, l, k - 1);
    forall j | 0 <= j < |m| ensures LinkOk(next', m, j) {
      var i := if j < k then j else j + 1;
      assert m[j] == l[i] && l[i] != l[k];
      assert LinkOk(next, l, i);
      if j != k - 1 {
        assert l[i] != l[k - 1] && next'[l[i]] == next[l[i]];
      }
    }
  }

  lemma CutHas(l: seq<nat>, k: nat)
    requires k < |l| && forall i, j | 0 <= i < j < |l| :: l[i] != l[j]
    ensures forall x :: x in Cut(l, k) <==> x in l && x != l[k]
  {
    assert l == l[..k] + [l[k]] + l[k + 1..];
    forall x | x in Cut(l, k) ensures x != l[k] {
      var j :| 0 <= j < |Cut(l, k)| && Cut(l, k)[j] == x;
      assert x == l[if j < k then j else j + 1];
    }
  }

  /** Chains of two buckets have no slot in common. */
  lemma Apart(heads: seq<nat>, next: seq<nat>, lists: seq<seq<nat>>, home: seq<Option<nat>>, b: nat, c: nat, x: nat)
    requires Indexed(heads, next, lists, home) && b < |lists| && c < |lists| && b != c && x in lists[b]
    ensures x !in lists[c]
  {
  }

  lemma Linked(heads: seq<nat>, next: seq<nat>, lists: seq<seq<nat>>, home: seq<Option<nat>>, b: nat, x: nat)
    requires Indexed(heads, next, lists, home) && b < |lists| && x < |home| && home[x] == None
    ensures Indexed(heads[b := x], next[x := heads[b]], lists[b := [x] + lists[b]], home[x := Some(b)])
  {
    forall c | 0 <= c < |lists| ensures x !in lists[c] {
    }
    ChainPush(next, heads[b], lists[b], x);
    var lists' := lists[b := [x] + lists[b]];
    forall c {:trigger lists'[c]} | 0 <= c < |lists'| ensures Chain(next[x := heads[b]], heads[b := x][c], lists'[c]) {
      if c != b {
        ChainOther(next, heads[c], lists[c], x, heads[b]);
      }
    }
    forall c, i {:trigger i in lists'[c]} | 0 <= c < |lists'|
      ensures i in lists'[c] <==> 0 <= i < |home| && home[x := Some(b)][i] == Some(c) {
      assert i in lists[c] <==> 0 <= i < |home| && home[i] == Some(c);
    }
  }

  /** Slot k of the chain of bucket b taken out; m is the new link array. */
  lemma Unlinked(heads: seq<nat>, next: seq<nat>, lists: seq<seq<nat>>, home: seq<Option<nat>>, b: nat, k: nat, h: nat,
                 m: seq<nat>)
    requires Indexed(heads, next, lists, home) && b < |lists| && k < |lists[b]|
    requires Chain(m, h, Cut(lists[b], k)) && |m| == |next|
    requires forall x | 0 <= x < |next| && x !in lists[b] :: m[x] == next[x]
    ensures lists[b][k] < |home|
    ensures Indexed(heads[b := h], m, lists[b := Cut(lists[b], k)], home[lists[b][k] := None])
  {
    var x := lists[b][k];
    assert x in lists[b];
    assert Chain(next, heads[b], lists[b]);
    CutHas(lists[b], k);
    var lists' := lists[b := Cut(lists[b], k)];
    forall c {:trigger lists'[c]} | 0 <= c < |lists'| ensures Chain(m, heads[b := h][c], lists'[c]) {
      if c != b {
        assert Chain(next, heads[c], lists[c]);
        var l := lists[c];
        forall j | 0 <= j < |l| ensures LinkOk(m, l, j) {
          assert LinkOk(next, l, j) && l[j] in lists[c];
        }
      }
    }
    forall c, i {:trigger i in lists'[c]} | 0 <= c < |lists'|
      ensures i in lists'[c] <==> 0 <= i < |home| && home[x := None][i] == Some(c) {
      assert i in lists[c] <==> 0 <= i < |home| && home[i] == Some(c);
    }
  }

  class Index {
    var heads: seq<nat>
    var next: seq<nat>
    ghost var lists: seq<seq<nat>>
    /** The bucket every slot is chained in, if any. */
    ghost var home: seq<Option<nat>>

    ghost predicate Valid()
      reads this
    {
      Indexed(heads, next, lists, home)
    }

    constructor (slots: nat, buckets: nat)
      requires slots < INVALID
      ensures Valid() && |home| == slots && |heads| == buckets && forall i | 0 <= i < slots :: home[i] == None
    {
      heads := seq(buckets, i => INVALID);
      next := seq(slots, i => INVALID);
      lists := seq(buckets, i => []);
      home := seq(slots, i => None);
    }

    /** link_key_locked, link_phys_locked, and the push of release_entry_locked */
    method Link(b: nat, x: nat)
      requires Valid() && b < |heads| && x < |home| && home[x] == None
      modifies this
      ensures Valid() && home == old(home)[x := Some(b)] && |heads| == |old(heads)|
    {
      Linked(heads, next, lists, home, b, x);
      next := next[x := heads[b]];
      heads := heads[b := x];
      lists := lists[b := [x] + lists[b]];
      home := home[x := Some(b)];
    }

    /** unlink_key_locked, unlink_phys_locked: the trap at the end of the chain is out of reach. */
    method Unlink(b: nat, x: nat)
      requires Valid() && b < |heads| && x < |home| && home[x] == Some(b)
      modifies this
      ensures Valid() && home == old(home)[x := None] && |heads| == |old(heads)|
    {
      assert x in lists[b] && Chain(next, heads[b], lists[b]);
      assert LinkOk(next, lists[b], 0);
      ghost var l := lists[b];
      if heads[b] == x {
        ChainPop(next, heads[b], l);
        Unlinked(heads, next, lists, home, b, 0, next[x], next[x := INVALID]);
        heads := heads[b := next[x]];
        next := next[x := INVALID];
        lists := lists[b := Cut(l, 0)];
        home := home[x := None];
        return;
      }
      var before := heads[b];
      ghost var k: nat := 0;
      while next[before] != x
        invariant k + 1 < |l| && l[k] == before && before < |next| && heads == old(heads) && next == old(next)
        invariant lists == old(lists) && home == old(home)
        invariant forall j | 0 <= j <= k :: l[j] != x
        decreases |l| - k
      {
        assert LinkOk(next, l, k) && LinkOk(next, l, k + 1);
        before := next[before];
        k := k + 1;
        assert l[k] != x && k + 1 < |l|;
      }
      assert LinkOk(next, l, k);
      ChainCut(next, heads[b], l, k + 1);
      ghost var m := next[before := next[x]][x := INVALID];
      Unlinked(heads, next, lists, home, b, k + 1, heads[b], m);
      next := next[before := next[x]][x := INVALID];
      lists := lists[b := Cut(l, k + 1)];
      home := home[x := None];
      assert heads == heads[b := heads[b]];
    }
  }
}
