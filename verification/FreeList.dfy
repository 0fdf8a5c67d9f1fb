/** In-object free lists whose links are stored encoded. */
module FreeList {

  /** A machine word: the address of an object, or what is stored in one. */
  datatype Addr = Addr(word: bv64)

  const NULL := Addr(0)

  type Memory = map<Addr, Addr>

  /** encode_fp, with the link at the start of the object */
  function Encode(seed: Addr, obj: Addr, next: Addr): Addr {
    Addr(next.word ^ seed.word ^ obj.word)
  }

  /** decode_fp */
  function Decode(seed: Addr, obj: Addr, stored: Addr): Addr {
    Addr(stored.word ^ seed.word ^ obj.word)
  }

  /** What is stored is read back, and an object stores different links as different words. */
  lemma DecodeEncode(seed: Addr, obj: Addr, next: Addr)
    ensures Decode(seed, obj, Encode(seed, obj, next)) == next
  {
  }

  /** get_fp */
  function Next(mem: Memory, seed: Addr, obj: Addr): Addr
    requires obj in mem
  {
    Decode(seed, obj, mem[obj])
  }

  ghost predicate LinkOk(mem: Memory, seed: Addr, l: seq<Addr>, k: nat)
    requires k < |l|
  {
    && l[k] in mem && l[k] != NULL
    && Next(mem, seed, l[k]) == if k + 1 < |l| then l[k + 1] else NULL
  }

  /** l is the list from head, every object once. */
  ghost predicate List(mem: Memory, seed: Addr, head: Addr, l: seq<Addr>) {
    && head == (if l == [] then NULL else l[0])
    && (forall k | 0 <= k < |l| :: LinkOk(mem, seed, l, k))
    && (forall j, k | 0 <= j < k < |l| :: l[j] != l[k])
  }

  lemma OtherList(mem: Memory, seed: Addr, head: Addr, l: seq<Addr>, x: Addr, v: Addr)
    requires List(mem, seed, head, l) && x !in l
    ensures List(mem[x := v], seed, head, l)
  {
    hide Encode, Decode;
    var mem' := mem[x := v];
    forall k | 0 <= k < |l| ensures LinkOk(mem', seed, l, k) {
      assert LinkOk(mem, seed, l, k) && l[k] in l && l[k] != x;
      assert mem'[l[k]] == mem[l[k]] && Next(mem', seed, l[k]) == Next(mem, seed, l[k]);
    }
  }

  lemma PushList(mem: Memory, seed: Addr, head: Addr, l: seq<Addr>, x: Addr)
    requires List(mem, seed, head, l) && x !in l && x != NULL
    ensures List(mem[x := Encode(seed, x, head)], seed, x, [x] + l)
  {
    hide Encode, Decode;
    var mem', l' := mem[x := Encode(seed, x, head)], [x] + l;
    OtherList(mem, seed, head, l, x, Encode(seed, x, head));
    DecodeEncode(seed, x, head);
    forall k | 0 <= k < |l'| ensures LinkOk(mem', seed, l', k) {
      if k > 0 {
        assert LinkOk(mem', seed, l, k - 1) && l'[k] == l[k - 1];
      } else {
        assert l'[0] == x && Next(mem', seed, x) == head && (l != [] ==> l'[1] == l[0]);
      }
    }
  }

  lemma PopList(mem: Memory, seed: Addr, head: Addr, l: seq<Addr>)
    requires List(mem, seed, head, l) && l != []
    ensures head in mem && head == l[0] && List(mem, seed, Next(mem, seed, head), l[1..])
  {
    assert LinkOk(mem, seed, l, 0);
    var l' := l[1..];
    forall k | 0 <= k < |l'| ensures LinkOk(mem, seed, l', k) {
      assert LinkOk(mem, seed, l, k + 1);
    }
  }

  /** The last object of one list linked to the head of another. */
  lemma SpliceLists(mem: Memory, seed: Addr, head: Addr, l: seq<Addr>, head': Addr, l': seq<Addr>)
    requires List(mem, seed, head, l) && l != [] && List(mem, seed, head', l') && forall x | x in l :: x !in l'
    ensures var tail := l[|l| - 1];
            List(mem[tail := Encode(seed, tail, head')], seed, head, l + l')
  {
    hide Encode, Decode;
    var n := |l| - 1;
    var tail := l[n];
    var mem' := mem[tail := Encode(seed, tail, head')];
    OtherList(mem, seed, head', l', tail, Encode(seed, tail, head'));
    DecodeEncode(seed, tail, head');
    var all := l + l';
    forall k | 0 <= k < |all| ensures LinkOk(mem', seed, all, k) {
      if k < n {
        assert LinkOk(mem, seed, l, k) && l[k] != tail && all[k] == l[k] && all[k + 1] == l[k + 1];
        assert mem'[l[k]] == mem[l[k]] && Next(mem', seed, l[k]) == Next(mem, seed, l[k]);
      } else if k == n {
        assert LinkOk(mem, seed, l, k) && all[k] == tail && Next(mem', seed, tail) == head'
            && (l' != [] ==> all[k + 1] == l'[0]);
      } else {
        assert LinkOk(mem', seed, l', k - |l|) && all[k] == l'[k - |l|];
      }
    }
    forall j, k | 0 <= j < k < |all| ensures all[j] != all[k] {
      if j < |l| <= k {
        assert all[j] in l && all[k] in l';
      }
    }
  }

  lemma NonNull(mem: Memory, seed: Addr, head: Addr, l: seq<Addr>)
    requires List(mem, seed, head, l)
    ensures forall k | 0 <= k < |l| :: l[k] != NULL
  {
    hide Decode;
    forall k | 0 <= k < |l| ensures l[k] != NULL {
      assert LinkOk(mem, seed, l, k);
    }
  }

  /** The walk to the last object in deactivate_cpu_slab. */
  method Tail(mem: Memory, seed: Addr, head: Addr, ghost l: seq<Addr>) returns (tail: Addr)
    requires List(mem, seed, head, l) && l != []
    ensures tail == l[|l| - 1]
  {
    hide Encode, Decode;
    tail := head;
    ghost var k := 0;
    assert LinkOk(mem, seed, l, 0);
    while Next(mem, seed, tail) != NULL
      invariant 0 <= k < |l| && tail == l[k] && tail in mem
      decreases |l| - k
    {
      assert LinkOk(mem, seed, l, k);
      k := k + 1;
      assert LinkOk(mem, seed, l, k);
      tail := Next(mem, seed, tail);
    }
    assert LinkOk(mem, seed, l, k);
    NonNull(mem, seed, head, l);
  }
}
