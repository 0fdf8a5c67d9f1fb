/** The streaming SHA-256 context: block function, update, final. */
module Sha256 {
  import opened Sha256Spec

  datatype Status = Done | InvalidInput

  // ---- the stream a context stands for ------------------------------------------------------

  /** Of the stream m, all but the buffered tail has been absorbed into the state. */
  ghost predicate Streaming(state: Vars, tail: seq<Byte>, m: seq<Byte>) {
    && |tail| <= |m| && (|m| - |tail|) % 64 == 0
    && m[|m| - |tail|..] == tail
    && state == Absorb(InitialHash(), m[..|m| - |tail|])
  }

  lemma StreamStart()
    ensures Streaming(InitialHash(), [], [])
  {
  }

  lemma StreamTake(state: Vars, tail: seq<Byte>, m: seq<Byte>, more: seq<Byte>)
    requires Streaming(state, tail, m)
    ensures Streaming(state, tail + more, m + more)
  {
    var n := |m| - |tail|;
    assert (m + more)[..n] == m[..n] && (m + more)[n..] == m[n..] + more;
  }

  lemma StreamBlock(state: Vars, tail: seq<Byte>, m: seq<Byte>)
    requires Streaming(state, tail, m) && |tail| == 64
    ensures Streaming(Compress(state, tail), [], m)
  {
    hide Compress, InitialHash;
    var n := |m| - 64;
    assert m[..|m|] == m == m[..n] + tail;
    AbsorbConcat(InitialHash(), m[..n], tail);
    assert tail[..64] == tail && tail[64..] == [];
    assert Absorb(state, tail) == Compress(state, tail);
  }

  lemma StreamLength(state: Vars, tail: seq<Byte>, m: seq<Byte>)
    requires Streaming(state, tail, m)
    ensures |tail| <= |m| && (|m| - |tail|) % 64 == 0
  {
  }

  lemma StreamEnd(state: Vars, m: seq<Byte>)
    requires Streaming(state, [], m)
    ensures |m| % 64 == 0 && state == Absorb(InitialHash(), m)
  {
    hide Compress, InitialHash, Absorb;
    assert m[..|m|] == m;
  }

  // ---- the block function ---------------------------------------------------------------------

  /** The sum as the schedule loop orders it. */
  lemma MixOrder(w2: Word, w7: Word, w15: Word, w16: Word)
    ensures Mix(w2, w7, w15, w16) == NextWord(w16, w15, w7, w2)
  {
    hide SmallSigma0, SmallSigma1;
  }

  function NextWord(w16: Word, w15: Word, w7: Word, w2: Word): Word {
    w16 + SmallSigma0(w15) + w7 + SmallSigma1(w2)
  }

  lemma ScheduleStep(block: seq<Byte>, t: nat)
    requires |block| == 64 && t >= 16
    ensures Schedule(block, t)
         == Mix(Schedule(block, t - 2), Schedule(block, t - 7), Schedule(block, t - 15), Schedule(block, t - 16))
  {
    hide Mix, WordAt;
  }

  lemma ScheduleStart(block: seq<Byte>, t: nat)
    requires |block| == 64 && t < 16
    ensures Schedule(block, t) == WordAt(block, 4 * t)
  {
    hide Mix, WordAt;
  }

  /** The schedule loops of sha256_block. */
  method ExpandBlock(block: seq<Byte>) returns (w: array<Word>)
    requires |block| == 64
    ensures fresh(w) && w.Length == 64 && forall k | 0 <= k < 64 :: w[k] == Schedule(block, k)
  {
    hide Schedule, Mix, NextWord, WordAt;
    w := new Word[64];
    var i := 0;
    while i < 16
      invariant 0 <= i <= 16
      invariant forall k | 0 <= k < i :: w[k] == Schedule(block, k)
    {
      ScheduleStart(block, i);
      w[i] := WordAt(block, 4 * i);
      i := i + 1;
    }
    while i < 64
      invariant 16 <= i <= 64
      invariant forall k | 0 <= k < i :: w[k] == Schedule(block, k)
    {
      ScheduleStep(block, i);
      MixOrder(w[i - 2], w[i - 7], w[i - 15], w[i - 16]);
      w[i] := NextWord(w[i - 16], w[i - 15], w[i - 7], w[i - 2]);
      i := i + 1;
    }
  }

  /** sha256_block */
  method Block(state: Vars, block: seq<Byte>) returns (r: Vars)
    requires |block| == 64
    ensures r == Compress(state, block)
  {
    assert |K| == 64;
    hide Schedule, Round, Sum;
    var w := ExpandBlock(block);
    var v := state;
    var i := 0;
    while i < 64
      invariant 0 <= i <= 64
      invariant v == Rounds(state, block, i)
    {
      v := Round(v, K[i], w[i]);
      i := i + 1;
    }
    r := Sum(state, v);
  }

  // ---- the context --------------------------------------------------------------------------

  class Context {
    var state: Vars
    var bitCount: nat
    var bufLen: nat
    const buf: array<Byte>
    var finalized: bool

    /** Everything fed in so far. */
    ghost var msg: seq<Byte>

    ghost predicate Valid()
      reads this, buf
    {
      && buf.Length == 64 && bufLen < 64
      && bitCount == 8 * |msg| && bitCount < MAX_BITS
      && (!finalized ==> Streaming(state, buf[..bufLen], msg))
    }

    /** sha256_init */
    constructor ()
      ensures Valid() && msg == [] && !finalized && fresh(buf)
    {
      state := InitialHash();
      bitCount, bufLen, finalized, msg := 0, 0, false, [];
      buf := new Byte[64];
      new;
      StreamStart();
      assert buf[..0] == [];
    }

    /** One turn of the copying loop of sha256_update. */
    method Fill(data: seq<Byte>, offset: nat, take: nat)
      requires buf.Length == 64 && bufLen + take <= 64 && offset + take <= |data|
      modifies this`bufLen, buf
      ensures bufLen == old(bufLen) + take
      ensures buf[..bufLen] == old(buf[..bufLen]) + data[offset..offset + take]
    {
      var i := 0;
      while i < take
        invariant 0 <= i <= take && bufLen == old(bufLen)
        invariant buf[..bufLen] == old(buf[..bufLen])
        invariant buf[bufLen..bufLen + i] == data[offset..offset + i]
      {
        buf[bufLen + i] := data[offset + i];
        i := i + 1;
      }
      bufLen := bufLen + take;
    }

    /** Absorbs the buffer when it is full. */
    method Flush(ghost m: seq<Byte>)
      requires buf.Length == 64 && bufLen <= 64 && Streaming(state, buf[..bufLen], m)
      modifies this`state, this`bufLen
      ensures bufLen == if old(bufLen) == 64 then 0 else old(bufLen)
      ensures Streaming(state, buf[..bufLen], m)
    {
      if bufLen == 64 {
        hide Streaming, Compress;
        StreamBlock(state, buf[..64], m);
        state := Block(state, buf[..64]);
        bufLen := 0;
        assert buf[..0] == [];
      }
    }

    /** One turn of the loop of sha256_update. */
    method Step(data: seq<Byte>, offset: nat, ghost m: seq<Byte>) returns (take: nat)
      requires buf.Length == 64 && bufLen < 64 && offset < |data| < TWO32
      requires Streaming(state, buf[..bufLen], m + data[..offset])
      modifies this`state, this`bufLen, buf
      ensures 0 < take <= |data| - offset && bufLen < 64 && take == Take(|data| - offset, 64 - old(bufLen))
      ensures Streaming(state, buf[..bufLen], m + data[..offset + take])
    {
      hide Streaming;
      var space := 64 - bufLen;
      take := Take(|data| - offset, space);
      StreamTake(state, buf[..bufLen], m + data[..offset], data[offset..offset + take]);
      assert m + data[..offset] + data[offset..offset + take] == m + data[..offset + take];
      Fill(data, offset, take);
      Flush(m + data[..offset + take]);
    }

    /**
      sha256_update.  The loop below makes progress exactly for inputs of less than 2^32 bytes, as
      UpdateTerminates shows.
     */
    method Update(data: seq<Byte>) returns (r: Status)
      requires Valid() && |data| < TWO32
      modifies this, buf
      ensures Valid() && finalized == old(finalized)
      ensures r == Done <==> !old(finalized) && 8 * (|old(msg)| + |data|) < MAX_BITS
      ensures msg == if r == Done then old(msg) + data else old(msg)
      ensures r != Done ==> state == old(state) && buf[..] == old(buf[..]) && bufLen == old(bufLen)
    {
      hide Streaming;
      if finalized {
        return InvalidInput;
      }
      assert msg + [] == msg;
      if data == [] {
        return Done;
      }
      var maxBytes := (MAX_BITS - 1 - bitCount) / 8;
      SizeTest(bitCount, |data|);
      if |data| > maxBytes {
        return InvalidInput;
      }
      bitCount := bitCount + 8 * |data|;
      var remaining, offset := |data|, 0;
      ghost var m := msg;
      assert data[..0] == [];
      while remaining > 0
        invariant 0 <= offset <= |data| && remaining == |data| - offset
        invariant bufLen < 64 && Streaming(state, buf[..bufLen], m + data[..offset])
        invariant msg == m && bitCount == 8 * (|m| + |data|) && !finalized
      {
        var take := Step(data, offset, m);
        offset, remaining := offset + take, remaining - take;
      }
      assert data[..offset] == data;
      msg := m + data;
      return Done;
    }

    /** Appends zero bytes until the buffer holds n bytes. */
    method ZeroTo(n: nat, ghost p: seq<Byte>) returns (ghost p': seq<Byte>)
      requires buf.Length == 64 && bufLen <= n <= 64 && Streaming(state, buf[..bufLen], p)
      modifies this`bufLen, buf
      ensures bufLen == n && p' == p + Zeros(n - old(bufLen)) && Streaming(state, buf[..bufLen], p')
    {
      hide Streaming;
      p' := p;
      while bufLen < n
        invariant old(bufLen) <= bufLen <= n && p' == p + Zeros(bufLen - old(bufLen))
        invariant Streaming(state, buf[..bufLen], p')
      {
        Append(0, p');
        p' := p' + [0];
      }
    }

    /** buf[buf_len++] = b */
    method Append(b: Byte, ghost p: seq<Byte>)
      requires buf.Length == 64 && bufLen < 64 && Streaming(state, buf[..bufLen], p)
      modifies this`bufLen, buf
      ensures bufLen == old(bufLen) + 1 && Streaming(state, buf[..bufLen], p + [b])
    {
      hide Streaming;
      StreamTake(state, buf[..bufLen], p, [b]);
      ghost var before := buf[..bufLen];
      buf[bufLen] := b;
      bufLen := bufLen + 1;
      assert buf[..bufLen] == before + [b];
    }

    /** The zero bytes of the padding, with a block in between when the length would not fit. */
    method ZeroPad(ghost m: seq<Byte>) returns (ghost k: nat)
      requires buf.Length == 64 && 0 < bufLen <= 64 && Streaming(state, buf[..bufLen], m + [0x80])
      modifies this`state, this`bufLen, buf
      ensures bufLen == 56 && Streaming(state, buf[..bufLen], m + [0x80] + Zeros(k))
      ensures Completes(m, k)
    {
      hide Streaming, Zeros;
      StreamLength(state, buf[..bufLen], m + [0x80]);
      ghost var p := m + [0x80];
      k := 0;
      if bufLen > 56 {
        k := 64 - bufLen;
        p := ZeroTo(64, p);
        Flush(p);
      }
      ghost var k' := 56 - bufLen;
      ZerosConcat(k, k');
      p := ZeroTo(56, p);
      k := k + k';
      assert p == m + [0x80] + Zeros(k);
    }

    /** The length in bits, which completes the last block. */
    method AppendLength(ghost m: seq<Byte>, ghost k: nat)
      requires buf.Length == 64 && bufLen == 56 && Streaming(state, buf[..bufLen], m + [0x80] + Zeros(k))
      requires bitCount == 8 * |m| && Completes(m, k)
      modifies this`state, this`bufLen, buf
      ensures state == Absorb(InitialHash(), Pad(m)) && bufLen == 0
    {
      hide *;
      ghost var p := m + [0x80] + Zeros(k);
      var len := LengthBytes(bitCount);
      PadIs(m, k);
      StreamTake(state, buf[..bufLen], p, len);
      Fill(len, 0, 8);
      assert len[0..8] == len;
      Flush(p + len);
      assert buf[..0] == [];
      StreamEnd(state, p + len);
    }

    /** sha256_final: the digest is SHA-256 of everything fed in, however it was cut. */
    method Final() returns (r: Status, out: seq<Byte>)
      requires Valid()
      modifies this, buf
      ensures Valid() && finalized && (r == Done <==> !old(finalized))
      ensures r == Done ==> out == Sha256(old(msg))
    {
      out := [];
      if finalized {
        return InvalidInput, [];
      }
      ghost var m := msg;
      hide BigEndian, Absorb, Digest, InitialHash, Zeros, Pad, Streaming, LengthBytes;
      Append(0x80, m);
      ghost var k := ZeroPad(m);
      AppendLength(m, k);
      out := Digest(state);
      finalized := true;
      r := Done;
    }
  }

  lemma SizeTest(bits: nat, n: nat)
    requires bits < MAX_BITS && bits % 8 == 0
    ensures n > (MAX_BITS - 1 - bits) / 8 <==> bits + 8 * n >= MAX_BITS
  {
  }

  /** k zero bytes are what the padding of m needs. */
  predicate Completes(m: seq<Byte>, k: nat) {
    k < 64 && (|m| + 1 + k + 8) % 64 == 0
  }

  lemma PadIs(m: seq<Byte>, k: nat)
    requires Completes(m, k)
    ensures Pad(m) == m + [0x80] + Zeros(k) + LengthBytes(8 * |m|)
  {
    hide Pad, Zeros, BigEndian, LengthBytes;
    LengthIsBigEndian(8 * |m|);
    PadUnique(m, k);
  }

  lemma ZerosConcat(k: nat, k': nat)
    ensures Zeros(k) + Zeros(k') == Zeros(k + k')
  {
  }

  /** The eight bytes stored at the end of the last block: shifts of the bit count. */
  function LengthBytes(bits: nat): (r: seq<Byte>)
    ensures |r| == 8
  {
    [(bits / 0x100_0000_0000_0000) % 256, (bits / 0x1_0000_0000_0000) % 256, (bits / 0x100_0000_0000) % 256,
     (bits / 0x1_0000_0000) % 256, (bits / 0x100_0000) % 256, (bits / 0x1_0000) % 256, (bits / 0x100) % 256, bits % 256]
  }

  lemma LengthIsBigEndian(bits: nat)
    ensures LengthBytes(bits) == BigEndian(bits, 8)
  {
    var b1 := bits / 256;
    var b2 := b1 / 256;
    var b3 := b2 / 256;
    var b4 := b3 / 256;
    var b5 := b4 / 256;
    var b6 := b5 / 256;
    var b7 := b6 / 256;
    assert b2 == bits / 0x1_0000 && b3 == bits / 0x100_0000 && b4 == bits / 0x1_0000_0000
        && b5 == bits / 0x100_0000_0000
      && b6 == bits / 0x1_0000_0000_0000 && b7 == bits / 0x100_0000_0000_0000;
    assert BigEndian(b7, 1) == [b7 % 256];
    assert BigEndian(b6, 2) == [b7 % 256, b6 % 256];
    assert BigEndian(b5, 3) == [b7 % 256, b6 % 256, b5 % 256];
    assert BigEndian(b4, 4) == [b7 % 256, b6 % 256, b5 % 256, b4 % 256];
    assert BigEndian(b3, 5) == [b7 % 256, b6 % 256, b5 % 256, b4 % 256, b3 % 256];
    assert BigEndian(b2, 6) == [b7 % 256, b6 % 256, b5 % 256, b4 % 256, b3 % 256, b2 % 256];
    assert BigEndian(b1, 7) == [b7 % 256, b6 % 256, b5 % 256, b4 % 256, b3 % 256, b2 % 256, b1 % 256];
  }

  /** sha256_hash in software, fed in any pieces: cutting the message does not change the digest. */
  method HashPieces(pieces: seq<seq<Byte>>) returns (r: Status, out: seq<Byte>)
    requires forall i | 0 <= i < |pieces| :: |pieces[i]| < TWO32
    ensures r == Done <==> 8 * |Flat(pieces)| < MAX_BITS
    ensures r == Done ==> out == Sha256(Flat(pieces))
  {
    var c := new Context();
    r, out := Done, [];
    var i := 0;
    while i < |pieces|
      invariant 0 <= i <= |pieces| && c.Valid() && fresh(c) && fresh(c.buf)
      invariant !c.finalized && c.msg == Flat(pieces[..i])
    {
      FlatStep(pieces, i);
      r := c.Update(pieces[i]);
      if r != Done {
        return;
      }
      i := i + 1;
    }
    assert pieces[..i] == pieces;
    r, out := c.Final();
  }

  /** The pieces in one. */
  function Flat(pieces: seq<seq<Byte>>): seq<Byte> {
    if pieces == [] then [] else Flat(pieces[..|pieces| - 1]) + pieces[|pieces| - 1]
  }

  lemma FlatStep(pieces: seq<seq<Byte>>, i: nat)
    requires i < |pieces|
    ensures Flat(pieces[..i + 1]) == Flat(pieces[..i]) + pieces[i]
    ensures |Flat(pieces[..i + 1])| <= |Flat(pieces)|
    decreases |pieces| - i
  {
    assert pieces[..i + 1][..i] == pieces[..i];
    if i + 1 < |pieces| {
      FlatStep(pieces, i + 1);
    } else {
      assert pieces[..i + 1] == pieces;
    }
  }

  // ---- the 32-bit casts of the update loop ----------------------------------------------------

  const TWO32: nat := 0x1_0000_0000

  /** How much one turn of the loop takes: the comparison and the copy are made on 32 bits. */
  function Take(remaining: nat, space: nat): nat {
    if remaining % TWO32 < space then remaining % TWO32 else space
  }

  /** Bytes remaining after a number of turns, for a buffer that holds bufLen bytes. */
  function Remaining(remaining: nat, bufLen: nat, turns: nat): nat
    requires bufLen < 64
    decreases turns
  {
    if turns == 0 || remaining == 0 then remaining
    else
      var take := Take(remaining, 64 - bufLen);
      Remaining(remaining - take, (bufLen + take) % 64, turns - 1)
  }

  lemma {:induction false} Stuck(remaining: nat, bufLen: nat, turns: nat)
    requires bufLen < 64 && remaining >= TWO32
    ensures Remaining(remaining, bufLen, turns) >= TWO32
    decreases turns
  {
    if turns > 0 {
      var take := Take(remaining, 64 - bufLen);
      assert remaining - take >= TWO32;
      Stuck(remaining - take, (bufLen + take) % 64, turns - 1);
    }
  }

  lemma {:induction false} Finishes(remaining: nat, bufLen: nat)
    requires bufLen < 64 && remaining < TWO32
    ensures Remaining(remaining, bufLen, remaining) == 0
    decreases remaining
  {
    if remaining > 0 {
      var take := Take(remaining, 64 - bufLen);
      Finishes(remaining - take, (bufLen + take) % 64);
      MoreTurns(remaining - take, (bufLen + take) % 64, remaining - take, remaining - 1);
    }
  }

  lemma {:induction false} MoreTurns(remaining: nat, bufLen: nat, turns: nat, turns': nat)
    requires bufLen < 64 && turns <= turns' && Remaining(remaining, bufLen, turns) == 0
    ensures Remaining(remaining, bufLen, turns') == 0
    decreases turns
  {
    if turns > 0 && remaining > 0 {
      var take := Take(remaining, 64 - bufLen);
      MoreTurns(remaining - take, (bufLen + take) % 64, turns - 1, turns' - 1);
    }
  }

  /** The loop ends exactly for inputs of less than 2^32 bytes; a longer input keeps it turning for ever. */
  lemma UpdateTerminates(size: nat, bufLen: nat)
    requires bufLen < 64
    ensures (exists turns :: Remaining(size, bufLen, turns) == 0) <==> size < TWO32
  {
    if size < TWO32 {
      Finishes(size, bufLen);
    } else {
      forall turns ensures Remaining(size, bufLen, turns) != 0 {
        Stuck(size, bufLen, turns);
      }
    }
  }
}
