/** Tables that phase 1 of a mapping has allocated and blanked but not yet linked. */
module DatPending {
  import opened DatWord
  import opened DatTree
  import opened DatGraft

  /** extra holds exactly the tables made, blank ones for the levels from l on. */
  ghost predicate Blanks(extra: Tables, made: seq<nat>, l: nat)
    decreases |made|
  {
    if made == [] then extra == map[]
    else
      && l <= PAGE
      && made[0] != 0 && made[0] in extra && extra[made[0]] == EmptyTable(l)
      && Blanks(Without(extra, made[0]), made[1..], l + 1)
  }

  lemma NoBlanks(extra: Tables, l: nat)
    ensures Blanks(extra, [], l) <==> extra == map[]
  {
  }

  lemma BlanksFirst(extra: Tables, made: seq<nat>, l: nat)
    requires Blanks(extra, made, l) && made != []
    ensures l <= PAGE && made[0] != 0 && made[0] in extra && extra[made[0]] == EmptyTable(l)
    ensures Blanks(Without(extra, made[0]), made[1..], l + 1)
  {
  }

  lemma {:induction false} BlanksAddLast(extra: Tables, made: seq<nat>, l: nat, f: nat)
    requires Blanks(extra, made, l) && l + |made| <= PAGE && f !in extra && f != 0
    ensures Blanks(extra[f := EmptyTable(l + |made|)], made + [f], l)
    decreases |made|
  {
    var extra' := extra[f := EmptyTable(l + |made|)];
    if made == [] {
      assert Without(extra', f) == map[];
      assert [f][1..] == [];
    } else {
      BlanksAddLast(Without(extra, made[0]), made[1..], l + 1, f);
      assert Without(extra', made[0]) == Without(extra, made[0])[f := EmptyTable(l + |made|)];
      assert (made + [f])[1..] == made[1..] + [f];
    }
  }

  lemma {:induction false} BlanksLast(extra: Tables, made: seq<nat>, l: nat)
    requires Blanks(extra, made, l) && made != []
    ensures var f := made[|made| - 1];
            l + |made| <= PAGE + 1 && f in extra && extra[f] == EmptyTable(l + |made| - 1)
    decreases |made|
  {
    if |made| > 1 {
      BlanksLast(Without(extra, made[0]), made[1..], l + 1);
    }
  }

  lemma SumWithout(t: Tables, extra: Tables, f: nat)
    requires f !in t
    ensures Without(t + extra, f) == t + Without(extra, f)
  {
  }

  lemma SumAdd(t: Tables, extra: Tables, f: nat, row: Row)
    requires f !in t + extra && t.Keys !! extra.Keys
    ensures (t + extra)[f := row] == t + extra[f := row]
    ensures t.Keys !! extra[f := row].Keys
  {
  }

  /** Linking one of the blank tables is hanging it onto the tree. */
  lemma LinkBlank(t: Tables, extra: Tables, l: Level, c: nat, i: nat, f: nat)
    requires 0 < l && c in t && c !in extra && i < |t[c]|
    requires f in extra && extra[f] == EmptyTable(l)
    ensures Store(t + extra, c, i, LinkWord(l - 1, f)) == HangTables(t, l - 1, c, i, f) + Without(extra, f)
  {
  }
}
