// A block that the collector can be called on: the old variable at 1 has been bound to the list [X] of the newer
// generation, which is also the only argument.
module CollectorExample {
  import opened Terms
  import opened CollectorInvariant
  import opened ScanLoop
  import opened TrailCount
  import opened TrailRoots
  import opened Collector

  const NIL := Con(128, 0)

  function Block(): seq<Cell> {
    [Int(0), Lis(3), Int(9), Ref(3), NIL, Lis(3), Int(0), Int(0), Int(0), Int(0), Ref(1), Str(1)]
  }

  function Live(): Heap {
    map[1 := Lis(3), 3 := Ref(3), 4 := NIL]
  }

  lemma Trail()
    ensures Entries(Block(), 5, 9, 11) && Distinct(Block(), 2, 9, 11) && Entered(Block(), 9, 11) == [Ref(1), Str(1)]
  {
    var m := Block();
    assert m[10] == Ref(1) && m[11] == Str(1);
    forall i | 9 < i <= 11 ensures Entry(m, 5, i) { }
    forall r: nat | r < 2 ensures Count(m, 10, 12, Ref(r)) <= 1 {
      assert Count(m, 10, 11, Ref(r)) == Count(m, 10, 10, Ref(r)) + if m[10] == Ref(r) then 1 else 0;
    }
  }

  lemma Meaning()
    ensures Decode(Live(), Lis(3), 3) == Some(Pair(Var(3), Const(NIL))) && CellSize(Live(), 3, Lis(3)) == 3
    ensures NoStraddle(Live(), 2, Lis(3))
  {
  }

  lemma Sizes()
    ensures Demand(Live(), 3, Block(), 2, 5, 1, 9, 11) == 6
  {
    Meaning();
    Trail();
    var h := Live();
    assert Block()[5..6] == [Lis(3)];
    assert [Lis(3)][1..] == [] && Work(h, 3, [Lis(3)]) == 3;
    var es := [Ref(1), Str(1)];
    assert es[1..] == [Str(1)] && [Str(1)][1..] == [];
    assert RootWork(h, 3, 2, [Str(1)]) == 0;
  }

  /** The requirements of the collection can be met. */
  lemma BlockIsReady()
    ensures Ready(Live(), 3, Block(), 2, 0, 12, 5, 1, 9, 11, 6)
  {
    Meaning();
    Trail();
    Sizes();
    var h, m := Live(), Block();
    forall x | x in h ensures AreaCell(h, 2, 12, x) { }
    var es := Entered(m, 9, 11);
    forall x | x in h && x < 2 ensures OldCellOK(h, 3, 2, es, x) { assert es[0] == Ref(1); }
    forall i | 0 <= i < 1 ensures ArgumentOK(h, 3, 2, m, 5, 1, i) { assert Argument(m, 5, 1, i) == m[5]; }
  }
}
