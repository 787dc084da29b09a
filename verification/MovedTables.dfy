// Hash tables in code that has been moved: the engine's search finds each key as before, and leads to the location that
// has moved with the code.
module MovedTables {
  import opened Terms
  import opened Primes
  import H = HashCode
  import opened Code

  /** The pairs with all locations moved by d. */
  function Shifted(es: seq<H.Entry>, d: int): (r: seq<H.Entry>)
    ensures |r| == |es| && forall i {:trigger r[i]} :: 0 <= i < |r| ==> r[i] == H.Entry(es[i].term, es[i].loc + d)
  {
    seq(|es|, i requires 0 <= i < |es| => H.Entry(es[i].term, es[i].loc + d))
  }

  lemma {:induction false} FirstShifted(es: seq<H.Entry>, d: int, key: int)
    ensures H.First(Shifted(es, d), key) ==
      if H.First(es, key).Some? then Some(H.First(es, key).value + d) else None
    decreases |es|
  {
    if es != [] {
      var n := |es| - 1;
      FirstShifted(es[..n], d, key);
      assert Shifted(es, d)[..n] == Shifted(es[..n], d);
    }
  }

  /** The keys of the table are as they were, and its locations are moved by d. */
  ghost predicate Relocated(c: seq<int>, c': seq<int>, pc: nat, size: nat, d: int) {
    && pc + 2 * size <= |c| == |c'|
    && forall i {:trigger H.KeyAt(c', pc, i)} {:trigger H.LocAt(c', pc, i)} :: 0 <= i < size ==>
        H.KeyAt(c', pc, i) == H.KeyAt(c, pc, i) && H.LocAt(c', pc, i) == H.LocAt(c, pc, i) + d
  }

  lemma {:induction false} FilledRelocated(c: seq<int>, c': seq<int>, pc: nat, n: nat, size: nat, d: int)
    requires Relocated(c, c', pc, size, d) && n <= size
    ensures H.Filled(c', pc, n) == H.Filled(c, pc, n)
  {
    if n > 0 { FilledRelocated(c, c', pc, n - 1, size, d); }
  }

  lemma FoundRelocated(c: seq<int>, c': seq<int>, pc: nat, size: nat, d: int, key: int)
    requires size > 0 && Relocated(c, c', pc, size, d) && H.Found(c, pc, size, key)
    ensures H.Found(c', pc, size, key)
  {
    var t :| H.FoundAt(c, pc, size, key, t);
    assert H.FoundAt(c', pc, size, key, t);
  }

  lemma BuiltRelocated(c: seq<int>, c': seq<int>, pc: nat, size: nat, d: int, es: seq<H.Entry>, other: int)
    requires H.Built(c, pc, size, es, other) && Relocated(c, c', pc, size, d)
    ensures H.Built(c', pc, size, Shifted(es, d), other + d)
  {
    FilledRelocated(c, c', pc, size, size, d);
    forall i: nat {:trigger H.KeyAt(c', pc, i)} | i < size
      ensures H.SlotOK(c', pc, i, Shifted(es, d), other + d)
    {
      assert H.SlotOK(c, pc, i, es, other);
      FirstShifted(es, d, H.KeyAt(c, pc, i));
    }
    forall key {:trigger H.First(Shifted(es, d), key)} | H.First(Shifted(es, d), key).Some?
      ensures H.Found(c', pc, size, key)
    {
      FirstShifted(es, d, key);
      FoundRelocated(c, c', pc, size, d, key);
    }
  }

  /** Moved code has, at each of its hash tables, the table of the same pairs with their locations moved. */
  lemma TableMoved(c: Program, d: int, p: nat, es: seq<H.Entry>, other: int)
    requires Begins(c.0, c.1, 0, p) && p < |c.1| && 0 <= c.1[p] < |c.0| && c.0[c.1[p]] == HashTable
    requires p + 2 < |c.1| && c.1[p + 1] >= 0 && c.1[p + 2] == other
    requires H.Built(c.1, p + 3, c.1[p + 1], es, other)
    ensures var b := Moved(c, d);
      b[p + 1] == c.1[p + 1] && b[p + 2] == other + d && H.Built(b, p + 3, b[p + 1], Shifted(es, d), other + d)
  {
    var size, b := c.1[p + 1], Moved(c, d);
    TableWord(c, d, p, 1);
    TableWord(c, d, p, 2);
    forall i: nat {:trigger H.KeyAt(b, p + 3, i)} | i < size
      ensures H.KeyAt(b, p + 3, i) == H.KeyAt(c.1, p + 3, i) && H.LocAt(b, p + 3, i) == H.LocAt(c.1, p + 3, i) + d
    {
      TableWord(c, d, p, 3 + 2 * i);
      TableWord(c, d, p, 4 + 2 * i);
    }
    BuiltRelocated(c.1, b, p + 3, size, d, es, other);
  }

  /** Of the words of a hash table, those with even numbers are labels. */
  lemma TableWord(c: Program, d: int, p: nat, k: nat)
    requires Begins(c.0, c.1, 0, p) && p + 1 < |c.1| && 0 <= c.1[p] < |c.0| && c.0[c.1[p]] == HashTable
    requires 0 < k < 3 + 2 * c.1[p + 1] && p + k < |c.1|
    ensures Moved(c, d)[p + k] == if k % 2 == 0 then c.1[p + k] + d else c.1[p + k]
  {
    AtBoundary(c.0, c.1, 0, p);
    Inside(c.0, c.1, 0, p, p + k);
    assert Moved(c, d)[p + k] == MovedWord(c, d, p + k);
  }

  /** The engine's search in moved code. */
  method ProbeMoved(code: array<int>, p: nat, key: int, ghost c: Program, ghost d: int, ghost es: seq<H.Entry>,
                    ghost other: int)
    returns (loc: int)
    requires Begins(c.0, c.1, 0, p) && p < |c.1| && 0 <= c.1[p] < |c.0| && c.0[c.1[p]] == HashTable
    requires p + 2 < |c.1| && |es| < c.1[p + 1] && c.1[p + 2] == other && key >= 0
    requires H.Built(c.1, p + 3, c.1[p + 1], es, other) && code[..] == Moved(c, d)
    ensures loc == d + if H.First(es, key).Some? then H.First(es, key).value else other
  {
    TableMoved(c, d, p, es, other);
    FirstShifted(es, d, key);
    loc := H.Probe(code, p + 3, code[p + 1], key, Shifted(es, d), other + d);
  }
}
