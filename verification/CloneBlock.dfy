// Cloning an imago: its stack and its trail are moved to a block at another address, and every pointer with them.
module CloneBlock {
  import opened Terms

  /** What a cell of the old block has to be in the new one: the same cell with its address moved. */
  function Moved(c: Cell, d: int): Cell
    requires Movable(c, d)
  {
    match c
    case Ref(a) => Ref(a + d)
    case Lis(a) => Lis(a + d)
    case Str(a) => Str(a + d)
    case _ => c
  }

  /** The address of the cell is one of the new block's address space. */
  predicate Movable(c: Cell, d: int) {
    c.Ref? || c.Lis? || c.Str? ==> c.a + d >= 0
  }

  /** is_cst as the bits have it: the words of a float may have any tag. */
  predicate TaggedConstant(c: Cell) {
    if c.Raw? then c.w % 4 == 3 else c.IsCst()
  }

  /** is_fvl as the bits have it. */
  predicate TaggedHeader(c: Cell) {
    c.Fvl? || c == Raw(-1)
  }

  /** A word that is taken for a pointer and moved: its address is made that of d words on, its tag kept. */
  function Adjusted(c: Cell, d: int): Cell
    requires Movable(c, d)
  {
    if c.Raw? then Raw(c.w + 4 * d) else Moved(c, d)
  }

  /** The two words behind a header, and only they, are words of a float. */
  ghost predicate FloatsWhole(m: seq<Cell>) {
    forall i {:trigger FloatWhole(m, i)} :: 0 <= i < |m| ==> FloatWhole(m, i)
  }

  ghost predicate FloatWhole(m: seq<Cell>, i: nat)
    requires i < |m|
  {
    && (m[i].Fvl? ==> i + 2 < |m| && m[i + 1].Raw? && m[i + 2].Raw?)
    && (m[i].Raw? ==> i >= 1 && (m[i - 1].Fvl? || (i >= 2 && m[i - 2].Fvl?)))
  }

  ghost predicate AllMovable(m: seq<Cell>, d: int) {
    forall i :: 0 <= i < |m| ==> Movable(m[i], d)
  }

  class Clone {
    const from: seq<Cell>  // the old block from the bottom of the stack to the ceiling
    const mem: array<Cell> // the same part of the new block
    const distance: int    // from the old block to the new one
    const st: nat          // the stack is used up to here
    const tt: nat          // the trail lies behind this

    constructor (from: seq<Cell>, mem: array<Cell>, distance: int, st: nat, tt: nat)
      ensures this.from == from && this.mem == mem && this.distance == distance && this.st == st && this.tt == tt
    {
      this.from, this.mem, this.distance, this.st, this.tt := from, mem, distance, st, tt;
    }

    ghost predicate Valid() {
      st <= tt < mem.Length == |from| && AllMovable(from, distance) && FloatsWhole(from[..st + 1])
    }

    ghost predicate MovedUpTo(n: nat)
      requires Valid() && n <= mem.Length
      reads mem
    {
      forall i :: 0 <= i < n ==> mem[i] == Moved(from[i], distance)
    }

    /** The scan is at a cell, not inside of a float. */
    ghost predicate AtCell(n: nat)
      requires Valid()
    {
      n <= st + 1 && (n <= st ==> !from[n].Raw?)
    }

    lemma NextCell(n: nat)
      requires Valid() && n <= st && AtCell(n)
      ensures from[n].Fvl? ==> n + 2 <= st && from[n + 1].Raw? && from[n + 2].Raw? && AtCell(n + 3)
      ensures !from[n].Fvl? ==> AtCell(n + 1)
    {
      var m := from[..st + 1];
      assert FloatWhole(m, n);
      if from[n].Fvl? {
        if n + 3 <= st { assert FloatWhole(m, n + 3); assert FloatWhole(m, n + 1); }
      } else if n + 1 <= st {
        assert FloatWhole(m, n + 1);
        if n >= 1 { assert FloatWhole(m, n - 1); }
      }
    }

    /** The fourth step of clone_block: the cells of the stack. */
    method MoveStack()
      requires Valid()
      modifies mem
      ensures MovedUpTo(st + 1)
      ensures forall i :: st < i < mem.Length ==> mem[i] == old(mem[i])
    {
      var tp := 0;
      assert FloatWhole(from[..st + 1], 0);
      while tp <= st
        invariant AtCell(tp) && MovedUpTo(tp)
        invariant forall i :: st < i < mem.Length ==> mem[i] == old(mem[i])
      {
        var v := from[tp];
        NextCell(tp);
        if TaggedConstant(v) {
          if TaggedHeader(v) {
            mem[tp] := from[tp];
            mem[tp + 1] := from[tp + 1];
            mem[tp + 2] := from[tp + 2];
            tp := tp + 3;
          } else {
            mem[tp] := from[tp];
            tp := tp + 1;
          }
        } else {
          mem[tp] := Adjusted(v, distance);
          tp := tp + 1;
        }
      }
    }

    /** The trail: variables, and generation lines, which have the tag of a structure. */
    method MoveTrail()
      requires Valid() && forall i :: tt < i < |from| ==> from[i].Ref? || from[i].Str?
      modifies mem
      ensures forall i :: tt < i < mem.Length ==> mem[i] == Moved(from[i], distance)
      ensures forall i :: 0 <= i <= tt ==> mem[i] == old(mem[i])
    {
      var tp := tt;
      while tp < mem.Length - 1
        invariant tt <= tp < mem.Length
        invariant forall i :: tt < i <= tp ==> mem[i] == Moved(from[i], distance)
        invariant forall i :: 0 <= i <= tt ==> mem[i] == old(mem[i])
      {
        tp := tp + 1;
        var v := from[tp];
        if v.Ref? {
          mem[tp] := Ref(v.a + distance);
        } else {
          mem[tp] := Str(v.a + distance);
        }
      }
    }

    /** The new block's stack is the old one's, moved, and so is the trail. */
    method MoveCells(ghost base: nat)
      requires Valid() && (forall i :: tt < i < |from| ==> from[i].Ref? || from[i].Str?) && base + distance >= 0
      modifies mem
      ensures Isomorphic(from[..st + 1], mem[..st + 1], base, distance)
      ensures MovedTrail(from[tt + 1..], mem[tt + 1..], distance)
      ensures forall i :: st < i <= tt ==> mem[i] == old(mem[i])
    {
      MoveStack();
      MoveTrail();
    }
  }

  ghost function CellAt(m: seq<Cell>, base: nat, x: nat): Cell
    requires base <= x < base + |m|
  {
    m[x - base]
  }

  ghost function Further(x: nat, d: int): nat
    requires x + d >= 0
  {
    x + d
  }

  /** The stack as a heap: its cells from address base on. */
  ghost function StackHeap(m: seq<Cell>, base: nat): Heap {
    map x: nat | base <= x < base + |m| :: CellAt(m, base, x)
  }

  /** Where the variables of the old stack are in the new one. */
  ghost function Addresses(base: nat, n: nat, d: int): map<nat, nat>
    requires base + d >= 0
  {
    map x: nat | base <= x < base + n :: Further(x, d)
  }

  /** The heap of a stack has the stack's cells, each at its address, and the renaming adds the distance. */
  lemma HeapOf(m: seq<Cell>, base: nat, d: int, x: nat)
    requires base + d >= 0
    ensures x in StackHeap(m, base) <==> base <= x < base + |m|
    ensures x in StackHeap(m, base) ==> StackHeap(m, base)[x] == m[x - base]
    ensures x in Addresses(base, |m|, d) <==> base <= x < base + |m|
    ensures x in Addresses(base, |m|, d) ==> Addresses(base, |m|, d)[x] == x + d
  {
  }

  ghost function RenameAll(t: Option<Term>, r: map<nat, nat>): Option<Term> {
    if t.Some? then Some(Rename(t.value, r)) else None
  }

  ghost function RenameEach(ts: Option<seq<Term>>, r: map<nat, nat>): Option<seq<Term>> {
    if ts.Some? then Some(RenameArgs(ts.value, r)) else None
  }

  /** m2 at base + d is the stack m at base, moved. */
  ghost predicate Isomorphic(m: seq<Cell>, m2: seq<Cell>, base: nat, d: int) {
    base + d >= 0 && |m| == |m2| && AllMovable(m, d) && forall i :: 0 <= i < |m| ==> m2[i] == Moved(m[i], d)
  }

  /** Generation lines keep their tag, and variables stay variables. */
  ghost predicate MovedTrail(tr: seq<Cell>, tr2: seq<Cell>, d: int) {
    |tr| == |tr2| && forall i {:trigger tr[i]} {:trigger tr2[i]} :: 0 <= i < |tr| ==>
      (tr[i].Ref? || tr[i].Str?) && Movable(tr[i], d) && tr2[i] == Moved(tr[i], d)
  }

  lemma HeapsAgree(m: seq<Cell>, m2: seq<Cell>, base: nat, d: int, a: nat)
    requires Isomorphic(m, m2, base, d) && a + d >= 0
    ensures a in StackHeap(m, base) <==> a + d in StackHeap(m2, base + d)
    ensures a in StackHeap(m, base) ==>
      && Movable(StackHeap(m, base)[a], d)
      && StackHeap(m2, base + d)[a + d] == Moved(StackHeap(m, base)[a], d)
  {
  }

  /** A cell reads in the new stack exactly as in the old one, up to the addresses of its variables; what denotes
      nothing in the old stack denotes nothing in the new one. */
  lemma {:induction false} SameMeaning(m: seq<Cell>, m2: seq<Cell>, base: nat, d: int, c: Cell, k: nat)
    requires Isomorphic(m, m2, base, d) && Movable(c, d)
    ensures Decode(StackHeap(m2, base + d), Moved(c, d), k)
         == RenameAll(Decode(StackHeap(m, base), c, k), Addresses(base, |m|, d))
    decreases k, 0, 1
  {
    if k == 0 || c.IsCst() {
      SameConstant(m, m2, base, d, c, k);
    } else {
      match c
      case Ref(a) => SameVariable(m, m2, base, d, a, k);
      case Lis(a) => SamePair(m, m2, base, d, a, k);
      case Str(a) => SameStructure(m, m2, base, d, a, k);
    }
  }

  lemma SameConstant(m: seq<Cell>, m2: seq<Cell>, base: nat, d: int, c: Cell, k: nat)
    requires Isomorphic(m, m2, base, d) && Movable(c, d) && (k == 0 || c.IsCst())
    ensures Decode(StackHeap(m2, base + d), Moved(c, d), k)
         == RenameAll(Decode(StackHeap(m, base), c, k), Addresses(base, |m|, d))
  {
  }

  lemma {:induction false} SameVariable(m: seq<Cell>, m2: seq<Cell>, base: nat, d: int, a: nat, k: nat)
    requires Isomorphic(m, m2, base, d) && a + d >= 0 && k > 0
    ensures Decode(StackHeap(m2, base + d), Ref(a + d), k)
         == RenameAll(Decode(StackHeap(m, base), Ref(a), k), Addresses(base, |m|, d))
    decreases k, 0, 0
  {
    HeapsAgree(m, m2, base, d, a);
    if a in StackHeap(m, base) { SameMeaning(m, m2, base, d, StackHeap(m, base)[a], k - 1); }
  }

  lemma {:induction false} SamePair(m: seq<Cell>, m2: seq<Cell>, base: nat, d: int, a: nat, k: nat)
    requires Isomorphic(m, m2, base, d) && a + d >= 0 && k > 0
    ensures Decode(StackHeap(m2, base + d), Lis(a + d), k)
         == RenameAll(Decode(StackHeap(m, base), Lis(a), k), Addresses(base, |m|, d))
    decreases k, 0, 0
  {
    var h := StackHeap(m, base);
    HeapsAgree(m, m2, base, d, a);
    HeapsAgree(m, m2, base, d, a + 1);
    if a in h && a + 1 in h {
      SameMeaning(m, m2, base, d, h[a], k - 1);
      SameMeaning(m, m2, base, d, h[a + 1], k - 1);
    }
  }

  lemma SameFloat(m: seq<Cell>, m2: seq<Cell>, base: nat, d: int, a: nat, k: nat)
    requires Isomorphic(m, m2, base, d) && a + d >= 0 && k > 0
    requires a in StackHeap(m, base) && StackHeap(m, base)[a].Fvl?
    ensures Decode(StackHeap(m2, base + d), Str(a + d), k)
         == RenameAll(Decode(StackHeap(m, base), Str(a), k), Addresses(base, |m|, d))
  {
    HeapsAgree(m, m2, base, d, a);
    HeapsAgree(m, m2, base, d, a + 1);
    HeapsAgree(m, m2, base, d, a + 2);
  }

  lemma {:induction false} SameStructure(m: seq<Cell>, m2: seq<Cell>, base: nat, d: int, a: nat, k: nat)
    requires Isomorphic(m, m2, base, d) && a + d >= 0 && k > 0
    ensures Decode(StackHeap(m2, base + d), Str(a + d), k)
         == RenameAll(Decode(StackHeap(m, base), Str(a), k), Addresses(base, |m|, d))
    decreases k, 0, 0
  {
    var h := StackHeap(m, base);
    HeapsAgree(m, m2, base, d, a);
    if a in h {
      match h[a]
      case Con(f, n) => SameArguments(m, m2, base, d, a + 1, n, k - 1);
      case Fvl => SameFloat(m, m2, base, d, a, k);
      case Str(b) => SameMeaning(m, m2, base, d, h[a], k - 1);
      case _ =>
    }
  }

  lemma {:induction false} SameArguments(m: seq<Cell>, m2: seq<Cell>, base: nat, d: int, a: nat, n: nat, k: nat)
    requires Isomorphic(m, m2, base, d) && a + d >= 0
    ensures DecodeArgs(StackHeap(m2, base + d), a + d, n, k)
         == RenameEach(DecodeArgs(StackHeap(m, base), a, n, k), Addresses(base, |m|, d))
    decreases k, n, 2
  {
    if n > 0 {
      HeapsAgree(m, m2, base, d, a);
      if a in StackHeap(m, base) {
        SameMeaning(m, m2, base, d, StackHeap(m, base)[a], k);
        SameArguments(m, m2, base, d, a + 1, n - 1, k);
      }
    }
  }

  /** What backtracking does with the entries of a trail: the variables become unbound, generation lines are skipped. */
  ghost function Undone(m: seq<Cell>, base: nat, tr: seq<Cell>): (r: seq<Cell>)
    ensures |r| == |m|
    decreases |tr|
  {
    if tr == [] then m else
    Undone(if tr[0].Ref? && base <= tr[0].a < base + |m| then m[tr[0].a - base := tr[0]] else m, base, tr[1..])
  }

  /** A cell on the trail is unbound then, and the others are as they were. */
  lemma {:induction false} UndoneCell(m: seq<Cell>, base: nat, tr: seq<Cell>, i: nat)
    requires i < |m|
    ensures Undone(m, base, tr)[i] == if Ref(base + i) in tr then Ref(base + i) else m[i]
    decreases |tr|
  {
    if tr != [] {
      var c := tr[0];
      UndoneCell(if c.Ref? && base <= c.a < base + |m| then m[c.a - base := c] else m, base, tr[1..], i);
      assert tr == [c] + tr[1..];
    }
  }

  /** Backtracking in the clone leads to the clone of where backtracking leads in the original. */
  lemma {:induction false} UndoneMoves(m: seq<Cell>, m2: seq<Cell>, base: nat, d: int, tr: seq<Cell>, tr2: seq<Cell>)
    requires Isomorphic(m, m2, base, d) && MovedTrail(tr, tr2, d)
    ensures Isomorphic(Undone(m, base, tr), Undone(m2, base + d, tr2), base, d)
    decreases |tr|
  {
    if tr != [] {
      var c := tr[0];
      assert tr[0].Ref? || tr[0].Str?;
      if c.Ref? && base <= c.a < base + |m| {
        UndoneMoves(m[c.a - base := c], m2[c.a - base := Ref(c.a + d)], base, d, tr[1..], tr2[1..]);
      } else {
        UndoneMoves(m, m2, base, d, tr[1..], tr2[1..]);
      }
    }
  }
}
