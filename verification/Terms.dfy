// The tagged cells of an imago's memory block and the Prolog terms they denote.
//
// A word of the block is a Cell: the constructor is its tag, the address is counted in words from the
// bottom of the stack (stack_base is 0).  A heap is any finite collection of cells that hold term data.
module Terms {

  datatype Option<+T> = None | Some(value: T)

  datatype Cell =
    | Ref(a: nat)          // a variable; unbound when it refers to itself
    | Lis(a: nat)          // a pair: head at a, tail at a + 1
    | Str(a: nat)          // a structure: functor at a, arguments behind it; or a float
    | Int(i: int)
    | Con(f: nat, n: nat)  // the symbol f; a functor when the arity n is positive
    | Fvl                  // the header of a float: two words with its value follow
    | Raw(w: int)          // such a word; its bits may look like any other cell
  {
    /** Refers to no cell. */
    predicate IsCst() { Int? || Con? || Fvl? || Raw? }
    predicate IsFunctor() { Con? && n > 0 }
  }

  type Heap = map<nat, Cell>

  datatype Term =
    | Var(a: nat)
    | Const(c: Cell)
    | Pair(head: Term, tail: Term)
    | Compound(f: nat, args: seq<Term>)
    | Real(w1: Cell, w2: Cell)

  /** The term a cell denotes, if k levels of reading suffice; None for what is cyclic or no term at all. */
  function Decode(h: Heap, c: Cell, k: nat): Option<Term>
    decreases k, 0
  {
    if k == 0 then None else
    match c
    case Ref(a) =>
      if a !in h then None else if h[a] == c then Some(Var(a)) else Decode(h, h[a], k - 1)
    case Int(_) => Some(Const(c))
    case Con(_, n) => if n == 0 then Some(Const(c)) else None
    case Fvl => None
    case Raw(_) => None
    case Lis(a) =>
      if a !in h || a + 1 !in h then None else
      var head, tail := Decode(h, h[a], k - 1), Decode(h, h[a + 1], k - 1);
      if head.Some? && tail.Some? then Some(Pair(head.value, tail.value)) else None
    case Str(a) =>
      if a !in h then None else
      match h[a]
      case Con(f, n) =>
        var args := DecodeArgs(h, a + 1, n, k - 1);
        if n > 0 && args.Some? then Some(Compound(f, args.value)) else None
      case Fvl =>
        if a + 1 in h && a + 2 in h && h[a + 1].Raw? && h[a + 2].Raw? then Some(Real(h[a + 1], h[a + 2])) else None
      case Str(b) => if b == a then None else Decode(h, h[a], k - 1)
      case _ => None
  }

  function DecodeArgs(h: Heap, a: nat, n: nat, k: nat): (r: Option<seq<Term>>)
    ensures r.Some? ==> |r.value| == n
    decreases k, n
  {
    if n == 0 then Some([]) else
    if a !in h then None else
    var first, rest := Decode(h, h[a], k), DecodeArgs(h, a + 1, n - 1, k);
    if first.Some? && rest.Some? then Some([first.value] + rest.value) else None
  }

  /** c denotes t: reading c to some depth gives t. */
  ghost predicate Denotes(h: Heap, c: Cell, t: Term) {
    exists k :: Decode(h, c, k) == Some(t)
  }

  lemma {:induction false} DecodeMore(h: Heap, c: Cell, k: nat, j: nat)
    requires Decode(h, c, k).Some? && k <= j
    ensures Decode(h, c, j) == Decode(h, c, k)
    decreases k, 0
  {
    match c
    case Ref(a) => if h[a] != c { DecodeMore(h, h[a], k - 1, j - 1); }
    case Lis(a) => DecodeMore(h, h[a], k - 1, j - 1); DecodeMore(h, h[a + 1], k - 1, j - 1);
    case Str(a) =>
      if h[a].Con? { DecodeArgsMore(h, a + 1, h[a].n, k - 1, j - 1); }
      if h[a].Str? { DecodeMore(h, h[a], k - 1, j - 1); }
    case _ =>
  }

  lemma {:induction false} DecodeArgsMore(h: Heap, a: nat, n: nat, k: nat, j: nat)
    requires DecodeArgs(h, a, n, k).Some? && k <= j
    ensures DecodeArgs(h, a, n, j) == DecodeArgs(h, a, n, k)
    decreases k, n
  {
    if n > 0 {
      DecodeMore(h, h[a], k, j);
      DecodeArgsMore(h, a + 1, n - 1, k, j);
    }
  }

  /** A cell denotes at most one term. */
  lemma DenotesUnique(h: Heap, c: Cell, t: Term, u: Term)
    requires Denotes(h, c, t) && Denotes(h, c, u)
    ensures t == u
  {
    var k :| Decode(h, c, k) == Some(t);
    var j :| Decode(h, c, j) == Some(u);
    if k <= j { DecodeMore(h, c, k, j); } else { DecodeMore(h, c, j, k); }
  }

  lemma {:induction false} DecodeArgsAt(h: Heap, a: nat, n: nat, k: nat, i: nat)
    requires DecodeArgs(h, a, n, k).Some? && i < n
    ensures a + i in h && Decode(h, h[a + i], k) == Some(DecodeArgs(h, a, n, k).value[i])
    decreases n
  {
    if i > 0 { DecodeArgsAt(h, a + 1, n - 1, k, i - 1); }
  }

  /** How the terms of a block's cells make up the term of the block. */
  lemma RefJoins(h: Heap, a: nat, g: nat) returns (k: nat)
    requires a in h && Decode(h, h[a], g).Some?
    ensures Decode(h, Ref(a), k) == Decode(h, h[a], g)
  {
    k := if h[a] == Ref(a) then g else g + 1;
  }

  lemma PairJoins(h: Heap, a: nat, g1: nat, g2: nat) returns (k: nat)
    requires a in h && a + 1 in h && Decode(h, h[a], g1).Some? && Decode(h, h[a + 1], g2).Some?
    ensures Decode(h, Lis(a), k) == Some(Pair(Decode(h, h[a], g1).value, Decode(h, h[a + 1], g2).value))
  {
    k := if g1 < g2 then g2 else g1;
    DecodeMore(h, h[a], g1, k);
    DecodeMore(h, h[a + 1], g2, k);
    k := k + 1;
  }

  lemma ArgsJoin(h: Heap, a: nat, n: nat, g1: nat, g2: nat) returns (k: nat)
    requires n > 0 && a in h && Decode(h, h[a], g1).Some? && DecodeArgs(h, a + 1, n - 1, g2).Some?
    ensures DecodeArgs(h, a, n, k) == Some([Decode(h, h[a], g1).value] + DecodeArgs(h, a + 1, n - 1, g2).value)
  {
    k := if g1 < g2 then g2 else g1;
    DecodeMore(h, h[a], g1, k);
    DecodeArgsMore(h, a + 1, n - 1, g2, k);
  }

  lemma StructJoins(h: Heap, a: nat, g: nat)
    requires a in h && h[a].IsFunctor() && DecodeArgs(h, a + 1, h[a].n, g).Some?
    ensures Decode(h, Str(a), g + 1) == Some(Compound(h[a].f, DecodeArgs(h, a + 1, h[a].n, g).value))
  {
  }

  /** The number of cells a term unfolds to, counting the cell that refers to it. */
  function TermSize(t: Term): (s: nat)
    ensures s >= 1
  {
    match t
    case Var(_) => 1
    case Const(_) => 1
    case Pair(x, y) => 1 + TermSize(x) + TermSize(y)
    case Compound(_, args) => 2 + ArgsSize(args)
    case Real(_, _) => 4
  }

  function ArgsSize(ts: seq<Term>): nat {
    if ts == [] then 0 else TermSize(ts[0]) + ArgsSize(ts[1..])
  }

  /** The term with its variables renamed. */
  function Rename(t: Term, r: map<nat, nat>): Term {
    match t
    case Var(a) => Var(if a in r then r[a] else a)
    case Const(_) => t
    case Pair(x, y) => Pair(Rename(x, r), Rename(y, r))
    case Compound(f, args) => Compound(f, RenameArgs(args, r))
    case Real(_, _) => t
  }

  function RenameArgs(ts: seq<Term>, r: map<nat, nat>): (us: seq<Term>)
    ensures |us| == |ts|
  {
    if ts == [] then [] else [Rename(ts[0], r)] + RenameArgs(ts[1..], r)
  }

  /** q leads back from where r leads the variables vs. */
  ghost predicate LeadsBack(vs: seq<nat>, r: map<nat, nat>, q: map<nat, nat>) {
    forall v {:trigger v in vs} :: v in vs ==> v in r && r[v] in q && q[r[v]] == v
  }

  lemma LeadBackParts(vs: seq<nat>, ws: seq<nat>, r: map<nat, nat>, q: map<nat, nat>)
    requires LeadsBack(vs + ws, r, q)
    ensures LeadsBack(vs, r, q) && LeadsBack(ws, r, q)
  {
    forall v | v in vs || v in ws ensures v in r && r[v] in q && q[r[v]] == v { assert v in vs + ws; }
  }

  /** A renaming that can be led back changes nothing but the names of variables. */
  lemma {:induction false} RenameUndone(t: Term, r: map<nat, nat>, q: map<nat, nat>)
    requires LeadsBack(Occurrences(t), r, q)
    ensures Rename(Rename(t, r), q) == t
    decreases t, 1
  {
    match t
    case Pair(x, y) =>
      LeadBackParts(Occurrences(x), Occurrences(y), r, q);
      RenameUndone(x, r, q);
      RenameUndone(y, r, q);
    case Compound(f, args) => RenameArgsUndone(args, r, q);
    case Var(a) => assert a in Occurrences(t);
    case _ =>
  }

  lemma {:induction false} RenameArgsUndone(ts: seq<Term>, r: map<nat, nat>, q: map<nat, nat>)
    requires LeadsBack(ArgOccurrences(ts), r, q)
    ensures RenameArgs(RenameArgs(ts, r), q) == ts
    decreases ts, 0
  {
    if ts != [] {
      LeadBackParts(Occurrences(ts[0]), ArgOccurrences(ts[1..]), r, q);
      RenameUndone(ts[0], r, q);
      RenameArgsUndone(ts[1..], r, q);
      assert RenameArgs(ts, r)[1..] == RenameArgs(ts[1..], r);
    }
  }

  /** The occurrences of variables, from left to right. */
  function Occurrences(t: Term): seq<nat> {
    match t
    case Var(a) => [a]
    case Const(_) => []
    case Pair(x, y) => Occurrences(x) + Occurrences(y)
    case Compound(_, args) => ArgOccurrences(args)
    case Real(_, _) => []
  }

  function ArgOccurrences(ts: seq<Term>): seq<nat> {
    if ts == [] then [] else Occurrences(ts[0]) + ArgOccurrences(ts[1..])
  }

  /** No variable occurs twice. */
  ghost predicate Linear(t: Term) {
    NoRepeat(Occurrences(t))
  }

  ghost predicate NoRepeat(vs: seq<nat>) {
    forall i, j :: 0 <= i < j < |vs| ==> vs[i] != vs[j]
  }

  /** A structure cell leads to a functor through structure cells only, or directly to a float. */
  ghost predicate StrOK(h: Heap, c: Cell) {
    c.Str? ==> c.a in h && (h[c.a].Fvl? || exists n {:trigger ToFunctor(h, c, n)} :: ToFunctor(h, c, n))
  }

  ghost predicate ToFunctor(h: Heap, c: Cell, n: nat)
    decreases n
  {
    && c.Str? && c.a in h
    && if n == 0 then h[c.a].IsFunctor() else h[c.a].Str? && ToFunctor(h, h[c.a], n - 1)
  }

  ghost predicate Structures(h: Heap) {
    forall a {:trigger StrOKAt(h, a)} :: a in h ==> StrOKAt(h, a)
  }

  ghost predicate StrOKAt(h: Heap, a: nat)
    requires a in h
  {
    StrOK(h, h[a])
  }

  /** k holds all cells of h. */
  ghost predicate Within(h: Heap, k: Heap) {
    forall x {:trigger x in h} {:trigger h[x]} :: x in h ==> x in k && k[x] == h[x]
  }

  lemma {:induction false} DecodeWithin(h: Heap, g: Heap, c: Cell, k: nat)
    requires Within(h, g) && Decode(h, c, k).Some?
    ensures Decode(g, c, k) == Decode(h, c, k)
    decreases k, 0
  {
    match c
    case Ref(a) => if h[a] != c { DecodeWithin(h, g, h[a], k - 1); }
    case Lis(a) => DecodeWithin(h, g, h[a], k - 1); DecodeWithin(h, g, h[a + 1], k - 1);
    case Str(a) =>
      if h[a].Con? { DecodeArgsWithin(h, g, a + 1, h[a].n, k - 1); }
      if h[a].Str? { DecodeWithin(h, g, h[a], k - 1); }
    case _ =>
  }

  lemma {:induction false} DecodeArgsWithin(h: Heap, g: Heap, a: nat, n: nat, k: nat)
    requires Within(h, g) && DecodeArgs(h, a, n, k).Some?
    ensures DecodeArgs(g, a, n, k) == DecodeArgs(h, a, n, k)
    decreases k, n
  {
    if n > 0 {
      DecodeWithin(h, g, h[a], k);
      DecodeArgsWithin(h, g, a + 1, n - 1, k);
    }
  }

  /** A larger heap means the same. */
  lemma DenotesWithin(h: Heap, g: Heap, c: Cell, t: Term)
    requires Within(h, g) && Denotes(h, c, t)
    ensures Denotes(g, c, t)
  {
    var k: nat :| Decode(h, c, k) == Some(t);
    DecodeWithin(h, g, c, k);
  }

  lemma {:induction false} ToFunctorWithin(h: Heap, g: Heap, c: Cell, n: nat)
    requires Within(h, g) && ToFunctor(h, c, n)
    ensures ToFunctor(g, c, n)
    decreases n
  {
    if n > 0 { ToFunctorWithin(h, g, h[c.a], n - 1); }
  }

  lemma StrOKWithin(h: Heap, g: Heap, c: Cell)
    requires Within(h, g) && StrOK(h, c)
    ensures StrOK(g, c)
  {
    if c.Str? && !h[c.a].Fvl? {
      var n: nat :| ToFunctor(h, c, n);
      ToFunctorWithin(h, g, c, n);
    }
  }

  /** The variables of a term are cells of the heap it is read from. */
  lemma {:induction false} VariablesInHeap(h: Heap, c: Cell, k: nat, v: nat)
    requires Decode(h, c, k).Some? && v in Occurrences(Decode(h, c, k).value)
    ensures v in h
    decreases k, 0
  {
    match c
    case Ref(a) => if h[a] != c { VariablesInHeap(h, h[a], k - 1, v); }
    case Lis(a) =>
      if v in Occurrences(Decode(h, h[a], k - 1).value) {
        VariablesInHeap(h, h[a], k - 1, v);
      } else {
        VariablesInHeap(h, h[a + 1], k - 1, v);
      }
    case Str(a) =>
      if h[a].Con? { ArgVariablesInHeap(h, a + 1, h[a].n, k - 1, v); }
      if h[a].Str? { VariablesInHeap(h, h[a], k - 1, v); }
    case _ =>
  }

  lemma {:induction false} ArgVariablesInHeap(h: Heap, a: nat, n: nat, k: nat, v: nat)
    requires DecodeArgs(h, a, n, k).Some? && v in ArgOccurrences(DecodeArgs(h, a, n, k).value)
    ensures v in h
    decreases k, n
  {
    if n > 0 {
      assert DecodeArgs(h, a, n, k).value[1..] == DecodeArgs(h, a + 1, n - 1, k).value;
      if v in Occurrences(Decode(h, h[a], k).value) {
        VariablesInHeap(h, h[a], k, v);
      } else {
        ArgVariablesInHeap(h, a + 1, n - 1, k, v);
      }
    }
  }

  /** The bind steps of the engine and of msg_unify: a variable x that is bound to c goes on the trail if it lies below
      the choice point, or, unless c is a constant, up to the generation line. */
  predicate MustTrail(x: nat, c: Cell, gl: nat, bb: nat) {
    if c.IsCst() then x < bb else x <= gl
  }
}
