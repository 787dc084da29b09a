// arg_size: the room an argument will take in another imago, measured depth first with a stack of its own
// above the stack top; and the loader that sizes a block by it.
module ArgSize {
  import opened Terms
  import opened NameTable
  import opened CopyMeaning
  import opened CopyTerm

  const STACK_UNIT: nat := 1024
  const INIT_WORKER_STACK: nat := 128

  /** What arg_size counts: like the cells of a copy, but constants are counted twice. */
  function SizeOf(t: Term): nat {
    match t
    case Var(_) => 1
    case Const(c) => if c.Con? then 2 else 1
    case Pair(x, y) => 1 + SizeOf(x) + SizeOf(y)
    case Compound(_, args) => 2 + SizesOf(args)
    case Real(_, _) => 4
  }

  function SizesOf(ts: seq<Term>): nat {
    if ts == [] then 0 else SizeOf(ts[0]) + SizesOf(ts[1..])
  }

  /** The constants of a term. */
  function Constants(t: Term): nat {
    match t
    case Const(c) => if c.Con? then 1 else 0
    case Pair(x, y) => Constants(x) + Constants(y)
    case Compound(_, args) => ArgConstants(args)
    case _ => 0
  }

  function ArgConstants(ts: seq<Term>): nat {
    if ts == [] then 0 else Constants(ts[0]) + ArgConstants(ts[1..])
  }

  /** The depth-first measure exceeds the cells of the breadth-first copy by the number of constants. */
  lemma {:induction false} SizeBoundsCopy(t: Term)
    ensures SizeOf(t) == TermSize(t) + Constants(t)
  {
    match t
    case Pair(x, y) => SizeBoundsCopy(x); SizeBoundsCopy(y);
    case Compound(_, args) => SizesBoundCopy(args);
    case _ =>
  }

  lemma {:induction false} SizesBoundCopy(ts: seq<Term>)
    ensures SizesOf(ts) == ArgsSize(ts) + ArgConstants(ts)
  {
    if ts != [] { SizeBoundsCopy(ts[0]); SizesBoundCopy(ts[1..]); }
  }

  lemma {:induction false} SizesAppend(ts: seq<Term>, us: seq<Term>)
    ensures SizesOf(ts + us) == SizesOf(ts) + SizesOf(us)
    ensures ArgsSize(ts + us) == ArgsSize(ts) + ArgsSize(us)
  {
    if ts == [] {
      assert ts + us == us;
    } else {
      assert (ts + us)[1..] == ts[1..] + us;
      SizesAppend(ts[1..], us);
    }
  }

  lemma SizesPop(ts: seq<Term>)
    requires ts != []
    ensures var n := |ts| - 1;
      SizesOf(ts) == SizesOf(ts[..n]) + SizeOf(ts[n]) && ArgsSize(ts) == ArgsSize(ts[..n]) + TermSize(ts[n])
  {
    var n := |ts| - 1;
    assert ts == ts[..n] + [ts[n]] && [ts[n]][1..] == [];
    SizesAppend(ts[..n], [ts[n]]);
    assert SizesOf([ts[n]]) == SizeOf(ts[n]) + SizesOf([ts[n]][1..]);
    assert ArgsSize([ts[n]]) == TermSize(ts[n]) + ArgsSize([ts[n]][1..]);
  }

  lemma {:induction false} SizesPositive(ts: seq<Term>)
    ensures |ts| <= ArgsSize(ts)
  {
    if ts != [] { SizesPositive(ts[1..]); }
  }

  function Higher(a: nat, b: nat): nat {
    if a < b then b else a
  }

  /** The height that the stack of arg_size reaches: the head of a list waits while its tail is measured, and the first
      arguments of a structure while the later ones are. */
  function Height(t: Term): (n: nat)
    ensures n >= 1
  {
    match t
    case Pair(x, y) => Higher(Height(x), 1 + Height(y))
    case Compound(_, args) => if args == [] then 1 else HeightOf(args)
    case _ => 1
  }

  function HeightOf(ts: seq<Term>): (n: nat)
    ensures n >= |ts|
  {
    if ts == [] then 0 else
    var n := |ts| - 1;
    Higher(HeightOf(ts[..n]), n + Height(ts[n]))
  }

  lemma {:induction false} HeightAppend(ts: seq<Term>, us: seq<Term>)
    ensures HeightOf(ts + us) == Higher(HeightOf(ts), |ts| + HeightOf(us))
    decreases |us|
  {
    if us == [] {
      assert ts + us == ts;
    } else {
      var n := |us| - 1;
      assert (ts + us)[..|ts| + n] == ts + us[..n];
      HeightAppend(ts, us[..n]);
    }
  }

  lemma {:induction false} HeightPush(ts: seq<Term>, t: Term)
    ensures HeightOf(ts + [t]) == Higher(HeightOf(ts), |ts| + Height(t))
  {
    assert (ts + [t])[..|ts|] == ts && (ts + [t])[|ts|] == t;
  }

  /** A structure on the stack gives way to its arguments. */
  lemma {:induction false} HeightSpread(ts: seq<Term>, u: Term)
    requires u.Compound?
    ensures HeightOf(ts + [u]) == Higher(|ts| + 1, HeightOf(ts + u.args))
  {
    HeightPush(ts, u);
    HeightAppend(ts, u.args);
  }

  lemma {:induction false} HeightLeaf(ts: seq<Term>, u: Term)
    requires !u.Compound? && !u.Pair?
    ensures HeightOf(ts + [u]) == Higher(|ts| + 1, HeightOf(ts))
  {
    HeightPush(ts, u);
  }

  lemma {:induction false} HeightPair(ts: seq<Term>, u: Term)
    requires u.Pair?
    ensures HeightOf(ts + [u]) == HeightOf(ts + [u.head] + [u.tail]) >= |ts| + 2
  {
    HeightPush(ts, u);
    HeightPush(ts, u.head);
    HeightPush(ts + [u.head], u.tail);
  }

  lemma {:induction false} HeightBelowSize(t: Term)
    ensures Height(t) <= TermSize(t)
  {
    match t
    case Pair(x, y) => HeightBelowSize(x); HeightBelowSize(y);
    case Compound(_, args) => HeightsBelowSizes(args);
    case _ =>
  }

  lemma {:induction false} HeightsBelowSizes(ts: seq<Term>)
    ensures HeightOf(ts) <= ArgsSize(ts)
  {
    if ts != [] {
      var n := |ts| - 1;
      SizesPop(ts);
      SizesPositive(ts[..n]);
      HeightBelowSize(ts[n]);
      HeightsBelowSizes(ts[..n]);
    }
  }

  /** A list of n integers takes a stack of n + 1 cells. */
  lemma {:induction false} ListHeight(ts: seq<Term>, t: Term)
    requires t == ListOf(ts)
    ensures (forall i {:trigger ts[i]} :: 0 <= i < |ts| ==> Height(ts[i]) == 1) ==> Height(t) == |ts| + 1
  {
    if ts != [] {
      assert forall i {:trigger ts[1..][i]} :: 0 <= i < |ts| - 1 ==> ts[1..][i] == ts[i + 1];
      ListHeight(ts[1..], t.tail);
    }
  }

  function ListOf(ts: seq<Term>): Term {
    if ts == [] then Const(Con(ASCII_SIZE, 0)) else Pair(ts[0], ListOf(ts[1..]))
  }

  /** A structure cell that refers to another one leads to no float: is_float looks one step ahead only. */
  ghost predicate Direct(h: Heap, c: Cell) {
    c.Str? && c.a in h && h[c.a].Str? ==> forall j {:trigger Decode(h, c, j)} :: Decode(h, c, j).Some? ==>
        !Decode(h, c, j).value.Real?
  }

  ghost predicate SourceAt(m: seq<Cell>, h: Heap, st: nat, x: nat)
    requires x in h
  {
    x <= st < |m| && m[x] == h[x] && Direct(h, h[x])
  }

  /** The source cells lie at or below the stack top. */
  ghost predicate Source(m: seq<Cell>, h: Heap, st: nat) {
    forall x {:trigger SourceAt(m, h, st, x)} :: x in h ==> SourceAt(m, h, st, x)
  }

  /** The cell c still has to be measured, and denotes t. */
  ghost predicate Waiting(h: Heap, k: nat, c: Cell, t: Term) {
    Decode(h, c, k) == Some(t) && Direct(h, c)
  }

  ghost predicate WaitingAt(m: seq<Cell>, h: Heap, k: nat, st: nat, ts: seq<Term>, i: nat)
    requires i < |ts|
  {
    st + 1 + i < |m| && Waiting(h, k, m[st + 1 + i], ts[i])
  }

  /** The work stack holds cells that denote ts. */
  ghost predicate Stack(m: seq<Cell>, h: Heap, k: nat, st: nat, stk: nat, ts: seq<Term>) {
    && stk == st + 1 + |ts| && Source(m, h, st)
    && forall i {:trigger WaitingAt(m, h, k, st, ts, i)} :: 0 <= i < |ts| ==> WaitingAt(m, h, k, st, ts, i)
  }

  method Push(mem: array<Cell>, st: nat, stk: nat, c: Cell, ghost h: Heap, ghost k: nat, ghost ts: seq<Term>,
              ghost t: Term)
    requires Stack(mem[..], h, k, st, stk, ts) && Waiting(h, k, c, t) && stk < mem.Length
    modifies mem
    ensures Stack(mem[..], h, k, st, stk + 1, ts + [t]) && ChangedWithin(old(mem[..]), mem[..], stk, stk)
  {
    ghost var m, us := mem[..], ts + [t];
    mem[stk] := c;
    forall x | x in h ensures SourceAt(mem[..], h, st, x) { assert SourceAt(m, h, st, x); }
    forall i | 0 <= i < |us| ensures WaitingAt(mem[..], h, k, st, us, i) {
      if i < |ts| { assert WaitingAt(m, h, k, st, ts, i); }
    }
  }

  lemma Popped(m: seq<Cell>, h: Heap, k: nat, st: nat, stk: nat, ts: seq<Term>)
    requires Stack(m, h, k, st, stk, ts) && ts != []
    ensures st + 1 <= stk - 1 < |m| && Stack(m, h, k, st, stk - 1, ts[..|ts| - 1])
    ensures Waiting(h, k, m[stk - 1], ts[|ts| - 1])
    ensures SizesOf(ts) == SizesOf(ts[..|ts| - 1]) + SizeOf(ts[|ts| - 1])
    ensures ArgsSize(ts) == ArgsSize(ts[..|ts| - 1]) + TermSize(ts[|ts| - 1]) && |ts| - 1 <= ArgsSize(ts[..|ts| - 1])
  {
    var n := |ts| - 1;
    SizesPop(ts);
    SizesPositive(ts[..n]);
    assert WaitingAt(m, h, k, st, ts, n);
    forall i | 0 <= i < n ensures WaitingAt(m, h, k, st, ts[..n], i) { assert WaitingAt(m, h, k, st, ts, i); }
  }

  /** The cell that waits at v follows the source cell x: a bound variable, or a structure behind one. */
  lemma Followed(m: seq<Cell>, h: Heap, k: nat, st: nat, x: nat, j: nat, t: Term)
    requires Source(m, h, st) && x in h && Decode(h, h[x], j) == Some(t) && j <= k
    ensures x < |m| && m[x] == h[x] && Waiting(h, k, m[x], t)
  {
    assert SourceAt(m, h, st, x);
    DecodeMore(h, h[x], j, k);
  }

  /** A structure cell denotes a compound term or a float. */
  lemma {:induction false} StrDenotes(h: Heap, c: Cell, j: nat)
    requires c.Str? && Decode(h, c, j).Some?
    ensures Decode(h, c, j).value.Compound? || Decode(h, c, j).value.Real?
    ensures c.a in h && !h[c.a].Str? ==> Decode(h, c, j).value.Real? == h[c.a].Fvl?
    decreases j
  {
    if h[c.a].Str? { StrDenotes(h, h[c.a], j - 1); }
  }

  /** The cell found behind bound variables. */
  method Deref(mem: array<Cell>, st: nat, c: Cell, ghost h: Heap, ghost k: nat, ghost t: Term) returns (term: Cell)
    requires Source(mem[..], h, st) && Waiting(h, k, c, t)
    ensures Waiting(h, k, term, t) && (term.Ref? ==> t.Var?)
  {
    term := c;
    ghost var j: nat := k;
    if term.Ref? { SourceCell(mem[..], h, st, term.a); }
    while term.Ref? && term != mem[term.a]
      invariant Waiting(h, k, term, t) && j <= k && Decode(h, term, j) == Some(t)
      invariant term.Ref? ==> term.a in h && term.a < mem.Length && mem[term.a] == h[term.a]
      decreases j
    {
      Followed(mem[..], h, k, st, term.a, j - 1, t);
      term, j := mem[term.a], j - 1;
      if term.Ref? { SourceCell(mem[..], h, st, term.a); }
    }
  }

  lemma SourceCell(m: seq<Cell>, h: Heap, st: nat, x: nat)
    requires Source(m, h, st) && x in h
    ensures x < |m| && m[x] == h[x]
  {
    assert SourceAt(m, h, st, x);
  }

  /** The structure found behind references from structure to structure. */
  method DerefStr(mem: array<Cell>, st: nat, c: Cell, ghost h: Heap, ghost k: nat,
                  ghost t: Term) returns (v: nat, ghost j: nat)
    requires Source(mem[..], h, st) && Waiting(h, k, c, t) && c.Str? && t.Compound?
    ensures v in h && v < mem.Length && mem[v] == h[v] && h[v].IsFunctor() && h[v].n == |t.args|
    ensures DecodeArgs(h, v + 1, h[v].n, j) == Some(t.args) && j <= k
  {
    var term := c;
    j := k;
    SourceCell(mem[..], h, st, term.a);
    while mem[term.a].Str? && term != mem[term.a]
      invariant term.Str? && j <= k && Decode(h, term, j) == Some(t)
      invariant term.a in h && term.a < mem.Length && mem[term.a] == h[term.a]
      decreases j
    {
      term, j := mem[term.a], j - 1;
      SourceCell(mem[..], h, st, term.a);
    }
    v, j := term.a, j - 1;
  }

  /** The arguments of the structure at v wait to be measured. */
  method PushArgs(mem: array<Cell>, st: nat, stk: nat, v: nat, ghost h: Heap, ghost k: nat, ghost j: nat,
                  ghost ts: seq<Term>, ghost args: seq<Term>)
    returns (stk': nat)
    requires Stack(mem[..], h, k, st, stk, ts) && v in h && v < mem.Length && mem[v] == h[v] && h[v].IsFunctor()
    requires DecodeArgs(h, v + 1, h[v].n, j) == Some(args) && j <= k && stk + h[v].n <= mem.Length
    modifies mem
    ensures stk' == stk + |args| && Stack(mem[..], h, k, st, stk', ts + args)
    ensures ChangedWithin(old(mem[..]), mem[..], stk, stk' - 1)
  {
    stk' := stk;
    ghost var m0 := mem[..];
    assert ts + args[..0] == ts;
    SourceCell(mem[..], h, st, v);
    var i := 1;
    while i <= mem[v].n
      invariant 1 <= i <= |args| + 1 && stk' == stk + i - 1 && mem[v] == h[v]
      invariant Stack(mem[..], h, k, st, stk', ts + args[..i - 1]) && ChangedWithin(m0, mem[..], stk, stk' - 1)
    {
      DecodeArgsAt(h, v + 1, h[v].n, j, i - 1);
      Followed(mem[..], h, k, st, v + 1 + (i - 1), j, args[i - 1]);
      Push(mem, st, stk', mem[v + i], h, k, ts + args[..i - 1], args[i - 1]);
      assert ts + args[..i - 1] + [args[i - 1]] == ts + args[..i];
      SourceCell(mem[..], h, st, v);
      stk', i := stk' + 1, i + 1;
    }
    assert args[..i - 1] == args;
  }

  /** Head and tail of the pair at a wait to be measured. */
  method PushPair(mem: array<Cell>, st: nat, stk: nat, a: nat, ghost h: Heap, ghost k: nat, ghost ts: seq<Term>,
                  ghost u: Term)
    returns (stk': nat, ghost us: seq<Term>)
    requires Stack(mem[..], h, k, st, stk, ts) && Waiting(h, k, Lis(a), u) && st + HeightOf(ts + [u]) < mem.Length
    modifies mem
    ensures Stack(mem[..], h, k, st, stk', us) && ChangedWithin(old(mem[..]), mem[..], stk, stk' - 1)
    ensures 1 + SizesOf(us) == SizesOf(ts) + SizeOf(u) && ArgsSize(us) < ArgsSize(ts) + TermSize(u)
    ensures HeightOf(ts + [u]) == Higher(|ts| + 1, HeightOf(us))
  {
    HeightPair(ts, u);
    Followed(mem[..], h, k, st, a, k - 1, u.head);
    Push(mem, st, stk, mem[a], h, k, ts, u.head);
    Followed(mem[..], h, k, st, a + 1, k - 1, u.tail);
    Push(mem, st, stk + 1, mem[a + 1], h, k, ts + [u.head], u.tail);
    stk', us := stk + 2, ts + [u.head] + [u.tail];
    SizesPop(us);
    SizesPop(ts + [u.head]);
    assert us[..|us| - 1] == ts + [u.head] && (ts + [u.head])[..|ts|] == ts;
  }

  /** A float or a structure; the arguments of a structure wait to be measured. */
  method MeasureStr(mem: array<Cell>, st: nat, stk: nat, term: Cell, ghost h: Heap, ghost k: nat, ghost ts: seq<Term>,
                    ghost u: Term)
    returns (stk': nat, n: nat, ghost us: seq<Term>)
    requires Stack(mem[..], h, k, st, stk, ts) && Waiting(h, k, term, u) && term.Str?
    requires st + HeightOf(ts + [u]) < mem.Length
    modifies mem
    ensures Stack(mem[..], h, k, st, stk', us) && ChangedWithin(old(mem[..]), mem[..], stk, stk' - 1)
    ensures n + SizesOf(us) == SizesOf(ts) + SizeOf(u) && ArgsSize(us) < ArgsSize(ts) + TermSize(u)
    ensures HeightOf(ts + [u]) == Higher(|ts| + 1, HeightOf(us))
  {
    SourceCell(mem[..], h, st, term.a);
    StrDenotes(h, term, k);
    stk', n, us := stk, 4, ts;
    if mem[term.a].Fvl? {
      HeightLeaf(ts, u);
    } else {
      n := 2;
      ghost var j;
      var v;
      v, j := DerefStr(mem, st, term, h, k, u);
      HeightSpread(ts, u);
      SizesAppend(ts, u.args);
      stk' := PushArgs(mem, st, stk, v, h, k, j, ts, u.args);
      us := ts + u.args;
    }
  }

  /** Counts one cell and puts what it refers to on the stack. */
  method Measure(mem: array<Cell>, st: nat, stk: nat, c: Cell, ghost h: Heap, ghost k: nat, ghost ts: seq<Term>,
                 ghost u: Term)
    returns (stk': nat, n: nat, ghost us: seq<Term>)
    requires Stack(mem[..], h, k, st, stk, ts) && Waiting(h, k, c, u) && st + HeightOf(ts + [u]) < mem.Length
    modifies mem
    ensures Stack(mem[..], h, k, st, stk', us) && ChangedWithin(old(mem[..]), mem[..], stk, stk' - 1)
    ensures n + SizesOf(us) == SizesOf(ts) + SizeOf(u) && ArgsSize(us) < ArgsSize(ts) + TermSize(u)
    ensures HeightOf(ts + [u]) == Higher(|ts| + 1, HeightOf(us))
  {
    var term := Deref(mem, st, c, h, k, u);
    stk', n, us := stk, 1, ts;
    if term.Ref? || term.Int? {
      HeightLeaf(ts, u);
    } else if term.Con? {
      n := 2;
      HeightLeaf(ts, u);
    } else if term.Lis? {
      stk', us := PushPair(mem, st, stk, term.a, h, k, ts, u);
    } else {
      stk', n, us := MeasureStr(mem, st, stk, term, h, k, ts, u);
    }
  }

  /** The cell on top is taken off the stack and counted. */
  method Pop(mem: array<Cell>, st: nat, stk: nat, ghost h: Heap, ghost k: nat, ghost ts: seq<Term>)
    returns (stk': nat, n: nat, ghost us: seq<Term>)
    requires Stack(mem[..], h, k, st, stk, ts) && ts != [] && st + HeightOf(ts) < mem.Length
    modifies mem
    ensures Stack(mem[..], h, k, st, stk', us) && ChangedWithin(old(mem[..]), mem[..], st + 1, stk' - 1)
    ensures n + SizesOf(us) == SizesOf(ts) && ArgsSize(us) < ArgsSize(ts) && HeightOf(ts) == Higher(|ts|, HeightOf(us))
  {
    Popped(mem[..], h, k, st, stk, ts);
    ghost var u := ts[|ts| - 1];
    assert ts == ts[..|ts| - 1] + [u];
    stk', n, us := Measure(mem, st, stk - 1, mem[stk - 1], h, k, ts[..|ts| - 1], u);
  }

  /** arg_size: h are the source cells, in which term denotes t.  Nothing checks how far its stack grows: peak is the
      highest cell it has used, which is as far above the stack top as t is high. */
  method ArgSize(mem: array<Cell>, st: nat, term: Cell, ghost h: Heap, ghost k: nat, ghost t: Term)
    returns (size: nat, ghost peak: nat)
    requires Source(mem[..], h, st) && Waiting(h, k, term, t) && st + Height(t) < mem.Length
    modifies mem
    ensures size == SizeOf(t) && peak == st + Height(t) && ChangedWithin(old(mem[..]), mem[..], st + 1, peak)
  {
    size := 0;
    ghost var ts: seq<Term> := [];
    var stk: nat := st + 1;
    ghost var m0 := mem[..];
    Push(mem, st, stk, term, h, k, ts, t);
    HeightPush(ts, t);
    ts, stk := ts + [t], stk + 1;
    peak := st + 1;
    assert ts[..0] == [] && ts[0] == t;
    SizesPop(ts);
    while stk > st + 1
      invariant Stack(mem[..], h, k, st, stk, ts) && ChangedWithin(m0, mem[..], st + 1, peak)
      invariant size + SizesOf(ts) == SizeOf(t) && st + |ts| <= peak && Higher(peak - st, HeightOf(ts)) == Height(t)
      decreases ArgsSize(ts)
    {
      var n;
      stk, n, ts := Pop(mem, st, stk, h, k, ts);
      size, peak := size + n, Higher(peak, stk - 1);
    }
  }

  /** A block of this many words above the stack base holds the argument, its copy never fails. */
  lemma SizedBlock(h: Heap, stackBase: nat, t: Term, ceiling: nat)
    requires stackBase >= 1 && ceiling == stackBase + INIT_WORKER_STACK * STACK_UNIT + SizeOf(t)
    ensures Room(h, stackBase - 1, ceiling - 2, ceiling, TermSize(t)) && stackBase < ceiling
    ensures stackBase - 1 + TermSize(t) + 7 < ceiling - 2
  {
    SizeBoundsCopy(t);
  }

  lemma StillOutside(m: seq<Cell>, m': seq<Cell>, h: Heap, st: nat, base: nat, total: nat)
    requires Source(m, h, st) && st < base && |m'| == |m|
    requires forall x {:trigger m'[x]} :: 0 <= x <= st < |m| ==> m'[x] == m[x]
    ensures Outside(m', h, base - 1, total)
  {
    forall x | x in h ensures CopyTerm.SourceCell(m', h, base - 1, total, x) { assert SourceAt(m, h, st, x); }
  }

  /** The loader of a worker: its block is sized by the argument, whose copy becomes the child's stack.  st is the
      parent's stack top and stackBase the base of the child's stack, with a block of the size computed above it. */
  method SysLoad(mem: array<Cell>, st: nat, term: Cell, pnames: seq<char>, child: Imago, stackBase: nat,
                 ghost h: Heap, ghost k: nat, ghost t: Term)
    returns (ceiling: nat, ghost u: Term)
    requires Source(mem[..], h, st) && Waiting(h, k, term, t) && st < stackBase
    requires term.Con? ==> term.f < ASCII_SIZE + |pnames|
    requires Tables(Copy(h, k, pnames, stackBase, child.names, [], 0, []))
    requires stackBase + INIT_WORKER_STACK * STACK_UNIT + SizeOf(t) <= mem.Length
    modifies mem, child
    ensures ceiling == stackBase + INIT_WORKER_STACK * STACK_UNIT + SizeOf(t)
    ensures child.tt == ceiling - 2 && mem[child.tt + 1] == Str(stackBase)
    ensures child.st == stackBase + TermSize(t) < child.tt
    ensures Copied(mem[..], stackBase, child.st, t, pnames, child.names, u)
    ensures forall x {:trigger mem[x]} :: 0 <= x <= st || st + Height(t) < x < stackBase ==> mem[x] == old(mem[x])
  {
    ghost var m0 := mem[..];
    ghost var peak;
    var v;
    HeightBelowSize(t);
    SizeBoundsCopy(t);
    v, peak := ArgSize(mem, st, term, h, k, t);
    ceiling := stackBase + INIT_WORKER_STACK * STACK_UNIT + v;
    child.st, child.tt := stackBase - 1, ceiling - 1;
    mem[child.tt] := Str(stackBase);
    child.tt := child.tt - 1;
    SizedBlock(h, stackBase, t, ceiling);
    StillOutside(m0, mem[..], h, st, stackBase, TermSize(t));
    var top;
    top, u := child.CopyArg(mem, term, pnames, ceiling, h, k, t);
    child.st := top.value;
  }
}
