// The copy of a term from one imago's block to another's, while it is being built breadth first, and what
// the finished copy denotes.
module CopyMeaning {
  import opened Terms
  import opened NameTable

  /** A term without the identity of its variables and with its symbols spelled out. */
  datatype Shape =
    | Hole
    | Plain(c: Cell)
    | Atom(name: Symbol)
    | Cons(head: Shape, tail: Shape)
    | App(name: Symbol, args: seq<Shape>)
    | Float(w1: Cell, w2: Cell)

  function ShapeOf(t: Term, names: seq<char>): Shape {
    match t
    case Var(_) => Hole
    case Const(c) => if c.Con? then Atom(SymbolOf(names, c.f)) else Plain(c)
    case Pair(x, y) => Cons(ShapeOf(x, names), ShapeOf(y, names))
    case Compound(f, args) => App(SymbolOf(names, f), ShapesOf(args, names))
    case Real(w1, w2) => Float(w1, w2)
  }

  function ShapesOf(ts: seq<Term>, names: seq<char>): (r: seq<Shape>)
    ensures |r| == |ts|
  {
    if ts == [] then [] else [ShapeOf(ts[0], names)] + ShapesOf(ts[1..], names)
  }

  /** What a cell of the copy stands for; lo numbers the occurrences of variables to the left of it. */
  datatype Origin =
    | Arg(t: Term, lo: nat)
    | Functor(f: nat, n: nat)
    | Header
    | Raw1(w: Cell)
    | Raw2(w: Cell)

  datatype Copy = Copy(
    h: Heap,             // the source cells
    k: nat,              // a depth at which the term can be read
    pnames: seq<char>,   // the source's name table
    base: nat,           // where the copy starts
    names: seq<char>,    // the child's name table
    b: seq<Cell>,        // the cells of the copy
    at: nat,             // the scan pointer
    org: seq<Origin>)    // what the cells stand for

  /** The symbol f of the copy is called what g is called in the source, and is where its name is found. */
  ghost predicate Renamed(s: Copy, g: nat, f: nat) {
    f < ASCII_SIZE + |s.names| && SymbolOf(s.names, f) == SymbolOf(s.pnames, g) && Canonical(s.names, f)
  }

  /** All symbols of the term are where their names are found. */
  ghost predicate Spelled(t: Term, names: seq<char>)
    decreases t
  {
    match t
    case Const(c) => c.Con? ==> c.n == 0 && Canonical(names, c.f)
    case Pair(x, y) => Spelled(x, names) && Spelled(y, names)
    case Compound(f, args) => Canonical(names, f) && AllSpelled(args, names)
    case _ => true
  }

  ghost predicate AllSpelled(ts: seq<Term>, names: seq<char>)
    decreases ts
  {
    ts != [] ==> Spelled(ts[0], names) && AllSpelled(ts[1..], names)
  }

  /** A shape leaves out nothing but which variables there are, and which of several symbols with one name. */
  lemma {:induction false} ShapeTells(t: Term, u: Term, names: seq<char>)
    requires ShapeOf(t, names) == ShapeOf(u, names) && Occurrences(t) == Occurrences(u)
    requires Spelled(t, names) && Spelled(u, names)
    ensures t == u
    decreases t, 1
  {
    match t
    case Const(c) =>
      if c.Con? { CanonicalUnique(names, c.f, u.c.f); }
    case Pair(x, y) =>
      OccurrencesFit(x, u.head, names);
      PartsEqual(Occurrences(x), Occurrences(y), Occurrences(u.head), Occurrences(u.tail));
      ShapeTells(x, u.head, names);
      ShapeTells(y, u.tail, names);
    case Compound(f, args) =>
      CanonicalUnique(names, f, u.f);
      ShapesTell(args, u.args, names);
    case _ =>
  }

  lemma {:induction false} ShapesTell(ts: seq<Term>, us: seq<Term>, names: seq<char>)
    requires ShapesOf(ts, names) == ShapesOf(us, names) && ArgOccurrences(ts) == ArgOccurrences(us)
    requires AllSpelled(ts, names) && AllSpelled(us, names)
    ensures ts == us
    decreases ts, 0
  {
    if ts != [] {
      assert ShapesOf(ts, names)[0] == ShapesOf(us, names)[0];
      assert ShapesOf(ts, names)[1..] == ShapesOf(us, names)[1..];
      OccurrencesFit(ts[0], us[0], names);
      PartsEqual(Occurrences(ts[0]), ArgOccurrences(ts[1..]), Occurrences(us[0]), ArgOccurrences(us[1..]));
      ShapeTells(ts[0], us[0], names);
      ShapesTell(ts[1..], us[1..], names);
    }
  }

  lemma PartsEqual(a: seq<nat>, b: seq<nat>, c: seq<nat>, d: seq<nat>)
    requires a + b == c + d && |a| == |c|
    ensures a == c && b == d
  {
    assert a == (a + b)[..|a|] && c == (c + d)[..|c|];
    assert b == (a + b)[|a|..] && d == (c + d)[|c|..];
  }

  lemma {:induction false} OccurrencesFit(t: Term, u: Term, names: seq<char>)
    requires ShapeOf(t, names) == ShapeOf(u, names)
    ensures |Occurrences(t)| == |Occurrences(u)|
    decreases t, 1
  {
    match t
    case Pair(x, y) =>
      OccurrencesFit(x, u.head, names);
      OccurrencesFit(y, u.tail, names);
    case Compound(f, args) => ArgOccurrencesFit(args, u.args, names);
    case _ =>
  }

  lemma {:induction false} ArgOccurrencesFit(ts: seq<Term>, us: seq<Term>, names: seq<char>)
    requires ShapesOf(ts, names) == ShapesOf(us, names)
    ensures |ArgOccurrences(ts)| == |ArgOccurrences(us)|
    decreases ts, 0
  {
    if ts != [] {
      assert ShapesOf(ts, names)[0] == ShapesOf(us, names)[0];
      assert ShapesOf(ts, names)[1..] == ShapesOf(us, names)[1..];
      OccurrencesFit(ts[0], us[0], names);
      ArgOccurrencesFit(ts[1..], us[1..], names);
    }
  }

  ghost predicate Known(s: Copy, c: Cell) {
    c.Con? ==> c.f < ASCII_SIZE + |s.pnames|
  }

  ghost predicate ArgsFrom(s: Copy, ts: seq<Term>, lo: nat, q: nat)
    decreases |ts|
  {
    ts == [] ||
    (q < |s.org| && s.org[q] == Arg(ts[0], lo) && ArgsFrom(s, ts[1..], lo + |Occurrences(ts[0])|, q + 1))
  }

  /** The cell v is a finished copy, at c, of the term t. */
  ghost predicate Built(s: Copy, t: Term, lo: nat, c: nat, v: Cell) {
    match t
    case Var(_) => v == Ref(s.base + c)
    case Const(d) => if d.Con? then v.Con? && v.n == 0 && Renamed(s, d.f, v.f) else d.Int? && v == d
    case Pair(x, y) => v.Lis? && v.a >= s.base && ArgsFrom(s, [x, y], lo, v.a - s.base)
    case Compound(f, args) =>
      && v.Str? && v.a >= s.base && v.a - s.base < |s.org| && args != [] && s.org[v.a - s.base] == Functor(f, |args|)
      && ArgsFrom(s, args, lo, v.a - s.base + 1)
    case Real(w1, w2) =>
      && v.Str? && v.a >= s.base && v.a - s.base + 2 < |s.org|
      && s.org[v.a - s.base..v.a - s.base + 3] == [Header, Raw1(w1), Raw2(w2)]
  }

  ghost predicate DoneCell(s: Copy, c: nat)
    requires c < |s.b| == |s.org|
  {
    match s.org[c]
    case Arg(t, lo) => Built(s, t, lo, c, s.b[c])
    case Functor(f, n) => s.b[c].Con? && s.b[c].n == n && Renamed(s, f, s.b[c].f)
    case Header => s.b[c] == Fvl
    case Raw1(w) => s.b[c] == w && w.Raw?
    case Raw2(w) => s.b[c] == w && w.Raw?
  }

  ghost predicate PendingCell(s: Copy, c: nat)
    requires c < |s.b| == |s.org|
  {
    match s.org[c]
    case Arg(t, lo) => Decode(s.h, s.b[c], s.k) == Some(t) && Known(s, s.b[c])
    case Functor(f, n) => n > 0 && s.b[c] == Con(f, n) && Known(s, s.b[c])
    case Header => s.b[c] == Fvl && c + 2 < |s.org| && s.org[c + 1].Raw1? && s.org[c + 2].Raw2?
    case Raw1(w) => s.b[c] == w && w.Raw? && c >= 1 && s.org[c - 1] == Header && c != s.at
    case Raw2(w) => s.b[c] == w && w.Raw? && c >= 1 && s.org[c - 1].Raw1? && c != s.at
  }

  ghost predicate KnownCell(s: Copy, x: nat)
    requires x in s.h
  {
    Known(s, s.h[x])
  }

  ghost predicate Tables(s: Copy) {
    && Terminated(s.pnames) && Terminated(s.names)
    && s.pnames != [] && s.names != [] && CString(s.pnames, 0) == CString(s.names, 0)
    && (forall x {:trigger KnownCell(s, x)} :: x in s.h ==> KnownCell(s, x))
  }

  ghost predicate Inv(s: Copy) {
    && |s.b| == |s.org| && s.at <= |s.b| && Tables(s)
    && (forall c {:trigger DoneCell(s, c)} :: 0 <= c < s.at ==> DoneCell(s, c))
    && (forall c {:trigger PendingCell(s, c)} :: s.at <= c < |s.b| ==> PendingCell(s, c))
  }

  type LiveCopy = s: Copy | Inv(s)
    ghost witness Copy(map[], 0, [NUL], 0, [NUL], [], 0, [])

  /** The heap p holds the copy. */
  ghost predicate Holding(p: Heap, s: Copy) {
    forall c {:trigger CellAt(p, s, c)} :: 0 <= c < |s.b| ==> CellAt(p, s, c)
  }

  ghost predicate CellAt(p: Heap, s: Copy, c: nat)
    requires c < |s.b|
  {
    s.base + c in p && p[s.base + c] == s.b[c]
  }

  /** u is a finished copy of t: the same shape, and its i-th variable is the variable numbered lo + i. */
  ghost predicate Copies(s: Copy, t: Term, lo: nat, u: Term) {
    ShapeOf(u, s.names) == ShapeOf(t, s.pnames) && Spelled(u, s.names) && Numbers(s, Occurrences(t), lo, Occurrences(u))
  }

  ghost predicate Numbers(s: Copy, os: seq<nat>, lo: nat, vs: seq<nat>) {
    |vs| == |os| && forall i {:trigger NumberAt(s, lo, vs, i)} :: 0 <= i < |vs| ==> NumberAt(s, lo, vs, i)
  }

  ghost predicate NumberAt(s: Copy, lo: nat, vs: seq<nat>, i: nat)
    requires i < |vs|
  {
    Numbered(s, lo + i, vs[i])
  }

  /** v is the variable of the copy that stands for the occurrence numbered i. */
  ghost predicate Numbered(s: Copy, i: nat, v: nat) {
    s.base <= v < s.base + |s.org| && s.org[v - s.base].Arg? && s.org[v - s.base].lo == i && s.org[v - s.base].t.Var?
  }

  lemma NumbersJoin(s: Copy, os1: seq<nat>, os2: seq<nat>, lo: nat, vs1: seq<nat>, vs2: seq<nat>)
    requires Numbers(s, os1, lo, vs1) && Numbers(s, os2, lo + |os1|, vs2)
    ensures Numbers(s, os1 + os2, lo, vs1 + vs2)
  {
    var vs := vs1 + vs2;
    forall i | 0 <= i < |vs| ensures NumberAt(s, lo, vs, i) {
      if i < |vs1| {
        assert NumberAt(s, lo, vs1, i);
      } else {
        assert NumberAt(s, lo + |os1|, vs2, i - |vs1|);
      }
    }
  }

  /** A finished copy denotes the term it was made from, with fresh variables. */
  lemma {:induction false} CopyDenotes(s: LiveCopy, p: Heap, c: nat, t: Term, lo: nat) returns (u: Term, g: nat)
    requires s.at == |s.b| && Holding(p, s) && c < |s.b| && s.org[c] == Arg(t, lo)
    ensures Decode(p, s.b[c], g) == Some(u) && Copies(s, t, lo, u)
    decreases t
  {
    assert DoneCell(s, c);
    match t
    case Var(a) =>
      assert CellAt(p, s, c);
      u, g := Var(s.base + c), 1;
      assert Occurrences(u) == [s.base + c];
    case Const(d) =>
      u, g := Const(s.b[c]), 1;
    case Pair(x, y) =>
      u, g := PairDenotes(s, p, c, x, y, lo);
    case Compound(f, args) =>
      u, g := StructDenotes(s, p, c, f, args, lo);
    case Real(w1, w2) =>
      u, g := FloatDenotes(s, p, c, w1, w2, lo);
  }

  lemma FloatDenotes(s: LiveCopy, p: Heap, c: nat, w1: Cell, w2: Cell, lo: nat) returns (u: Term, g: nat)
    requires s.at == |s.b| && Holding(p, s) && c < |s.b| && s.org[c] == Arg(Real(w1, w2), lo)
    ensures Decode(p, s.b[c], g) == Some(u) && Copies(s, Real(w1, w2), lo, u)
  {
    assert DoneCell(s, c);
    var q := s.b[c].a - s.base;
    assert s.org[q..q + 3][0] == s.org[q] && s.org[q..q + 3][1] == s.org[q + 1] && s.org[q..q + 3][2] == s.org[q + 2];
    assert CellAt(p, s, q) && CellAt(p, s, q + 1) && CellAt(p, s, q + 2);
    assert DoneCell(s, q) && DoneCell(s, q + 1) && DoneCell(s, q + 2);
    u, g := Real(w1, w2), 1;
  }

  lemma {:induction false} PairDenotes(s: LiveCopy, p: Heap, c: nat, x: Term, y: Term,
                                       lo: nat) returns (u: Term, g: nat)
    requires s.at == |s.b| && Holding(p, s) && c < |s.b| && s.org[c] == Arg(Pair(x, y), lo)
    ensures Decode(p, s.b[c], g) == Some(u) && Copies(s, Pair(x, y), lo, u)
    decreases Pair(x, y), 0
  {
    assert DoneCell(s, c);
    var q := s.b[c].a - s.base;
    assert [x, y][1..] == [y] && ArgsFrom(s, [y], lo + |Occurrences(x)|, q + 1);
    var u1, g1 := CopyDenotes(s, p, q, x, lo);
    var u2, g2 := CopyDenotes(s, p, q + 1, y, lo + |Occurrences(x)|);
    assert CellAt(p, s, q) && CellAt(p, s, q + 1);
    g := PairJoins(p, s.base + q, g1, g2);
    u := Pair(u1, u2);
    NumbersJoin(s, Occurrences(x), Occurrences(y), lo, Occurrences(u1), Occurrences(u2));
  }

  lemma {:induction false} StructDenotes(s: LiveCopy, p: Heap, c: nat, f: nat, args: seq<Term>,
                                         lo: nat) returns (u: Term, g: nat)
    requires s.at == |s.b| && Holding(p, s) && c < |s.b| && s.org[c] == Arg(Compound(f, args), lo)
    ensures Decode(p, s.b[c], g) == Some(u) && Copies(s, Compound(f, args), lo, u)
    decreases args, 1, |args|
  {
    assert DoneCell(s, c);
    var q := s.b[c].a - s.base;
    assert DoneCell(s, q) && CellAt(p, s, q);
    var us, g1 := ArgsDenote(s, p, args, lo, q + 1);
    StructJoins(p, s.base + q, g1);
    u, g := Compound(s.b[q].f, us), g1 + 1;
  }

  lemma {:induction false} ArgsDenote(s: LiveCopy, p: Heap, ts: seq<Term>, lo: nat,
                                      q: nat) returns (us: seq<Term>, g: nat)
    requires s.at == |s.b| && Holding(p, s) && ArgsFrom(s, ts, lo, q)
    ensures DecodeArgs(p, s.base + q, |ts|, g) == Some(us)
    ensures ShapesOf(us, s.names) == ShapesOf(ts, s.pnames) && AllSpelled(us, s.names)
    ensures Numbers(s, ArgOccurrences(ts), lo, ArgOccurrences(us))
    decreases ts, 0, |ts|
  {
    if ts == [] {
      us, g := [], 0;
    } else {
      var u1, g1 := CopyDenotes(s, p, q, ts[0], lo);
      var us2, g2 := ArgsDenote(s, p, ts[1..], lo + |Occurrences(ts[0])|, q + 1);
      assert CellAt(p, s, q);
      g := ArgsJoin(p, s.base + q, |ts|, g1, g2);
      us := [u1] + us2;
      assert us[1..] == us2;
      NumbersJoin(s, Occurrences(ts[0]), ArgOccurrences(ts[1..]), lo, Occurrences(u1), ArgOccurrences(us2));
    }
  }

  /** No variable of a finished copy occurs twice, and all belong to the copy. */
  lemma CopiesAreLinear(s: Copy, t: Term, lo: nat, u: Term)
    requires Copies(s, t, lo, u)
    ensures Linear(u) && |Occurrences(u)| == |Occurrences(t)|
    ensures forall v :: v in Occurrences(u) ==> s.base <= v < s.base + |s.org|
  {
    var vs := Occurrences(u);
    forall i, j | 0 <= i < j < |vs| ensures vs[i] != vs[j] {
      assert NumberAt(s, lo, vs, i) && NumberAt(s, lo, vs, j);
    }
    forall v | v in vs ensures s.base <= v < s.base + |s.org| {
      var i :| 0 <= i < |vs| && vs[i] == v;
      assert NumberAt(s, lo, vs, i);
    }
  }

  /** The structure cells of a finished copy refer to functors or floats. */
  lemma CopyStructures(s: LiveCopy, p: Heap, c: nat)
    requires s.at == |s.b| && Holding(p, s) && c < |s.b|
    ensures StrOK(p, s.b[c])
  {
    assert DoneCell(s, c);
    if s.b[c].Str? {
      var q := s.b[c].a - s.base;
      if s.org[c].t.Real? { assert s.org[q..q + 3][0] == s.org[q]; }
      assert DoneCell(s, q) && CellAt(p, s, q);
      if !s.org[c].t.Real? { assert ToFunctor(p, s.b[c], 0); }
    }
  }

  /** A table that grows keeps the symbols of a term, and its shape. */
  lemma {:induction false} SpelledKept(t: Term, names: seq<char>, more: seq<char>)
    requires names <= more && Terminated(names) && Spelled(t, names)
    ensures Spelled(t, more) && ShapeOf(t, more) == ShapeOf(t, names)
    decreases t
  {
    match t
    case Const(c) => if c.Con? { CanonicalKept(names, more, c.f); SymbolKept(names, more, c.f); }
    case Pair(x, y) => SpelledKept(x, names, more); SpelledKept(y, names, more);
    case Compound(f, args) =>
      CanonicalKept(names, more, f);
      SymbolKept(names, more, f);
      AllSpelledKept(args, names, more);
    case _ =>
  }

  lemma {:induction false} AllSpelledKept(ts: seq<Term>, names: seq<char>, more: seq<char>)
    requires names <= more && Terminated(names) && AllSpelled(ts, names)
    ensures AllSpelled(ts, more) && ShapesOf(ts, more) == ShapesOf(ts, names)
    decreases ts
  {
    if ts != [] { SpelledKept(ts[0], names, more); AllSpelledKept(ts[1..], names, more); }
  }

  /** A copy is as large as the original. */
  lemma {:induction false} SameShapeSameSize(t: Term, pnames: seq<char>, u: Term, names: seq<char>)
    requires ShapeOf(t, pnames) == ShapeOf(u, names)
    ensures TermSize(t) == TermSize(u)
    decreases t
  {
    match t
    case Pair(x, y) => SameShapeSameSize(x, pnames, u.head, names); SameShapeSameSize(y, pnames, u.tail, names);
    case Compound(_, args) => SameShapesSameSize(args, pnames, u.args, names);
    case _ =>
  }

  lemma {:induction false} SameShapesSameSize(ts: seq<Term>, pnames: seq<char>, us: seq<Term>, names: seq<char>)
    requires ShapesOf(ts, pnames) == ShapesOf(us, names)
    ensures ArgsSize(ts) == ArgsSize(us)
    decreases ts
  {
    assert |ts| == |us|;
    if ts != [] {
      assert ShapesOf(ts, pnames)[0] == ShapesOf(us, names)[0] && ShapesOf(ts, pnames)[1..] == ShapesOf(us, names)[1..];
      SameShapeSameSize(ts[0], pnames, us[0], names);
      SameShapesSameSize(ts[1..], pnames, us[1..], names);
    }
  }
}
