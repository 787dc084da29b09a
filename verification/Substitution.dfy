// Binding a variable, seen as a substitution on terms and on the heap the terms are read from.
module Substitution {
  import opened Terms

  function Subst(t: Term, x: nat, u: Term): Term {
    match t
    case Var(a) => if a == x then u else t
    case Const(_) => t
    case Pair(y, z) => Pair(Subst(y, x, u), Subst(z, x, u))
    case Compound(f, args) => Compound(f, SubstArgs(args, x, u))
    case Real(_, _) => t
  }

  function SubstArgs(ts: seq<Term>, x: nat, u: Term): (r: seq<Term>)
    ensures |r| == |ts|
  {
    if ts == [] then [] else [Subst(ts[0], x, u)] + SubstArgs(ts[1..], x, u)
  }

  lemma {:induction false} SubstAbsent(t: Term, x: nat, u: Term)
    requires x !in Occurrences(t)
    ensures Subst(t, x, u) == t
  {
    match t
    case Pair(y, z) => SubstAbsent(y, x, u); SubstAbsent(z, x, u);
    case Compound(_, args) => SubstArgsAbsent(args, x, u);
    case _ =>
  }

  lemma {:induction false} SubstArgsAbsent(ts: seq<Term>, x: nat, u: Term)
    requires x !in ArgOccurrences(ts)
    ensures SubstArgs(ts, x, u) == ts
  {
    if ts != [] { SubstAbsent(ts[0], x, u); SubstArgsAbsent(ts[1..], x, u); }
  }

  /** A substituted term has the variables it had, and those of the term put in. */
  lemma {:induction false} SubstOccurs(t: Term, x: nat, u: Term, v: nat)
    requires v in Occurrences(Subst(t, x, u))
    ensures v in Occurrences(t) || (v in Occurrences(u) && x in Occurrences(t))
  {
    match t
    case Pair(y, z) => if v in Occurrences(Subst(y, x, u)) { SubstOccurs(y, x, u, v); }
                       else { SubstOccurs(z, x, u, v); }
    case Compound(_, args) => SubstArgsOccur(args, x, u, v);
    case _ =>
  }

  lemma {:induction false} SubstArgsOccur(ts: seq<Term>, x: nat, u: Term, v: nat)
    requires v in ArgOccurrences(SubstArgs(ts, x, u))
    ensures v in ArgOccurrences(ts) || (v in Occurrences(u) && x in ArgOccurrences(ts))
  {
    if ts != [] {
      var us := SubstArgs(ts, x, u);
      assert us[1..] == SubstArgs(ts[1..], x, u);
      if v in Occurrences(us[0]) { SubstOccurs(ts[0], x, u, v); } else { SubstArgsOccur(ts[1..], x, u, v); }
    }
  }

  /** An arbitrary assignment of terms to variables. */
  function Apply(th: map<nat, Term>, t: Term): Term {
    match t
    case Var(a) => if a in th then th[a] else t
    case Const(_) => t
    case Pair(y, z) => Pair(Apply(th, y), Apply(th, z))
    case Compound(f, args) => Compound(f, ApplyArgs(th, args))
    case Real(_, _) => t
  }

  function ApplyArgs(th: map<nat, Term>, ts: seq<Term>): (r: seq<Term>)
    ensures |r| == |ts|
  {
    if ts == [] then [] else [Apply(th, ts[0])] + ApplyArgs(th, ts[1..])
  }

  lemma {:induction false} ApplyArgsAt(th: map<nat, Term>, ts: seq<Term>, i: nat)
    requires i < |ts|
    ensures ApplyArgs(th, ts)[i] == Apply(th, ts[i])
  {
    if i > 0 { ApplyArgsAt(th, ts[1..], i - 1); }
  }

  /** An assignment that solves x = u does not notice the substitution of u for x. */
  lemma {:induction false} ApplySubst(th: map<nat, Term>, t: Term, x: nat, u: Term)
    requires Apply(th, Var(x)) == Apply(th, u)
    ensures Apply(th, Subst(t, x, u)) == Apply(th, t)
  {
    match t
    case Pair(y, z) => ApplySubst(th, y, x, u); ApplySubst(th, z, x, u);
    case Compound(_, args) => ApplySubstArgs(th, args, x, u);
    case _ =>
  }

  lemma {:induction false} ApplySubstArgs(th: map<nat, Term>, ts: seq<Term>, x: nat, u: Term)
    requires Apply(th, Var(x)) == Apply(th, u)
    ensures ApplyArgs(th, SubstArgs(ts, x, u)) == ApplyArgs(th, ts)
  {
    if ts != [] {
      ApplySubst(th, ts[0], x, u);
      ApplySubstArgs(th, ts[1..], x, u);
      assert SubstArgs(ts, x, u)[1..] == SubstArgs(ts[1..], x, u);
    }
  }

  /** The bindings made so far, the first one first. */
  datatype Binding = Binding(x: nat, u: Term)

  function SubstAll(t: Term, bs: seq<Binding>): Term {
    if bs == [] then t else Subst(SubstAll(t, bs[..|bs| - 1]), bs[|bs| - 1].x, bs[|bs| - 1].u)
  }

  lemma SubstAllMore(t: Term, bs: seq<Binding>, b: Binding)
    ensures SubstAll(t, bs + [b]) == Subst(SubstAll(t, bs), b.x, b.u)
  {
    assert (bs + [b])[..|bs|] == bs;
  }

  /** th makes both sides of every binding equal. */
  ghost predicate Solves(th: map<nat, Term>, bs: seq<Binding>) {
    forall b {:trigger b in bs} :: b in bs ==> Apply(th, Var(b.x)) == Apply(th, b.u)
  }

  /** The bindings as one assignment. */
  function Assignment(bs: seq<Binding>): map<nat, Term> {
    if bs == [] then map[] else
    var b, th := bs[|bs| - 1], Assignment(bs[..|bs| - 1]);
    map y | y in th.Keys + {b.x} :: if y in th then Subst(th[y], b.x, b.u) else b.u
  }

  lemma {:induction false} AssignmentApplies(t: Term, bs: seq<Binding>)
    ensures Apply(Assignment(bs), t) == SubstAll(t, bs)
    decreases |bs|
  {
    if bs == [] {
      ApplyNothing(t);
    } else {
      AssignmentApplies(t, bs[..|bs| - 1]);
      AssignmentStep(t, bs);
    }
  }

  lemma {:induction false} ApplyNothing(t: Term)
    ensures Apply(map[], t) == t
  {
    match t
    case Pair(y, z) => ApplyNothing(y); ApplyNothing(z);
    case Compound(_, args) => ApplyNothingArgs(args);
    case _ =>
  }

  lemma {:induction false} ApplyNothingArgs(ts: seq<Term>)
    ensures ApplyArgs(map[], ts) == ts
  {
    if ts != [] { ApplyNothing(ts[0]); ApplyNothingArgs(ts[1..]); }
  }

  lemma {:induction false} AssignmentStep(t: Term, bs: seq<Binding>)
    requires bs != []
    ensures Apply(Assignment(bs), t) == Subst(Apply(Assignment(bs[..|bs| - 1]), t), bs[|bs| - 1].x, bs[|bs| - 1].u)
    decreases t
  {
    match t
    case Pair(y, z) => AssignmentStep(y, bs); AssignmentStep(z, bs);
    case Compound(_, args) => AssignmentArgs(args, bs);
    case _ =>
  }

  lemma {:induction false} AssignmentArgs(ts: seq<Term>, bs: seq<Binding>)
    requires bs != []
    ensures ApplyArgs(Assignment(bs), ts)
         == SubstArgs(ApplyArgs(Assignment(bs[..|bs| - 1]), ts), bs[|bs| - 1].x, bs[|bs| - 1].u)
    decreases ts
  {
    if ts != [] {
      AssignmentStep(ts[0], bs);
      AssignmentArgs(ts[1..], bs);
      var us := ApplyArgs(Assignment(bs[..|bs| - 1]), ts);
      assert us[1..] == ApplyArgs(Assignment(bs[..|bs| - 1]), ts[1..]);
    }
  }

  /** x is an unbound variable of the heap. */
  ghost predicate Unbound(h: Heap, x: nat) {
    x in h && h[x] == Ref(x)
  }

  /** Binding x changes nothing for a term without x. */
  lemma {:induction false} BindAbsent(h: Heap, x: nat, d: Cell, c: Cell, k: nat)
    requires Unbound(h, x) && Decode(h, c, k).Some? && x !in Occurrences(Decode(h, c, k).value)
    ensures Decode(h[x := d], c, k) == Decode(h, c, k)
    decreases k, 0
  {
    match c
    case Ref(a) => if a != x { if h[a] != c { BindAbsent(h, x, d, h[a], k - 1); } }
    case Lis(a) =>
      DecodesVar(h, x, k - 1);
      BindAbsent(h, x, d, h[a], k - 1);
      BindAbsent(h, x, d, h[a + 1], k - 1);
    case Str(a) =>
      if h[a].Con? { BindAbsentArgs(h, x, d, a + 1, h[a].n, k - 1); }
      if h[a].Str? { BindAbsent(h, x, d, h[a], k - 1); }
    case _ =>
  }

  lemma DecodesVar(h: Heap, x: nat, k: nat)
    requires Unbound(h, x)
    ensures Decode(h, h[x], k).Some? ==>
      Decode(h, h[x], k) == Some(Var(x)) && x in Occurrences(Decode(h, h[x], k).value)
  {
  }

  lemma {:induction false} BindAbsentArgs(h: Heap, x: nat, d: Cell, a: nat, n: nat, k: nat)
    requires Unbound(h, x) && DecodeArgs(h, a, n, k).Some?
    requires x !in ArgOccurrences(DecodeArgs(h, a, n, k).value)
    ensures DecodeArgs(h[x := d], a, n, k) == DecodeArgs(h, a, n, k)
    decreases k, n
  {
    if n > 0 {
      DecodesVar(h, x, k);
      assert DecodeArgs(h, a, n, k).value[1..] == DecodeArgs(h, a + 1, n - 1, k).value;
      BindAbsent(h, x, d, h[a], k);
      BindAbsentArgs(h, x, d, a + 1, n - 1, k);
    }
  }

  /** Binding x to the cell d substitutes what d denotes, a term without x, in every term. */
  lemma {:induction false} BindSubst(h: Heap, x: nat, d: Cell, j: nat, c: Cell, k: nat) returns (g: nat)
    requires Unbound(h, x) && Decode(h, d, j).Some? && x !in Occurrences(Decode(h, d, j).value)
    requires Decode(h, c, k).Some?
    ensures Decode(h[x := d], c, g) == Some(Subst(Decode(h, c, k).value, x, Decode(h, d, j).value))
    decreases k, 0
  {
    var h' := h[x := d];
    g := 1;
    match c
    case Ref(a) =>
      if a == x {
        BindAbsent(h, x, d, d, j);
        g := RefJoins(h', a, j);
      } else if h[a] != c {
        g := BindSubst(h, x, d, j, h[a], k - 1);
        g := RefJoins(h', a, g);
      }
    case Lis(a) =>
      var g1 := BindSubstCell(h, x, d, j, a, k - 1);
      var g2 := BindSubstCell(h, x, d, j, a + 1, k - 1);
      g := PairJoins(h', a, g1, g2);
    case Str(a) =>
      if h[a].Con? {
        g := BindSubstArgs(h, x, d, j, a + 1, h[a].n, k - 1);
        StructJoins(h', a, g);
        g := g + 1;
      } else if !h[a].Fvl? {
        g := BindSubst(h, x, d, j, h[a], k - 1);
        StrNotZero(h', h'[a], g);
        g := g + 1;
      }
    case _ =>
  }

  lemma StrNotZero(h: Heap, c: Cell, g: nat)
    requires Decode(h, c, g).Some?
    ensures g > 0
  {
  }

  lemma {:induction false} BindSubstCell(h: Heap, x: nat, d: Cell, j: nat, a: nat, k: nat) returns (g: nat)
    requires Unbound(h, x) && Decode(h, d, j).Some? && x !in Occurrences(Decode(h, d, j).value)
    requires a in h && Decode(h, h[a], k).Some?
    ensures Decode(h[x := d], h[x := d][a], g) == Some(Subst(Decode(h, h[a], k).value, x, Decode(h, d, j).value))
    decreases k, 1
  {
    if a == x {
      BindAbsent(h, x, d, d, j);
      g := j;
    } else {
      g := BindSubst(h, x, d, j, h[a], k);
    }
  }

  lemma {:induction false} BindSubstArgs(h: Heap, x: nat, d: Cell, j: nat, a: nat, n: nat, k: nat) returns (g: nat)
    requires Unbound(h, x) && Decode(h, d, j).Some? && x !in Occurrences(Decode(h, d, j).value)
    requires DecodeArgs(h, a, n, k).Some?
    ensures DecodeArgs(h[x := d], a, n, g) == Some(SubstArgs(DecodeArgs(h, a, n, k).value, x, Decode(h, d, j).value))
    decreases k, 2 + n
  {
    if n == 0 {
      g := 0;
    } else {
      var g1 := BindSubstCell(h, x, d, j, a, k);
      var g2 := BindSubstArgs(h, x, d, j, a + 1, n - 1, k);
      g := ArgsJoin(h[x := d], a, n, g1, g2);
      assert DecodeArgs(h, a, n, k).value[1..] == DecodeArgs(h, a + 1, n - 1, k).value;
    }
  }

  lemma BindDenotes(h: Heap, x: nat, d: Cell, u: Term, c: Cell, t: Term)
    requires Unbound(h, x) && Denotes(h, d, u) && x !in Occurrences(u) && Denotes(h, c, t)
    ensures Denotes(h[x := d], c, Subst(t, x, u))
  {
    var j :| Decode(h, d, j) == Some(u);
    var k :| Decode(h, c, k) == Some(t);
    var g := BindSubst(h, x, d, j, c, k);
  }
}
