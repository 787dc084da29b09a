// What a finished scan means: every copied cell, and every cell below the collecting line, denotes after
// the move the term it denoted before the collection, up to one renaming of the moved variables.
module CollectorMeaning {
  import opened Terms
  import opened CollectorInvariant

  /** A finished scan s, with the heap p after the copies went back to the collecting line; rt gives the copy
      of each outer root and r the new address of each moved variable. */
  datatype Move = Move(s: Scan, rt: map<nat, nat>, r: map<nat, nat>, p: Heap)

  ghost predicate Image(v: Move) {
    && Shape(v.s) && v.s.at == |v.s.b| && Area(v.s.h, v.s.line, v.s.cb) && Forwards(v.s) && Dones(v.s) && Goods(v.s)
    && (forall x {:trigger MovedTo(v, x)} :: Moved(v.s, x) ==> MovedTo(v, x))
    && (forall x {:trigger x in v.r} :: x in v.r ==> x >= v.s.line)
    && (forall c {:trigger NewCell(v, c)} :: 0 <= c < |v.s.b| ==> NewCell(v, c))
    && (forall x {:trigger OldCell(v, x)} :: x in v.s.h && x < v.s.line ==> OldCell(v, x))
  }

  ghost predicate MovedTo(v: Move, x: nat) {
    x in v.s.fw && x in v.r && v.r[x] == v.s.line + v.s.fw[x]
  }

  ghost predicate NewCell(v: Move, c: nat) {
    c < |v.s.b| && v.s.line + c in v.p && v.p[v.s.line + c] == v.s.b[c]
  }

  ghost predicate OldCell(v: Move, x: nat)
    requires x in v.s.h
  {
    var s := v.s;
    x in v.p &&
    if x in v.rt then
      && v.rt[x] < |s.b| == |s.orig| && s.orig[v.rt[x]] == s.h[x] && v.p[x] == Ref(s.line + v.rt[x])
      && !s.h[x].IsFunctor() && !s.h[x].Fvl? && s.h[x] != Ref(x)
    else
      && v.p[x] == s.h[x] && Below(s.h, s.line, s.h[x])
      && (s.h[x].Fvl? ==> x + 1 !in v.rt && x + 2 !in v.rt)
  }

  type LiveMove = v: Move | Image(v)
    ghost witness Move(Scan(map[], 0, 0, 0, [], [], 0, [], map[], [], []), map[], map[], map[])

  /** f means, read to depth g after the move, what c meant, read to depth k before. */
  ghost predicate Means(v: Move, c: Cell, k: nat, f: Cell, g: nat) {
    Decode(v.s.h, c, k).Some? && Decode(v.p, f, g) == Some(Rename(Decode(v.s.h, c, k).value, v.r))
  }

  /** A copy denotes, after the move, what the cell it was copied from denoted before. */
  lemma {:induction false} CopyMeans(v: LiveMove, c: nat, k: nat) returns (g: nat)
    requires c < |v.s.b| && Decode(v.s.h, v.s.orig[c], k).Some?
    ensures Means(v, v.s.orig[c], k, v.s.b[c], g)
    decreases k, c + 1, 1
  {
    var s := v.s;
    assert DoneCell(s, c) && GoodCell(s, c);
    ChaseDecode(s.h, s.line, s.orig[c], s.hops[c], s.res[c], k);
    ChaseSound(s.h, s.line, s.cb, s.orig[c], s.hops[c], s.res[c]);
    g := OutcomeMeans(v, c, s.hops[c], s.res[c], k - s.hops[c]);
  }

  lemma {:induction false} OutcomeMeans(v: LiveMove, c: nat, n: nat, w: Cell, k: nat) returns (g: nat)
    requires c < |v.s.b| && Outcome(v.s, c, v.s.b[c], n, w)
    requires NoStraddle(v.s.h, v.s.line, w) && Decode(v.s.h, w, k).Some?
    ensures Means(v, w, k, v.s.b[c], g)
    decreases k, if n > 0 then |v.s.b| + 4 else c + 1, 0
  {
    var s, f := v.s, v.s.b[c];
    if (w.IsCst() || w.a < s.line) && f == w {
      g := OldMeans(v, w, k);
    } else if w.Ref? && w.a in s.fw && w.a in s.h && s.h[w.a] == w && f == Ref(s.line + s.fw[w.a]) {
      g := VarMeans(v, w.a, k);
    } else if f.Ref? && s.line <= f.a < s.line + |s.orig| && s.orig[f.a - s.line] == w && (n > 0 || f.a - s.line < c) {
      g := CopyMeans(v, f.a - s.line, k);
      assert NewCell(v, f.a - s.line);
      g := RefJoins(v.p, f.a, g);
    } else if w.Lis? {
      g := PairMeans(v, w.a, f.a - s.line, k - 1);
    } else {
      g := StructMeans(v, w.a, k - 1);
    }
  }

  /** A moved variable. */
  lemma VarMeans(v: LiveMove, x: nat, k: nat) returns (g: nat)
    requires Moved(v.s, x) && k > 0
    ensures Means(v, Ref(x), k, Ref(v.s.line + v.s.fw[x]), g)
  {
    assert ForwardOK(v.s, x) && MovedTo(v, x) && NewCell(v, v.s.fw[x]);
    g := 1;
  }

  lemma {:induction false} PairMeans(v: LiveMove, a: nat, q: nat, k: nat) returns (g: nat)
    requires BlockAt(v.s, a, 1, q) && Decode(v.s.h, Lis(a), k + 1).Some?
    ensures Means(v, Lis(a), k + 1, Lis(v.s.line + q), g)
    decreases k, |v.s.b| + 3, 0
  {
    var s := v.s;
    assert s.h[a] == s.orig[q] && s.h[a + 1] == s.orig[q + 1];
    var g1 := CopyMeans(v, q, k);
    var g2 := CopyMeans(v, q + 1, k);
    assert NewCell(v, q) && NewCell(v, q + 1);
    g := PairJoins(v.p, s.line + q, g1, g2);
  }

  lemma {:induction false} StructMeans(v: LiveMove, a: nat, k: nat) returns (g: nat)
    requires a in v.s.fw && a in v.s.h && v.s.h[a].IsFunctor() && Decode(v.s.h, Str(a), k + 1).Some?
    ensures Means(v, Str(a), k + 1, Str(v.s.line + v.s.fw[a]), g)
    decreases k, |v.s.b| + 3 + v.s.h[a].n, 0
  {
    var s, n, q := v.s, v.s.h[a].n, v.s.fw[a];
    assert ForwardOK(s, a) && NewCell(v, q);
    ArgsOfBlock(s, a, n, q);
    var g1 := CopiedArgs(v, a + 1, n, q + 1, k);
    StructJoins(v.p, s.line + q, g1);
    g := g1 + 1;
  }

  /** The copies of the cells from a on lie from q on. */
  ghost predicate ArgsAt(s: Scan, a: nat, n: nat, q: nat) {
    q + n <= |s.orig| && forall x :: a <= x < a + n ==> x in s.h && s.orig[q + (x - a)] == s.h[x]
  }

  lemma ArgsOfBlock(s: Scan, a: nat, n: nat, q: nat)
    requires BlockAt(s, a, n, q)
    ensures ArgsAt(s, a + 1, n, q + 1)
  {
  }

  lemma {:induction false} CopiedArgs(v: LiveMove, a: nat, n: nat, q: nat, k: nat) returns (g: nat)
    requires ArgsAt(v.s, a, n, q) && DecodeArgs(v.s.h, a, n, k).Some?
    ensures DecodeArgs(v.p, v.s.line + q, n, g) == Some(RenameArgs(DecodeArgs(v.s.h, a, n, k).value, v.r))
    decreases k, |v.s.b| + 2 + n, 0
  {
    if n == 0 {
      g := 0;
    } else {
      assert v.s.orig[q + (a - a)] == v.s.h[a];
      var g1 := CopyMeans(v, q, k);
      var g2 := CopiedArgs(v, a + 1, n - 1, q + 1, k);
      assert NewCell(v, q);
      g := ArgsJoin(v.p, v.s.line + q, n, g1, g2);
    }
  }

  /** A cell that refers below the collecting line denotes the same term afterwards. */
  lemma {:induction false} OldMeans(v: LiveMove, c: Cell, k: nat) returns (g: nat)
    requires Below(v.s.h, v.s.line, c) && Decode(v.s.h, c, k).Some?
    ensures Means(v, c, k, c, g)
    decreases k, 0, 0
  {
    var h := v.s.h;
    g := 1;
    match c
    case Ref(a) =>
      if h[a] == c {
        assert OldCell(v, a);
      } else {
        g := OldCellMeans(v, a, k - 1);
        g := RefJoins(v.p, a, g);
      }
    case Lis(a) =>
      var g1 := OldCellMeans(v, a, k - 1);
      var g2 := OldCellMeans(v, a + 1, k - 1);
      g := PairJoins(v.p, a, g1, g2);
    case Str(a) =>
      assert OldCell(v, a);
      if h[a].Fvl? {
        assert OldCell(v, a + 1) && OldCell(v, a + 2);
      } else {
        g := OldArgs(v, a + 1, h[a].n, k - 1);
        StructJoins(v.p, a, g);
        g := g + 1;
      }
    case _ =>
  }

  lemma {:induction false} OldCellMeans(v: LiveMove, x: nat, k: nat) returns (g: nat)
    requires x in v.s.h && x < v.s.line && Decode(v.s.h, v.s.h[x], k).Some?
    ensures x in v.p && Means(v, v.s.h[x], k, v.p[x], g)
    decreases k, |v.s.b| + 1, 0
  {
    assert OldCell(v, x);
    if x in v.rt {
      g := CopyMeans(v, v.rt[x], k);
      assert NewCell(v, v.rt[x]);
      g := RefJoins(v.p, v.s.line + v.rt[x], g);
    } else {
      g := OldMeans(v, v.s.h[x], k);
    }
  }

  lemma {:induction false} OldArgs(v: LiveMove, a: nat, n: nat, k: nat) returns (g: nat)
    requires a + n <= v.s.line && DecodeArgs(v.s.h, a, n, k).Some?
    ensures DecodeArgs(v.p, a, n, g) == Some(RenameArgs(DecodeArgs(v.s.h, a, n, k).value, v.r))
    decreases k, |v.s.b| + 2 + n, 0
  {
    if n == 0 {
      g := 0;
    } else {
      var g1 := OldCellMeans(v, a, k);
      var g2 := OldArgs(v, a + 1, n - 1, k);
      g := ArgsJoin(v.p, a, n, g1, g2);
    }
  }

  /** f refers below top, and if to a copied structure then to the whole of it. */
  ghost predicate Inside(p: Heap, line: nat, top: nat, f: Cell) {
    match f
    case Ref(a) => a < top
    case Lis(a) => a + 1 < top
    case Str(a) => a < top && (line <= a ==> a in p && p[a].IsFunctor() && a + p[a].n < top)
    case _ => true
  }

  /** After the move no copy refers into the space above the copies. */
  lemma NoDeadSpace(v: LiveMove, c: nat)
    requires c < |v.s.b|
    ensures Inside(v.p, v.s.line, v.s.line + |v.s.b|, v.s.b[c])
  {
    var s, w, f := v.s, v.s.res[c], v.s.b[c];
    assert DoneCell(s, c) && GoodCell(s, c);
    ChaseSound(s.h, s.line, s.cb, s.orig[c], s.hops[c], w);
    if w.Ref? && w.a in s.fw { assert ForwardOK(s, w.a); }
    if w.Str? && w.a in s.fw && f == Str(s.line + s.fw[w.a]) {
      assert ForwardOK(s, w.a) && NewCell(v, s.fw[w.a]);
    }
  }
}
