// Choice points, trail and generation line of the engine: what every instruction keeps.  Index 0 of the
// block is the word below the stack base.
module ChoiceState {
  import opened Terms

  const STACK_BASE: nat := 1
  const CHOICE_SIZE: nat := 7

  /** A choice frame, as saved when it was made; n is the number of arguments below it, snap are all cells below it at
      that moment, and stored are the cells that instructions have stored into since then, other than by binding; dead
      says whether a cut had gone below the barrier b0. */
  datatype Frame = Frame(at: nat, cf: nat, cp: int, tt: nat, prev: nat, b0: nat, alt: int, gl: nat, n: nat,
                         snap: seq<Cell>, stored: set<nat>, dead: bool)

  /** The engine: the block, the registers that matter here, and the choice frames, the oldest first. */
  datatype Machine = Machine(m: seq<Cell>, st: nat, tt: nat, bb: nat, gl: nat, frames: seq<Frame>)

  /** The saved registers lie at the frame's address and below. */
  ghost predicate FieldsAt(m: seq<Cell>, f: Frame) {
    && CHOICE_SIZE <= f.at < |m|
    && m[f.at] == Int(f.cf) && m[f.at - 1] == Int(f.cp) && m[f.at - 2] == Int(f.tt) && m[f.at - 3] == Int(f.prev)
    && m[f.at - 4] == Int(f.b0) && m[f.at - 5] == Int(f.alt) && m[f.at - 6] == Int(f.gl)
  }

  /** The choice point before the k-th frame. */
  ghost function Before(fs: seq<Frame>, k: nat): nat
    requires k <= |fs|
  {
    if k == 0 then STACK_BASE else fs[k - 1].at
  }

  ghost predicate InTrail(m: seq<Cell>, lo: nat, hi: nat, x: nat) {
    exists i {:trigger m[i]} :: lo < i <= hi && i < |m| && m[i] == Ref(x)
  }

  ghost predicate FrameOK(s: Machine, k: nat)
    requires k < |s.frames|
  {
    var f := s.frames[k];
    && FieldsAt(s.m, f) && f.prev == Before(s.frames, k) <= f.gl && f.gl + CHOICE_SIZE <= f.at
    && STACK_BASE <= f.cf && f.cf + f.n + CHOICE_SIZE <= f.at && |f.snap| == f.at - 6 && f.snap[f.cf - 1] == Int(f.cp)
    && s.tt <= f.tt < |s.m| && (k > 0 ==> f.tt <= s.frames[k - 1].tt && f.stored <= s.frames[k - 1].stored)
    && (forall x {:trigger x in f.stored} :: x in f.stored ==> !IsField(s.frames, k, x))
    && Clear(s.frames, k, f.cf - 1)
    && BarrierOK(s.frames, k, f)
  }

  /** x is a field of the j-th frame, or one of its arguments. */
  ghost predicate IsField(fs: seq<Frame>, j: nat, x: int)
    requires j < |fs|
  {
    fs[j].at - 6 - fs[j].n <= x <= fs[j].at
  }

  /** x is no field and no argument of the first k frames. */
  ghost predicate Clear(fs: seq<Frame>, k: nat, x: int)
    requires k <= |fs|
  {
    forall j {:trigger IsField(fs, j, x)} :: 0 <= j < k ==> !IsField(fs, j, x)
  }

  lemma ClearKept(fs: seq<Frame>, gs: seq<Frame>, k: nat, x: int)
    requires k <= |fs| && k <= |gs| && Clear(fs, k, x)
    requires forall i {:trigger gs[i]} :: 0 <= i < k ==> gs[i].at == fs[i].at && gs[i].n == fs[i].n
    ensures Clear(gs, k, x)
  {
    forall j | 0 <= j < k ensures !IsField(gs, j, x) { assert !IsField(fs, j, x); }
  }

  /** b is a choice point that existed before the k-th frame. */
  ghost predicate IsPoint(fs: seq<Frame>, k: nat, b: nat)
    requires k <= |fs|
  {
    exists j {:trigger Before(fs, j)} :: 0 <= j <= k && Before(fs, j) == b
  }

  lemma PointKept(fs: seq<Frame>, gs: seq<Frame>, k: nat, b: nat)
    requires k <= |fs| && k <= |gs| && forall i {:trigger gs[i]} {:trigger fs[i]} :: 0 <= i < k ==> gs[i].at == fs[i].at
    ensures IsPoint(gs, k, b) <==> IsPoint(fs, k, b)
  {
    if IsPoint(fs, k, b) {
      var j: nat :| j <= k && Before(fs, j) == b;
      assert Before(gs, j) == b;
    }
    if IsPoint(gs, k, b) {
      var j: nat :| j <= k && Before(gs, j) == b;
      assert Before(fs, j) == b;
    }
  }

  /** The barrier of the frame f is a choice point that existed before the k-th frame, if no cut had gone below it. */
  ghost predicate BarrierOK(fs: seq<Frame>, k: nat, f: Frame)
    requires k <= |fs|
  {
    (f.dead <==> !IsPoint(fs, k, f.b0)) && STACK_BASE <= f.b0 && f.b0 + CHOICE_SIZE <= f.at
  }

  /** The barrier b0 is a choice point, unless a cut has gone below it since it was set. */
  ghost predicate Barred(fs: seq<Frame>, b0: nat, dead: bool, st: nat) {
    STACK_BASE <= b0 <= st && (dead <==> !IsPoint(fs, |fs|, b0))
  }

  /** The cell x is as it was when the k-th frame was made, or it has been bound since and the trail knows, or it has
      been stored into. */
  ghost predicate CellKept(s: Machine, k: nat, x: nat) {
    k < |s.frames| && x < |s.frames[k].snap| ==> x < |s.m| && Kept(s.m, s.tt, s.frames[k], x)
  }

  ghost predicate Kept(m: seq<Cell>, tt: nat, f: Frame, x: nat)
    requires x < |f.snap| && x < |m|
  {
    x in f.stored || m[x] == f.snap[x] || (f.snap[x] == Ref(x) && InTrail(m, tt, f.tt, x))
  }

  /** A trail entry for x is of use to the frame f: x lies above it, was unbound when f was made, or was stored into. */
  ghost predicate SlotFor(f: Frame, x: nat) {
    x <= f.at ==> x < |f.snap| && (f.snap[x] == Ref(x) || x in f.stored)
  }

  /** So are all entries made since the k-th frame was. */
  ghost predicate SlotSound(s: Machine, k: nat, i: nat) {
    k < |s.frames| && i < |s.m| && s.tt < i <= s.frames[k].tt && s.m[i].Ref? ==> SlotFor(s.frames[k], s.m[i].a)
  }

  ghost predicate Registers(s: Machine) {
    STACK_BASE <= s.bb <= s.gl <= s.st < s.tt < |s.m| && s.bb == Before(s.frames, |s.frames|)
  }

  ghost predicate Inv(s: Machine) {
    && Registers(s)
    && (forall k {:trigger FrameOK(s, k)} :: 0 <= k < |s.frames| ==> FrameOK(s, k))
    && (forall k: nat, x: nat {:trigger CellKept(s, k, x)} :: CellKept(s, k, x))
    && (forall k: nat, i: nat {:trigger SlotSound(s, k, i)} :: SlotSound(s, k, i))
  }

  type Live = s: Machine | Inv(s)
    ghost witness Machine([Fvl, Fvl, Fvl], STACK_BASE, 2, STACK_BASE, STACK_BASE, [])

  /** Frames lie one above the other. */
  lemma {:induction false} FramesOrdered(s: Live, j: nat, k: nat)
    requires j < k < |s.frames|
    ensures s.frames[j].at + CHOICE_SIZE <= s.frames[k].at && s.frames[k].tt <= s.frames[j].tt
    ensures s.frames[k].stored <= s.frames[j].stored
    decreases k
  {
    assert FrameOK(s, k);
    if j < k - 1 { FramesOrdered(s, j, k - 1); assert FrameOK(s, k - 1); }
  }

  lemma FrameBelow(s: Live, k: nat)
    requires k < |s.frames|
    ensures s.frames[k].at <= s.bb
  {
    if k < |s.frames| - 1 { FramesOrdered(s, k, |s.frames| - 1); }
  }

  lemma BeforeOrdered(s: Live, j: nat, k: nat)
    requires j <= k <= |s.frames|
    ensures STACK_BASE <= Before(s.frames, j) <= Before(s.frames, k)
  {
    if k > 0 { assert FrameOK(s, k - 1); }
    if j > 0 { assert FrameOK(s, j - 1); }
    if 0 < j < k { FramesOrdered(s, j - 1, k - 1); }
  }

  /** What happens above the choice point concerns no frame. */
  ghost predicate Above(s: Machine, t: Machine) {
    && |t.m| == |s.m| && t.frames == s.frames && t.tt == s.tt
    && (forall x {:trigger t.m[x]} :: 0 <= x < |s.m| && x <= s.bb ==> t.m[x] == s.m[x])
    && (forall x {:trigger t.m[x]} :: s.tt < x < |s.m| ==> t.m[x] == s.m[x])
  }

  lemma AboveCell(s: Live, t: Machine, k: nat, x: nat)
    requires Above(s, t)
    ensures CellKept(t, k, x)
  {
    if k < |s.frames| && x < |s.frames[k].snap| {
      assert CellKept(s, k, x) && FrameOK(s, k);
      FrameBelow(s, k);
      if x !in s.frames[k].stored && t.m[x] != t.frames[k].snap[x] {
        var i :| s.tt < i <= s.frames[k].tt && i < |s.m| && s.m[i] == Ref(x);
        assert t.m[i] == Ref(x);
      }
    }
  }

  lemma AboveSlot(s: Live, t: Machine, k: nat, i: nat)
    requires Above(s, t)
    ensures SlotSound(t, k, i)
  {
    assert SlotSound(s, k, i);
  }

  ghost predicate FieldsClear(s: Machine, t: Machine) {
    forall k {:trigger FieldsAt(t.m, s.frames[k])} :: 0 <= k < |s.frames| ==> FieldsAt(t.m, s.frames[k])
  }

  lemma AboveLive(s: Live, t0: Machine) returns (t: Live)
    requires Above(s, t0) && FieldsClear(s, t0) && Registers(t0)
    ensures t == t0
  {
    forall k | 0 <= k < |t0.frames| ensures FrameOK(t0, k) { assert FrameOK(s, k) && FieldsAt(t0.m, s.frames[k]); }
    forall k: nat, x: nat ensures CellKept(t0, k, x) { AboveCell(s, t0, k, x); }
    forall k: nat, i: nat ensures SlotSound(t0, k, i) { AboveSlot(s, t0, k, i); }
    t := t0;
  }

  /** A cell above the choice point gets any contents; the stack may grow and the generation line rise. */
  lemma Set(s: Live, x: nat, v: Cell, st: nat, gl: nat) returns (t: Live)
    requires s.bb < x < s.tt && s.bb <= gl <= st < s.tt
    ensures t == s.(m := s.m[x := v], st := st, gl := gl)
  {
    var t0 := s.(m := s.m[x := v], st := st, gl := gl);
    forall k | 0 <= k < |s.frames| ensures FieldsAt(t0.m, s.frames[k]) { assert FrameOK(s, k); FrameBelow(s, k); }
    t := AboveLive(s, t0);
  }

  /** The frames after a store to x. */
  ghost function StoredTo(fs: seq<Frame>, x: nat): (gs: seq<Frame>)
    ensures |gs| == |fs| && forall i :: 0 <= i < |fs| ==> gs[i] == fs[i].(stored := fs[i].stored + {x})
  {
    seq(|fs|, i requires 0 <= i < |fs| => fs[i].(stored := fs[i].stored + {x}))
  }

  /** Any cell that belongs to no frame is stored into. */
  lemma Store(s: Live, x: nat, v: Cell) returns (t: Live)
    requires x <= s.st && Clear(s.frames, |s.frames|, x)
    ensures t == s.(m := s.m[x := v], frames := StoredTo(s.frames, x))
  {
    var t0 := s.(m := s.m[x := v], frames := StoredTo(s.frames, x));
    forall k | 0 <= k < |t0.frames| ensures FrameOK(t0, k) { StoreFrame(s, x, v, k); }
    forall k: nat, y: nat ensures CellKept(t0, k, y) { StoreCell(s, x, v, k, y); }
    forall k: nat, i: nat ensures SlotSound(t0, k, i) { assert SlotSound(s, k, i); }
    t := t0;
  }

  lemma StoreFrame(s: Live, x: nat, v: Cell, k: nat)
    requires x <= s.st && Clear(s.frames, |s.frames|, x) && k < |s.frames|
    ensures FrameOK(s.(m := s.m[x := v], frames := StoredTo(s.frames, x)), k)
  {
    var fs := StoredTo(s.frames, x);
    assert FrameOK(s, k) && !IsField(s.frames, k, x);
    PointKept(s.frames, fs, k, s.frames[k].b0);
    ClearKept(s.frames, fs, k, s.frames[k].cf - 1);
    assert Before(fs, k) == Before(s.frames, k);
    assert FieldsAt(s.m[x := v], fs[k]);
    forall y | y in fs[k].stored ensures !IsField(fs, k, y) { assert !IsField(s.frames, k, y); }
  }

  lemma StoreCell(s: Live, x: nat, v: Cell, k: nat, y: nat)
    requires x <= s.st
    ensures CellKept(s.(m := s.m[x := v], frames := StoredTo(s.frames, x)), k, y)
  {
    assert CellKept(s, k, y);
    if k < |s.frames| && y < |s.frames[k].snap| && y != x && InTrail(s.m, s.tt, s.frames[k].tt, y) {
      var i :| s.tt < i <= s.frames[k].tt && i < |s.m| && s.m[i] == Ref(y);
      assert s.m[x := v][i] == Ref(y);
    }
  }

  lemma InTrailMore(m: seq<Cell>, lo: nat, hi: nat, x: nat)
    requires lo <= hi && hi + 1 < |m|
    ensures InTrail(m, lo, hi + 1, x) <==> InTrail(m, lo, hi, x) || m[hi + 1] == Ref(x)
  {
  }

  lemma PushedInTrail(m: seq<Cell>, lo: nat, hi: nat, x: nat, e: Cell)
    requires 0 < lo < |m| && InTrail(m, lo, hi, x)
    ensures InTrail(m[lo := e], lo - 1, hi, x)
  {
    var i :| lo < i <= hi && i < |m| && m[i] == Ref(x);
    assert m[lo := e][i] == Ref(x);
  }

  /** A generation line, or a cell that an entry is of use for. */
  ghost predicate Trailable(s: Machine, e: Cell) {
    e.Ref? ==> forall k {:trigger s.frames[k]} :: 0 <= k < |s.frames| ==> SlotFor(s.frames[k], e.a)
  }

  lemma PushTrail(s: Live, e: Cell) returns (t: Live)
    requires s.st < s.tt - 1 && Trailable(s, e)
    ensures t == s.(m := s.m[s.tt := e], tt := s.tt - 1)
  {
    var t0 := s.(m := s.m[s.tt := e], tt := s.tt - 1);
    forall k | 0 <= k < |t0.frames| ensures FrameOK(t0, k) { assert FrameOK(s, k); FrameBelow(s, k); }
    forall k: nat, x: nat ensures CellKept(t0, k, x) { PushCell(s, e, k, x); }
    forall k: nat, i: nat ensures SlotSound(t0, k, i) { assert SlotSound(s, k, i); }
    t := t0;
  }

  lemma PushCell(s: Live, e: Cell, k: nat, x: nat)
    requires s.st < s.tt - 1
    ensures CellKept(s.(m := s.m[s.tt := e], tt := s.tt - 1), k, x)
  {
    assert CellKept(s, k, x);
    if k < |s.frames| {
      assert FrameOK(s, k);
      FrameBelow(s, k);
      if x < |s.frames[k].snap| && InTrail(s.m, s.tt, s.frames[k].tt, x) {
        PushedInTrail(s.m, s.tt, s.frames[k].tt, x, e);
      }
    }
  }

  /** An unbound variable is trailable. */
  lemma UnboundTrailable(s: Live, x: nat)
    requires x <= s.st && s.m[x] == Ref(x)
    ensures Trailable(s, Ref(x))
  {
    forall k | 0 <= k < |s.frames| ensures SlotFor(s.frames[k], x) { assert FrameOK(s, k) && CellKept(s, k, x); }
  }

  /** So is a cell that has been stored into and belongs to no frame. */
  lemma StoredTrailable(s: Live, x: nat)
    requires Clear(s.frames, |s.frames|, x)
    requires forall k {:trigger s.frames[k]} :: 0 <= k < |s.frames| ==> x in s.frames[k].stored
    ensures Trailable(s, Ref(x))
  {
    forall k | 0 <= k < |s.frames| ensures SlotFor(s.frames[k], x) { assert FrameOK(s, k) && !IsField(s.frames, k, x); }
  }

  /** The store just made. */
  lemma NowTrailable(s: Live, fs: seq<Frame>, x: nat)
    requires Clear(fs, |fs|, x) && s.frames == StoredTo(fs, x)
    ensures Trailable(s, Ref(x))
  {
    ClearKept(fs, s.frames, |fs|, x);
    StoredTrailable(s, x);
  }

  /** An environment of n cells on top of the stack, with the caller's and the trail top. */
  lemma Allocate(s: Live, n: nat, cf: int, tt: int) returns (t: Live)
    requires n >= 3 && s.st + n < s.tt
    ensures t == s.(m := s.m[s.st + n := Int(cf)][s.st + n - 2 := Int(tt)], st := s.st + n)
  {
    t := Set(s, s.st + n, Int(cf), s.st + n, s.gl);
    t := Set(t, s.st + n - 2, Int(tt), s.st + n, s.gl);
  }

  /** Binding a variable that is above the choice point or on the trail. */
  lemma BindCell(s: Live, x: nat, v: Cell) returns (t: Live)
    requires x <= s.st && s.m[x] == Ref(x)
    requires x < s.bb ==> forall k {:trigger s.frames[k]} :: 0 <= k < |s.frames| ==>
        InTrail(s.m, s.tt, s.frames[k].tt, x)
    ensures t == s.(m := s.m[x := v])
  {
    var t0 := s.(m := s.m[x := v]);
    forall k | 0 <= k < |t0.frames| ensures FrameOK(t0, k) { assert FrameOK(s, k); }
    forall k: nat, y: nat ensures CellKept(t0, k, y) { BoundCell(s, x, v, k, y); }
    forall k: nat, i: nat ensures SlotSound(t0, k, i) { assert SlotSound(s, k, i); }
    t := t0;
  }

  lemma BoundCell(s: Live, x: nat, v: Cell, k: nat, y: nat)
    requires x <= s.st && s.m[x] == Ref(x)
    requires x < s.bb ==> forall k {:trigger s.frames[k]} :: 0 <= k < |s.frames| ==>
        InTrail(s.m, s.tt, s.frames[k].tt, x)
    ensures CellKept(s.(m := s.m[x := v]), k, y)
  {
    assert CellKept(s, k, y);
    if k < |s.frames| && y < |s.frames[k].snap| {
      FrameBelow(s, k);
      assert FrameOK(s, k);
      if InTrail(s.m, s.tt, s.frames[k].tt, y) {
        var i :| s.tt < i <= s.frames[k].tt && i < |s.m| && s.m[i] == Ref(y);
        assert s.m[x := v][i] == Ref(y);
      }
    }
  }

  /** A bind step that trails the variable. */
  lemma BindTrailed(s: Live, x: nat, v: Cell) returns (t: Live)
    requires x <= s.st < s.tt - 1 && s.m[x] == Ref(x)
    ensures t == s.(m := s.m[s.tt := Ref(x)][x := v], tt := s.tt - 1)
  {
    UnboundTrailable(s, x);
    var u := PushTrail(s, Ref(x));
    forall k | 0 <= k < |u.frames| ensures InTrail(u.m, u.tt, u.frames[k].tt, x) {
      assert FrameOK(s, k) && u.m[s.tt] == Ref(x);
    }
    t := BindCell(u, x, v);
  }

  /** A frame is made: its fields lie on top of the stack, and nothing has happened since the snapshot f.snap. */
  lemma NewFrame(s: Live, f: Frame) returns (t: Live)
    requires f.at == s.st && FieldsAt(s.m, f) && f.prev == s.bb <= f.gl && f.gl + CHOICE_SIZE <= f.at && f.stored == {}
    requires STACK_BASE <= f.cf && f.cf + f.n + CHOICE_SIZE <= f.at && |f.snap| == f.at - 6
    requires f.snap[f.cf - 1] == Int(f.cp)
    requires f.snap == s.m[..f.at - 6] && f.tt == s.tt && s.bb + CHOICE_SIZE <= f.at
    requires Clear(s.frames, |s.frames|, f.cf - 1)
    requires BarrierOK(s.frames, |s.frames|, f)
    ensures t == s.(bb := f.at, gl := f.at, frames := s.frames + [f])
  {
    var t0 := s.(bb := f.at, gl := f.at, frames := s.frames + [f]);
    forall k | 0 <= k < |t0.frames| ensures FrameOK(t0, k) { NewFrameOK(s, f, k); }
    forall k: nat, x: nat ensures CellKept(t0, k, x) { NewFrameCell(s, f, k, x); }
    forall k: nat, i: nat ensures SlotSound(t0, k, i) { assert SlotSound(s, k, i); }
    t := t0;
  }

  lemma NewFrameOK(s: Live, f: Frame, k: nat)
    requires f.at == s.st && FieldsAt(s.m, f) && f.prev == s.bb <= f.gl && f.gl + CHOICE_SIZE <= f.at && f.stored == {}
    requires STACK_BASE <= f.cf && f.cf + f.n + CHOICE_SIZE <= f.at && |f.snap| == f.at - 6
    requires f.snap[f.cf - 1] == Int(f.cp)
    requires f.tt == s.tt && Clear(s.frames, |s.frames|, f.cf - 1) && BarrierOK(s.frames, |s.frames|, f)
    requires k <= |s.frames|
    ensures FrameOK(s.(bb := f.at, gl := f.at, frames := s.frames + [f]), k)
  {
    if k < |s.frames| { OldFrameOK(s, f, k); } else { NewestFrameOK(s, f); }
  }

  lemma OldFrameOK(s: Live, f: Frame, k: nat)
    requires k < |s.frames|
    ensures FrameOK(s.(bb := f.at, gl := f.at, frames := s.frames + [f]), k)
  {
    var fs := s.frames + [f];
    assert FrameOK(s, k);
    PointKept(s.frames, fs, k, s.frames[k].b0);
    ClearKept(s.frames, fs, k, s.frames[k].cf - 1);
    assert k > 0 ==> fs[k - 1] == s.frames[k - 1];
  }

  lemma NewestFrameOK(s: Live, f: Frame)
    requires f.at == s.st && FieldsAt(s.m, f) && f.prev == s.bb <= f.gl && f.gl + CHOICE_SIZE <= f.at && f.stored == {}
    requires STACK_BASE <= f.cf && f.cf + f.n + CHOICE_SIZE <= f.at && |f.snap| == f.at - 6
    requires f.snap[f.cf - 1] == Int(f.cp)
    requires f.tt == s.tt && Clear(s.frames, |s.frames|, f.cf - 1) && BarrierOK(s.frames, |s.frames|, f)
    ensures FrameOK(s.(bb := f.at, gl := f.at, frames := s.frames + [f]), |s.frames|)
  {
    var fs, n := s.frames + [f], |s.frames|;
    PointKept(s.frames, fs, n, f.b0);
    ClearKept(s.frames, fs, n, f.cf - 1);
    if n > 0 { assert FrameOK(s, n - 1) && fs[n - 1] == s.frames[n - 1]; }
  }

  lemma NewFrameCell(s: Live, f: Frame, k: nat, x: nat)
    requires 6 <= f.at <= |s.m| && f.snap == s.m[..f.at - 6] && f.stored == {}
    ensures CellKept(s.(bb := f.at, gl := f.at, frames := s.frames + [f]), k, x)
  {
    assert CellKept(s, k, x);
  }

  /** The fields of f have been written, and nothing else. */
  ghost predicate Framed(m: seq<Cell>, m': seq<Cell>, f: Frame) {
    && |m'| == |m| && FieldsAt(m', f)
    && forall x {:trigger m'[x]} :: 0 <= x < |m| && !(f.at - 6 <= x <= f.at) ==> m'[x] == m[x]
  }

  /** The registers are saved in a frame on top of the stack. */
  lemma MakeFrame(s: Live, f: Frame, m: seq<Cell>) returns (t: Live)
    requires f.at == s.st + CHOICE_SIZE < s.tt && f.prev == s.bb && f.gl == s.gl && f.tt == s.tt && f.stored == {}
    requires STACK_BASE <= f.cf && f.cf + f.n <= s.st && s.m[f.cf - 1] == Int(f.cp)
    requires Clear(s.frames, |s.frames|, f.cf - 1)
    requires BarrierOK(s.frames, |s.frames|, f) && f.snap == s.m[..s.st + 1] && Framed(s.m, m, f)
    ensures t == Machine(m, f.at, s.tt, f.at, f.at, s.frames + [f])
  {
    var u := MakeRoom(s, f, m);
    assert u.m[..f.at - 6] == s.m[..s.st + 1];
    t := NewFrame(u, f);
  }

  lemma MakeRoom(s: Live, f: Frame, m: seq<Cell>) returns (t: Live)
    requires f.at == s.st + CHOICE_SIZE < s.tt && Framed(s.m, m, f)
    ensures t == s.(m := m, st := f.at)
  {
    var t0 := s.(m := m, st := f.at);
    forall k | 0 <= k < |s.frames| ensures FieldsAt(t0.m, s.frames[k]) { assert FrameOK(s, k); FrameBelow(s, k); }
    t := AboveLive(s, t0);
  }

  ghost function Popped(s: Machine): Machine
    requires s.tt + 1 < |s.m|
  {
    var e := s.m[s.tt + 1];
    s.(m := if e.Ref? && e.a < s.bb && e.a < |s.m| then s.m[e.a := e] else s.m, tt := s.tt + 1)
  }

  /** An entry is taken off the trail and its cell, when below the choice point, becomes unbound again. */
  lemma PopTrail(s: Live) returns (t: Live)
    requires s.frames != [] && s.tt < s.frames[|s.frames| - 1].tt
    ensures s.tt + 1 < |s.m| && t == Popped(s)
    ensures s.m[s.tt + 1].Ref? && s.m[s.tt + 1].a < s.bb ==> s.m[s.tt + 1].a <= s.st
  {
    var n := |s.frames| - 1;
    assert FrameOK(s, n) && SlotSound(s, n, s.tt + 1);
    var t0 := Popped(s);
    forall k | 0 <= k < |t0.frames| ensures FrameOK(t0, k) { PoppedFrame(s, k); }
    forall k: nat, x: nat ensures CellKept(t0, k, x) { PoppedCell(s, k, x); }
    forall k: nat, i: nat ensures SlotSound(t0, k, i) { assert SlotSound(s, k, i); }
    t := t0;
  }

  lemma PoppedFields(s: Live, k: nat)
    requires k < |s.frames| && s.tt < s.frames[|s.frames| - 1].tt && s.tt + 1 < |s.m|
    ensures FieldsAt(Popped(s).m, s.frames[k]) && s.tt < s.frames[k].tt
  {
    var n := |s.frames| - 1;
    assert FrameOK(s, k) && SlotSound(s, k, s.tt + 1);
    if k < n { FramesOrdered(s, k, n); }
  }

  lemma PoppedFrame(s: Live, k: nat)
    requires k < |s.frames| && s.tt < s.frames[|s.frames| - 1].tt && s.tt + 1 < |s.m|
    ensures FrameOK(Popped(s), k)
  {
    PoppedFields(s, k);
    assert FrameOK(s, k);
    assert Popped(s).frames == s.frames;
  }

  lemma PoppedCell(s: Live, k: nat, x: nat)
    requires s.frames != [] && s.tt < s.frames[|s.frames| - 1].tt && s.tt + 1 < |s.m|
    ensures CellKept(Popped(s), k, x)
  {
    assert CellKept(s, k, x);
    if k < |s.frames| && x < |s.frames[k].snap| {
      assert FrameOK(s, k);
      FrameBelow(s, k);
      if s.m[s.tt + 1] == Ref(x) {
        assert Popped(s).m[x] == Ref(x);
        PoppedEntry(s, k, x);
      } else if x !in s.frames[k].stored && s.m[x] != s.frames[k].snap[x] {
        var i :| s.tt < i <= s.frames[k].tt && i < |s.m| && s.m[i] == Ref(x);
        assert Popped(s).m[i] == Ref(x);
      }
    }
  }

  lemma PoppedEntry(s: Live, k: nat, x: nat)
    requires k < |s.frames| && s.tt < s.frames[|s.frames| - 1].tt && s.tt + 1 < |s.m|
    requires s.m[s.tt + 1] == Ref(x)
    ensures SlotFor(s.frames[k], x)
  {
    if k < |s.frames| - 1 { FramesOrdered(s, k, |s.frames| - 1); }
    assert SlotSound(s, k, s.tt + 1);
  }

  /** Every cell below the newest frame that has not been stored into is as it was when the frame was made. */
  ghost predicate Restored(s: Machine) {
    s.frames != [] && var f := s.frames[|s.frames| - 1];
    && |f.snap| <= |s.m|
    && forall x {:trigger s.m[x]} {:trigger f.snap[x]} :: 0 <= x < |f.snap| && x !in f.stored ==> s.m[x] == f.snap[x]
  }

  /** What the cell x holds once the trail has been unwound up to tt. */
  ghost function Unwound(m: seq<Cell>, tt0: nat, tt: nat, x: nat): Cell
    requires x < |m|
  {
    if InTrail(m, tt0, tt, x) then Ref(x) else m[x]
  }

  /** t is s with the newest frame resumed. */
  ghost predicate ResumedFrom(s: Machine, t: Machine) {
    && s.frames != [] && var f := s.frames[|s.frames| - 1];
    && |f.snap| + 6 == s.bb <= f.tt < |s.m| == |t.m| && t == Machine(t.m, s.st, f.tt, s.bb, s.gl, s.frames)
    && Resumed(s.m, s.tt, t.m, f) && forall x {:trigger t.m[x]} :: s.bb <= x < |t.m| ==> t.m[x] == s.m[x]
  }

  /** All of it but what follows for the arguments and the restored cells. */
  ghost predicate Restarts(s: Machine, t: Machine, n: nat, alt: int) {
    && s.frames != [] && var f := s.frames[|s.frames| - 1]; var g := f.(alt := alt);
    && 0 < f.tt < |s.m| == |t.m|
    && t == Machine(t.m, s.bb + n, f.tt - 1, s.bb, s.bb, s.frames[..|s.frames| - 1] + [g])
    && Resumed(s.m, s.tt, t.m, g) && MirroredAgain(t.m, s.bb, n)
    && t.m[f.tt] == Str(s.bb) && t.m[f.tt + 1..] == s.m[f.tt + 1..]
  }

  lemma ArgumentsRetried(s: Machine, t: Live, n: nat, alt: int)
    requires Restarts(s, t, n, alt)
    ensures Retries(s, t, n, alt)
  {
    var g := t.frames[|t.frames| - 1];
    assert FrameOK(t, |t.frames| - 1);
    ResumedArguments(s.m, s.tt, t, g);
    if n <= g.n { MirroredArguments(t.m, g, s.bb, n); }
  }

  /** m is m0 with the trail from tt0 to tt unwound, as far as cells below bb go. */
  ghost predicate UnwoundBelow(m0: seq<Cell>, tt0: nat, tt: nat, m: seq<Cell>, bb: nat) {
    && |m| == |m0|
    && forall x {:trigger m[x]} :: 0 <= x < |m| ==> m[x] == if x < bb then Unwound(m0, tt0, tt, x) else m0[x]
  }

  /** The next entry is unwound. */
  lemma UnwoundMore(m0: seq<Cell>, tt0: nat, tt: nat, m: seq<Cell>, m': seq<Cell>, bb: nat)
    requires UnwoundBelow(m0, tt0, tt, m, bb) && tt0 <= tt && bb <= tt + 1 < |m|
    requires var e := m[tt + 1]; m' == if e.Ref? && e.a < bb then m[e.a := e] else m
    ensures UnwoundBelow(m0, tt0, tt + 1, m', bb)
  {
    assert m[tt + 1] == m0[tt + 1];
    forall x | 0 <= x < bb ensures m'[x] == Unwound(m0, tt0, tt + 1, x) {
      InTrailMore(m0, tt0, tt, x);
    }
  }

  /** The block m0 with the trail top tt0, and what resuming the choice frame f made of it: the cells below f one by
      one. */
  ghost predicate Resumed(m0: seq<Cell>, tt0: nat, m: seq<Cell>, f: Frame) {
    1 <= f.cf <= |f.snap| <= |m| == |m0| && forall x {:trigger m[x]} :: 0 <= x < |f.snap| ==>
      m[x] == if x == f.cf - 1 then Int(f.cp) else if x in f.stored then Unwound(m0, tt0, f.tt, x) else f.snap[x]
  }

  /** A cell is restored if and only if it has not been stored into since the frame was made, or is the continuation
      slot of the frame's own caller, or unwinding the trail leaves in it what it held. */
  ghost predicate RestoredExactly(m0: seq<Cell>, tt0: nat, m: seq<Cell>, f: Frame)
    requires |f.snap| <= |m| == |m0|
  {
    forall x {:trigger m[x]} :: 0 <= x < |f.snap| ==>
      (m[x] == f.snap[x] <==> x !in f.stored || x == f.cf - 1 || Unwound(m0, tt0, f.tt, x) == f.snap[x])
  }

  /** The arguments are restored. */
  ghost predicate ArgumentsAs(m: seq<Cell>, f: Frame, lo: nat, n: nat) {
    n <= f.n <= |f.snap| && lo + n <= |m| && m[lo..lo + n] == f.snap[|f.snap| - n..]
  }

  /** The last n cells below the frame at bb stand above it, too. */
  ghost predicate MirroredAgain(m: seq<Cell>, bb: nat, n: nat) {
    && n + CHOICE_SIZE <= bb && bb + n < |m|
    && forall x {:trigger m[x]} :: bb < x <= bb + n ==> m[x] == m[x - n - CHOICE_SIZE]
  }

  /** What a retry makes of the engine: the newest frame f has its next alternative, exactly the cells stored into are
      not as they were at f's TRY, the n arguments above the frame are those it was made with, and its generation line
      is the newest entry of the trail. */
  ghost predicate Retries(s: Machine, t: Machine, n: nat, alt: int) {
    && s.frames != [] && var f := s.frames[|s.frames| - 1]; var g := f.(alt := alt);
    && f.at == s.bb && 0 < f.tt < |s.m| == |t.m|
    && t == Machine(t.m, s.bb + n, f.tt - 1, s.bb, s.bb, s.frames[..|s.frames| - 1] + [g])
    && Resumed(s.m, s.tt, t.m, g) && RestoredExactly(s.m, s.tt, t.m, g)
    && MirroredAgain(t.m, s.bb, n) && (n <= f.n ==> ArgumentsAs(t.m, g, s.bb + 1, n))
    && t.m[f.tt] == Str(s.bb) && t.m[f.tt + 1..] == s.m[f.tt + 1..]
  }

  /** The newest frame of s is given up. */
  ghost predicate Dropped(s: Machine, t: Machine) {
    && s.frames != [] && var f := s.frames[|s.frames| - 1];
    f.at >= CHOICE_SIZE && t == Machine(s.m, f.at - CHOICE_SIZE, s.tt, f.prev, f.gl, s.frames[..|s.frames| - 1])
  }

  /** What a trust makes of the engine: the newest frame f is gone, with its generation; exactly the cells stored into
      are not as they were at f's TRY, and its arguments are on top. */
  ghost predicate Trusts(s: Machine, t: Machine) {
    && s.frames != [] && var f := s.frames[|s.frames| - 1];
    && f.at == s.bb >= CHOICE_SIZE && |s.m| == |t.m|
    && t == Machine(t.m, f.at - CHOICE_SIZE, f.tt, f.prev, f.gl, s.frames[..|s.frames| - 1])
    && Resumed(s.m, s.tt, t.m, f) && RestoredExactly(s.m, s.tt, t.m, f)
    && |f.snap| == t.st + 1 && f.n <= t.st + 1 && ArgumentsAs(t.m, f, t.st + 1 - f.n, f.n)
    && forall x {:trigger t.m[x]} :: f.at <= x < |t.m| ==> t.m[x] == s.m[x]
  }

  lemma Trusted(s: Machine, u: Live, t: Live)
    requires ResumedFrom(s, u) && Dropped(u, t)
    ensures Trusts(s, t)
  {
    assert FrameOK(u, |u.frames| - 1);
    ResumedArguments(s.m, s.tt, u, u.frames[|u.frames| - 1]);
  }

  /** The frame that a try makes of the engine's registers, for the caller's environment at cf and the barrier b0. */
  ghost function SavedFrame(s: Machine, cf: nat, b0: nat, dead: bool, n: nat, alt: int): Frame
    requires STACK_BASE <= cf <= s.st < |s.m| && s.m[cf - 1].Int?
  {
    Frame(s.st + CHOICE_SIZE, cf, s.m[cf - 1].i, s.tt, s.bb, b0, alt, s.gl, n, s.m[..s.st + 1], {}, dead)
  }

  /** The registers at a TRY with n arguments, and the cells of the stack. */
  datatype Saved = Saved(cf: nat, b0: nat, dead: bool, tt: nat, bb: nat, gl: nat, n: nat, cells: seq<Cell>)

  ghost predicate SavedAs(f: Frame, r: Saved) {
    && f.cf == r.cf && f.b0 == r.b0 && f.dead == r.dead && f.tt == r.tt && f.prev == r.bb && f.gl == r.gl && f.n == r.n
    && f.snap == r.cells && f.at == |r.cells| + 6
  }

  /** The cells that have not been stored into are in the block m. */
  ghost predicate GivenBack(m: seq<Cell>, cells: seq<Cell>, stored: set<nat>) {
    |cells| <= |m| && forall x: nat {:trigger m[x]} :: x < |cells| && x !in stored ==> m[x] == cells[x]
  }

  /** The frames fs have what the registers were at their TRYs. */
  ghost predicate Remembered(fs: seq<Frame>, rs: seq<Saved>) {
    |rs| == |fs| && forall k {:trigger rs[k]} :: 0 <= k < |fs| ==> SavedAs(fs[k], rs[k])
  }

  /** The registers at the TRY of the newest frame. */
  ghost function LastSaved(rs: seq<Saved>): Saved
    requires rs != []
  {
    rs[|rs| - 1]
  }

  lemma RetriesGiveBack(s: Machine, t: Machine, n: nat, alt: int, rs: seq<Saved>)
    requires Retries(s, t, n, alt) && Remembered(s.frames, rs)
    ensures GivenBack(t.m, LastSaved(rs).cells, s.frames[|s.frames| - 1].stored)
  {
    assert SavedAs(s.frames[|rs| - 1], rs[|rs| - 1]);
  }

  lemma TrustsGiveBack(s: Machine, t: Machine, rs: seq<Saved>)
    requires Trusts(s, t) && Remembered(s.frames, rs)
    ensures GivenBack(t.m, LastSaved(rs).cells, s.frames[|s.frames| - 1].stored)
  {
    assert SavedAs(s.frames[|rs| - 1], rs[|rs| - 1]);
  }

  lemma LastRemembered(fs: seq<Frame>, rs: seq<Saved>)
    requires Remembered(fs, rs) && fs != []
    ensures rs != [] && SavedAs(fs[|fs| - 1], LastSaved(rs))
  {
    assert SavedAs(fs[|rs| - 1], rs[|rs| - 1]);
  }

  lemma RememberedStore(fs: seq<Frame>, rs: seq<Saved>, x: nat)
    requires Remembered(fs, rs)
    ensures Remembered(StoredTo(fs, x), rs)
  {
  }

  lemma RememberedTry(fs: seq<Frame>, rs: seq<Saved>, f: Frame, r: Saved)
    requires Remembered(fs, rs) && SavedAs(f, r)
    ensures Remembered(fs + [f], rs + [r])
  {
  }

  lemma RememberedCut(fs: seq<Frame>, rs: seq<Saved>, n: nat)
    requires Remembered(fs, rs) && n <= |fs|
    ensures Remembered(fs[..n], rs[..n])
  {
  }

  lemma RememberedRetry(fs: seq<Frame>, rs: seq<Saved>, alt: int)
    requires Remembered(fs, rs) && fs != []
    ensures Remembered(fs[..|fs| - 1] + [fs[|fs| - 1].(alt := alt)], rs)
  {
  }

  /** The frame f has been made on top of the stack. */
  ghost predicate Chosen(s: Machine, t: Machine, f: Frame) {
    f.at == s.st + CHOICE_SIZE && Framed(s.m, t.m, f) && t == Machine(t.m, f.at, s.tt, f.at, f.at, s.frames + [f])
  }

  /** What a try makes of the engine: the frame f is on top, the arguments stand above it, too, and the trail has a new
      generation line on top. */
  ghost predicate Tries(s: Machine, t: Machine, f: Frame) {
    && f.at == s.st + CHOICE_SIZE && f.n <= s.st && f.at + f.n < s.tt < |s.m| == |t.m|
    && t == Machine(t.m, f.at + f.n, s.tt - 1, f.at, f.at, s.frames + [f])
    && t.m[..s.st + 1] == s.m[..s.st + 1] && t.m[s.tt] == Str(f.at) && t.m[s.tt + 1..] == s.m[s.tt + 1..]
    && t.m[f.at + 1..f.at + 1 + f.n] == s.m[s.st + 1 - f.n..s.st + 1]
  }

  /** The n cells behind a have been pushed on the stack with the top st. */
  ghost predicate PushedAgain(m0: seq<Cell>, m: seq<Cell>, a: nat, st: nat, n: nat) {
    && a + n <= st && st + n < |m0| == |m|
    && (forall x {:trigger m[x]} :: 0 <= x <= st || st + n < x < |m| ==> m[x] == m0[x])
    && (forall x {:trigger m[x]} :: st < x <= st + n ==> m[x] == m0[a + (x - st)])
  }

  /** The frame f has been made, and its generation line is on the trail. */
  ghost predicate Begun(s: Machine, t: Machine, f: Frame) {
    && f.at == s.st + CHOICE_SIZE < s.tt < |s.m| == |t.m|
    && t == Machine(t.m, f.at, s.tt - 1, f.at, f.at, s.frames + [f])
    && t.m[s.tt] == Str(f.at)
    && forall x {:trigger t.m[x]} :: 0 <= x <= s.st || s.tt < x < |t.m| ==> t.m[x] == s.m[x]
  }

  lemma TriesInSteps(s: Machine, u: Machine, t: Machine, f: Frame)
    requires Begun(s, u, f) && f.n <= s.st && f.at + f.n < s.tt && t == u.(m := t.m, st := f.at + f.n)
    requires PushedAgain(u.m, t.m, s.st - f.n, f.at, f.n)
    ensures Tries(s, t, f)
  {
    var a, b := t.m[f.at + 1..f.at + 1 + f.n], s.m[s.st + 1 - f.n..s.st + 1];
    forall i | 0 <= i < f.n ensures a[i] == b[i] { assert a[i] == t.m[f.at + 1 + i]; }
  }

  lemma MirroredArguments(m: seq<Cell>, f: Frame, bb: nat, n: nat)
    requires |f.snap| == bb - 6 && f.n <= |f.snap| && ArgumentsAs(m, f, |f.snap| - f.n, f.n) && n <= f.n
    requires MirroredAgain(m, bb, n)
    ensures ArgumentsAs(m, f, bb + 1, n)
  {
    var a, b := m[bb + 1..bb + 1 + n], f.snap[|f.snap| - n..];
    forall i | 0 <= i < n ensures a[i] == b[i] {
      assert m[|f.snap| - f.n..|f.snap|][f.n - n + i] == f.snap[|f.snap| - f.n..][f.n - n + i];
    }
  }

  lemma ResumedArguments(m0: seq<Cell>, tt0: nat, s: Live, f: Frame)
    requires s.frames != [] && f == s.frames[|s.frames| - 1] && Resumed(m0, tt0, s.m, f)
    ensures f.n <= |f.snap| && ArgumentsAs(s.m, f, |f.snap| - f.n, f.n) && RestoredExactly(m0, tt0, s.m, f)
  {
    var k := |s.frames| - 1;
    assert FrameOK(s, k);
    forall x | |f.snap| - f.n <= x < |f.snap| ensures s.m[x] == f.snap[x] {
      assert IsField(s.frames, k, x);
    }
  }

  lemma StillResumed(m0: seq<Cell>, tt0: nat, m: seq<Cell>, m': seq<Cell>, f: Frame, g: Frame)
    requires Resumed(m0, tt0, m, f) && g == f.(alt := g.alt)
    requires |m'| == |m| && forall x {:trigger m'[x]} :: 0 <= x < |f.snap| ==> m'[x] == m[x]
    ensures Resumed(m0, tt0, m', g)
  {
  }

  lemma TrailEmptied(s: Live)
    requires s.frames != [] && s.tt == s.frames[|s.frames| - 1].tt
    ensures Restored(s)
  {
    var n := |s.frames| - 1;
    assert FrameOK(s, n);
    forall x | 0 <= x < |s.frames[n].snap| && x !in s.frames[n].stored ensures s.m[x] == s.frames[n].snap[x] {
      assert CellKept(s, n, x);
    }
  }

  lemma NewestSnap(s: Live)
    requires s.frames != []
    ensures |s.frames[|s.frames| - 1].snap| == s.bb - 6 && s.bb <= s.st
  {
    assert FrameOK(s, |s.frames| - 1);
  }

  lemma StillRestored(s: Machine, t: Machine)
    requires Restored(s) && t.frames == s.frames
    requires |s.frames[|s.frames| - 1].snap| <= |t.m|
    requires forall x {:trigger t.m[x]} :: 0 <= x < |s.frames[|s.frames| - 1].snap| ==> t.m[x] == s.m[x]
    ensures Restored(t)
  {
  }

  /** Older choice points are lower. */
  lemma PointsDiffer(s: Live, j: nat)
    requires j < |s.frames|
    ensures Before(s.frames, j) < s.bb
  {
    assert FrameOK(s, |s.frames| - 1);
    BeforeOrdered(s, j, |s.frames| - 1);
  }

  lemma CallerClear(s: Live)
    requires s.frames != []
    ensures Clear(s.frames, |s.frames|, s.frames[|s.frames| - 1].cf - 1)
  {
    var n := |s.frames| - 1;
    var x := s.frames[n].cf - 1;
    assert FrameOK(s, n);
    forall j | 0 <= j < |s.frames| ensures !IsField(s.frames, j, x) { }
  }

  /** What has been stored into since the newest frame was made has been since all others were. */
  lemma StoredSinceAll(s: Live, x: nat)
    requires s.frames != [] && x in s.frames[|s.frames| - 1].stored
    ensures StoredTo(s.frames, x) == s.frames
  {
    var n := |s.frames| - 1;
    forall k | 0 <= k < |s.frames| ensures StoredTo(s.frames, x)[k] == s.frames[k] {
      if k < n { FramesOrdered(s, k, n); }
      assert s.frames[k].stored + {x} == s.frames[k].stored;
    }
  }

  /** The continuation slot of the newest frame's caller gets its old contents. */
  lemma RestoreCont(s: Live) returns (t: Live)
    requires s.frames != [] && Restored(s)
    ensures var f := s.frames[|s.frames| - 1];
      f.cf >= 1 && f.cf - 1 < |s.m| && t == s.(m := s.m[f.cf - 1 := Int(f.cp)])
    ensures Restored(t)
  {
    var n := |s.frames| - 1;
    var f := s.frames[n];
    assert FrameOK(s, n);
    var x := f.cf - 1;
    var t0 := s.(m := s.m[x := Int(f.cp)]);
    if x !in f.stored {
      assert s.m[x] == f.snap[x];
      assert t0.m == s.m;
      t := s;
    } else {
      CallerClear(s);
      StoredSinceAll(s, x);
      t := Store(s, x, Int(f.cp));
    }
  }

  /** Another alternative is recorded in the newest frame. */
  lemma SetAlternative(s: Live, alt: int) returns (t: Live)
    requires s.frames != []
    ensures var n := |s.frames| - 1; var f := s.frames[n];
      f.at >= 5 && f.at < |s.m| && t == s.(m := s.m[f.at - 5 := Int(alt)], frames := s.frames[..n] + [f.(alt := alt)])
  {
    var n := |s.frames| - 1;
    var f := s.frames[n];
    assert FrameOK(s, n);
    var t0 := s.(m := s.m[f.at - 5 := Int(alt)], frames := s.frames[..n] + [f.(alt := alt)]);
    forall k | 0 <= k < |t0.frames| ensures FrameOK(t0, k) {
      assert FrameOK(s, k);
      if k < n { FramesOrdered(s, k, n); }
      AlternativeFrame(s, alt, k, t0);
    }
    forall k: nat, x: nat ensures CellKept(t0, k, x) { AlternativeCell(s, alt, k, x); }
    forall k: nat, i: nat ensures SlotSound(t0, k, i) { assert SlotSound(s, k, i); }
    t := t0;
  }

  /** A frame whose fields are in place is one if it was one with another alternative. */
  lemma FrameAgain(s: Machine, t: Machine, k: nat, alt: int)
    requires k < |s.frames| && k < |t.frames| && FrameOK(s, k) && t.frames[k] == s.frames[k].(alt := alt)
    requires t.tt == s.tt && |t.m| == |s.m| && FieldsAt(t.m, t.frames[k])
    requires forall i {:trigger t.frames[i]} {:trigger s.frames[i]} :: 0 <= i < k ==> t.frames[i] == s.frames[i]
    ensures FrameOK(t, k)
  {
    var f, g := s.frames[k], t.frames[k];
    PointKept(s.frames, t.frames, k, f.b0);
    ClearKept(s.frames, t.frames, k, f.cf - 1);
    forall x | x in g.stored ensures !IsField(t.frames, k, x) { assert !IsField(s.frames, k, x); }
  }

  lemma AlternativeFrame(s: Machine, alt: int, k: nat, t: Machine)
    requires k < |s.frames| && FrameOK(s, k) && FrameOK(s, |s.frames| - 1)
    requires k < |s.frames| - 1 ==> s.frames[k].at + CHOICE_SIZE <= s.frames[|s.frames| - 1].at
    requires var n := |s.frames| - 1; var f := s.frames[n];
      t == s.(m := s.m[f.at - 5 := Int(alt)], frames := s.frames[..n] + [f.(alt := alt)])
    ensures FrameOK(t, k)
  {
    var n := |s.frames| - 1;
    FieldsChanged(s.m, s.frames[k], s.frames[n], alt);
    FrameAgain(s, t, k, if k < n then s.frames[k].alt else alt);
  }

  lemma FieldsChanged(m: seq<Cell>, f: Frame, g: Frame, alt: int)
    requires FieldsAt(m, f) && FieldsAt(m, g) && (f == g || f.at + CHOICE_SIZE <= g.at)
    ensures FieldsAt(m[g.at - 5 := Int(alt)], if f == g then f.(alt := alt) else f)
  {
  }

  lemma AlternativeCell(s: Live, alt: int, k: nat, x: nat)
    requires s.frames != [] && 5 <= s.frames[|s.frames| - 1].at < |s.m|
    ensures var n := |s.frames| - 1; var f := s.frames[n];
      CellKept(s.(m := s.m[f.at - 5 := Int(alt)], frames := s.frames[..n] + [f.(alt := alt)]), k, x)
  {
    var n := |s.frames| - 1;
    var t0 := s.(m := s.m[s.frames[n].at - 5 := Int(alt)], frames := s.frames[..n] + [s.frames[n].(alt := alt)]);
    assert CellKept(s, k, x);
    if k < |s.frames| && x < |s.frames[k].snap| {
      assert FrameOK(s, k) && FrameOK(s, n);
      if k < n { FramesOrdered(s, k, n); }
      if x !in s.frames[k].stored && s.m[x] != s.frames[k].snap[x] {
        var i :| s.tt < i <= s.frames[k].tt && i < |s.m| && s.m[i] == Ref(x);
        assert t0.m[i] == Ref(x);
      }
    }
  }

  /** The frames from the j-th on are given up. */
  lemma CutTo(s: Live, j: nat, st: nat, gl: nat) returns (t: Live)
    requires j <= |s.frames| && Before(s.frames, j) <= gl <= st <= s.st
    ensures t == s.(frames := s.frames[..j], bb := Before(s.frames, j), st := st, gl := gl)
  {
    var t0 := s.(frames := s.frames[..j], bb := Before(s.frames, j), st := st, gl := gl);
    forall k | 0 <= k < |t0.frames| ensures FrameOK(t0, k) {
      assert FrameOK(s, k);
      PointKept(s.frames, t0.frames, k, s.frames[k].b0);
      ClearKept(s.frames, t0.frames, k, s.frames[k].cf - 1);
    }
    forall k: nat, x: nat ensures CellKept(t0, k, x) { assert CellKept(s, k, x); }
    forall k: nat, i: nat ensures SlotSound(t0, k, i) { assert SlotSound(s, k, i); }
    if j == 0 { } else { assert FrameOK(s, j - 1); }
    t := t0;
  }

  /** A retry cuts the stack down to the newest frame, which gets its next alternative. */
  lemma NextAlternative(s: Live, alt: int) returns (t: Live)
    requires s.frames != [] && Restored(s)
    ensures var n := |s.frames| - 1; var f := s.frames[n];
      f.at >= 5 && f.at < |s.m| && Restored(t) &&
      t == Machine(s.m[f.at - 5 := Int(alt)], s.bb, s.tt, s.bb, s.bb, s.frames[..n] + [f.(alt := alt)])
  {
    var u := SetAlternative(s, alt);
    assert u.frames[..|u.frames|] == u.frames;
    assert FrameOK(s, |s.frames| - 1);
    t := CutTo(u, |u.frames|, u.bb, u.bb);
    RestoredByNewest(s, t);
  }

  lemma RestoredByNewest(s: Machine, t: Machine)
    requires Restored(s) && t.frames != []
    requires t.frames[|t.frames| - 1].snap == s.frames[|s.frames| - 1].snap
    requires t.frames[|t.frames| - 1].stored == s.frames[|s.frames| - 1].stored
    requires |s.frames[|s.frames| - 1].snap| <= |t.m|
    requires forall x {:trigger t.m[x]} :: 0 <= x < |s.frames[|s.frames| - 1].snap| ==> t.m[x] == s.m[x]
    ensures Restored(t)
  {
  }

  /** The comparison of a trail entry with the generation line; a generation line carries a tag. */
  predicate NotAbove(e: Cell, gl: nat) {
    match e
    case Ref(a) => a <= gl
    case Str(a) => a < gl
    case _ => false
  }

  ghost predicate Among(m: seq<Cell>, lo: nat, hi: nat, e: Cell) {
    exists i {:trigger m[i]} :: lo < i <= hi && i < |m| && m[i] == e
  }

  /** The entries between lo and hi have been filtered: those not above gl, and only those, are left above lo'. */
  ghost predicate Filtered(m: seq<Cell>, m': seq<Cell>, lo: nat, lo': nat, hi: nat, gl: nat) {
    && |m'| == |m| && lo <= lo' <= hi < |m|
    && (forall x {:trigger m'[x]} :: 0 <= x < |m| && !(lo < x <= hi) ==> m'[x] == m[x])
    && (forall i {:trigger m'[i]} :: lo' < i <= hi ==> NotAbove(m'[i], gl) && Among(m, lo, hi, m'[i]))
    && (forall i {:trigger m[i]} :: lo < i <= hi && NotAbove(m[i], gl) ==> Among(m', lo', hi, m[i]))
  }

  /** A cut that filters the trail down to the newest frame's. */
  lemma FilterCut(s: Live, j: nat, m: seq<Cell>, tt: nat) returns (t: Live)
    requires j < |s.frames|
    requires var f := s.frames[|s.frames| - 1]; Filtered(s.m, m, s.tt, tt, f.tt, f.gl)
    ensures t == Machine(m, s.st, tt, Before(s.frames, j), s.frames[|s.frames| - 1].gl, s.frames[..j])
  {
    var n := |s.frames| - 1;
    var f := s.frames[n];
    var t0 := Machine(m, s.st, tt, Before(s.frames, j), f.gl, s.frames[..j]);
    FilteredRegisters(s, j, m, tt);
    forall k | 0 <= k < |t0.frames| ensures FrameOK(t0, k) { FilteredFrame(s, j, m, tt, k); }
    forall k: nat, x: nat ensures CellKept(t0, k, x) { FilteredCell(s, j, m, tt, k, x); }
    forall k: nat, i: nat ensures SlotSound(t0, k, i) { FilteredSlot(s, j, m, tt, k, i); }
    t := t0;
  }

  lemma FilteredRegisters(s: Live, j: nat, m: seq<Cell>, tt: nat)
    requires j < |s.frames|
    requires var f := s.frames[|s.frames| - 1]; Filtered(s.m, m, s.tt, tt, f.tt, f.gl)
    ensures Registers(Machine(m, s.st, tt, Before(s.frames, j), s.frames[|s.frames| - 1].gl, s.frames[..j]))
  {
    var n := |s.frames| - 1;
    assert FrameOK(s, n);
    BeforeOrdered(s, j, n);
    FrameBelow(s, n);
  }

  lemma FilteredFrame(s: Live, j: nat, m: seq<Cell>, tt: nat, k: nat)
    requires k < j < |s.frames|
    requires var f := s.frames[|s.frames| - 1]; Filtered(s.m, m, s.tt, tt, f.tt, f.gl)
    ensures FrameOK(Machine(m, s.st, tt, Before(s.frames, j), s.frames[|s.frames| - 1].gl, s.frames[..j]), k)
  {
    assert FrameOK(s, k);
    FramesOrdered(s, k, |s.frames| - 1);
    FrameBelow(s, k);
    PointKept(s.frames, s.frames[..j], k, s.frames[k].b0);
    ClearKept(s.frames, s.frames[..j], k, s.frames[k].cf - 1);
  }

  /** The trail still knows a cell that is not above the generation line. */
  lemma FilteredTrail(m: seq<Cell>, m': seq<Cell>, lo: nat, lo': nat, hi: nat, gl: nat, top: nat, x: nat)
    requires Filtered(m, m', lo, lo', hi, gl) && hi <= top && x <= gl && InTrail(m, lo, top, x)
    ensures InTrail(m', lo', top, x)
  {
    var i :| lo < i <= top && i < |m| && m[i] == Ref(x);
    if i <= hi {
      assert Among(m', lo', hi, Ref(x));
      var j :| lo' < j <= hi && j < |m'| && m'[j] == Ref(x);
    } else {
      assert m'[i] == Ref(x);
    }
  }

  /** What an older frame is to restore lies below the generation line that the newer one has saved. */
  lemma SnapBelow(s: Live, k: nat, n: nat)
    requires k < n < |s.frames|
    ensures |s.frames[k].snap| <= s.frames[n].gl && s.frames[n].tt <= s.frames[k].tt && s.frames[n].gl < s.tt
  {
    FrameBelow(s, n);
    assert FrameOK(s, k) && FrameOK(s, n);
    FramesOrdered(s, k, n);
    if k < n - 1 { FramesOrdered(s, k, n - 1); }
  }

  lemma FilteredCell(s: Live, j: nat, m: seq<Cell>, tt: nat, k: nat, x: nat)
    requires j < |s.frames|
    requires var f := s.frames[|s.frames| - 1]; Filtered(s.m, m, s.tt, tt, f.tt, f.gl)
    ensures CellKept(Machine(m, s.st, tt, Before(s.frames, j), s.frames[|s.frames| - 1].gl, s.frames[..j]), k, x)
  {
    var n := |s.frames| - 1;
    var f := s.frames[n];
    assert CellKept(s, k, x);
    if k < j && x < |s.frames[k].snap| {
      SnapBelow(s, k, n);
      if InTrail(s.m, s.tt, s.frames[k].tt, x) { FilteredTrail(s.m, m, s.tt, tt, f.tt, f.gl, s.frames[k].tt, x); }
    }
  }

  lemma FilteredSlot(s: Live, j: nat, m: seq<Cell>, tt: nat, k: nat, i: nat)
    requires j < |s.frames|
    requires var f := s.frames[|s.frames| - 1]; Filtered(s.m, m, s.tt, tt, f.tt, f.gl)
    ensures SlotSound(Machine(m, s.st, tt, Before(s.frames, j), s.frames[|s.frames| - 1].gl, s.frames[..j]), k, i)
  {
    var n := |s.frames| - 1;
    var f := s.frames[n];
    if k < j && i < |m| && tt < i <= s.frames[k].tt {
      FramesOrdered(s, k, n);
      if i <= f.tt {
        var i' :| s.tt < i' <= f.tt && i' < |s.m| && s.m[i'] == m[i];
        assert SlotSound(s, k, i');
      } else {
        assert SlotSound(s, k, i);
      }
    }
  }

  /** The choice frame f lies at bb, whether or not it has been cut in between; none of its fields is on the trail. */
  ghost predicate Standing(m: seq<Cell>, tt: nat, bb: nat, f: Frame) {
    && FieldsAt(m, f) && f.at == bb <= tt <= f.tt < |m| && 1 <= f.cf <= f.at - 6 == |f.snap|
    && forall i {:trigger m[i]} :: tt < i <= f.tt && m[i].Ref? ==> !(f.at - 6 <= m[i].a <= f.at)
  }

  /** The newest frame does. */
  lemma NewestStands(s: Live)
    requires s.frames != []
    ensures Standing(s.m, s.tt, s.bb, s.frames[|s.frames| - 1])
  {
    var n := |s.frames| - 1;
    assert FrameOK(s, n);
    forall i | s.tt < i <= s.frames[n].tt && s.m[i].Ref?
      ensures !(s.frames[n].at - 6 <= s.m[i].a <= s.frames[n].at)
    {
      assert SlotSound(s, n, i);
    }
  }

  /** The block m0 with the trail top tt0 once the frame f has been resumed: the trail is unwound down to f's, and the
      caller's continuation is f's. */
  ghost function ResumedBlock(m0: seq<Cell>, tt0: nat, f: Frame): (m: seq<Cell>)
    ensures |m| == |m0|
    ensures forall x {:trigger m[x]} :: 0 <= x < |m| ==>
      m[x] == if x == f.cf - 1 then Int(f.cp) else if x < f.at then Unwound(m0, tt0, f.tt, x) else m0[x]
  {
    seq(|m0|, x requires 0 <= x < |m0| =>
      if x == f.cf - 1 then Int(f.cp) else if x < f.at then Unwound(m0, tt0, f.tt, x) else m0[x])
  }

  /** Once it has been retried: it has its next alternative, its generation line is the newest entry of the trail, and
      the n cells below it stand above it, too. */
  ghost function RetriedBlock(m0: seq<Cell>, tt0: nat, f: Frame, n: nat, alt: int): (m: seq<Cell>)
    requires n + CHOICE_SIZE <= f.at && f.at + n < f.tt < |m0|
    ensures |m| == |m0|
    ensures forall x {:trigger m[x]} :: 0 <= x < |m| ==> var r := ResumedBlock(m0, tt0, f);
      m[x] == if x == f.tt then Str(f.at) else if x == f.at - 5 then Int(alt)
              else if f.at < x <= f.at + n then r[x - n - CHOICE_SIZE] else r[x]
  {
    var r := ResumedBlock(m0, tt0, f);
    seq(|m0|, x requires 0 <= x < |m0| =>
      if x == f.tt then Str(f.at) else if x == f.at - 5 then Int(alt)
      else if f.at < x <= f.at + n then r[x - n - CHOICE_SIZE] else r[x])
  }

  /** Of the cells below a frame that stands, exactly those are restored that unwinding gives back what they held, and
      its caller's continuation slot. */
  lemma RetriedCell(m0: seq<Cell>, tt0: nat, f: Frame, n: nat, alt: int, x: nat)
    requires Standing(m0, tt0, f.at, f) && n + CHOICE_SIZE <= f.at && f.at + n < f.tt
    requires x < |f.snap| && f.snap[f.cf - 1] == Int(f.cp)
    ensures RetriedBlock(m0, tt0, f, n, alt)[x] == f.snap[x] <==>
      x == f.cf - 1 || Unwound(m0, tt0, f.tt, x) == f.snap[x]
  {
  }

  /** The trail is unwound down to the newest frame's. */
  lemma {:induction false} UnwindAll(s: Live, m0: seq<Cell>, tt0: nat) returns (u: Live)
    requires s.frames != [] && s.tt <= s.frames[|s.frames| - 1].tt && tt0 <= s.tt
    requires UnwoundBelow(m0, tt0, s.tt, s.m, s.bb)
    ensures u == s.(m := u.m, tt := s.frames[|s.frames| - 1].tt) && UnwoundBelow(m0, tt0, u.tt, u.m, s.bb)
    decreases s.frames[|s.frames| - 1].tt - s.tt
  {
    if s.tt < s.frames[|s.frames| - 1].tt {
      var p := PopTrail(s);
      UnwoundMore(m0, tt0, s.tt, s.m, p.m, s.bb);
      u := UnwindAll(p, m0, tt0);
    } else {
      u := s;
    }
  }

  lemma ResumeLive(s: Live) returns (t: Live)
    requires s.frames != []
    ensures var f := s.frames[|s.frames| - 1]; t == s.(m := ResumedBlock(s.m, s.tt, f), tt := f.tt)
    ensures Restored(t) && ResumedFrom(s, t)
  {
    var f := s.frames[|s.frames| - 1];
    NewestStands(s);
    var u := UnwindAll(s, s.m, s.tt);
    TrailEmptied(u);
    t := RestoreCont(u);
    assert FrameOK(t, |s.frames| - 1);
    assert t.m == ResumedBlock(s.m, s.tt, f);
  }

  lemma RetriedSteps(m0: seq<Cell>, tt0: nat, f: Frame, n: nat, alt: int, p: seq<Cell>, m: seq<Cell>)
    requires n + CHOICE_SIZE <= f.at && f.at + n < f.tt < |m0| && 5 <= f.at
    requires p == ResumedBlock(m0, tt0, f)[f.at - 5 := Int(alt)][f.tt := Str(f.at)] && |m| == |p|
    requires forall x {:trigger m[x]} :: 0 <= x < |m| ==>
      m[x] == p[if f.at < x <= f.at + n then x - n - CHOICE_SIZE else x]
    ensures m == RetriedBlock(m0, tt0, f, n, alt)
  {
  }

  /** A retry of the newest frame. */
  lemma RetryLive(s: Live, n: nat, alt: int) returns (t: Live)
    requires s.frames != [] && n + CHOICE_SIZE <= s.bb && s.bb + n < s.frames[|s.frames| - 1].tt - 1
    ensures var f := s.frames[|s.frames| - 1];
      && f.at == s.bb && s.bb + n < f.tt < |s.m| && t.m == RetriedBlock(s.m, s.tt, f, n, alt)
    ensures Retries(s, t, n, alt)
  {
    var f := s.frames[|s.frames| - 1];
    NewestStands(s);
    var r := ResumeLive(s);
    var a := NextAlternative(r, alt);
    var p := PushTrail(a, Str(s.bb));
    t := MirrorLive(p, n);
    RetriedSteps(s.m, s.tt, f, n, alt, p.m, t.m);
    RestartsNow(s, r, t, n, alt);
    ArgumentsRetried(s, t, n, alt);
  }

  lemma RestartsNow(s: Live, r: Live, t: Live, n: nat, alt: int)
    requires s.frames != [] && n + CHOICE_SIZE <= s.bb && s.bb + n < s.frames[|s.frames| - 1].tt - 1
    requires var f := s.frames[|s.frames| - 1];
      && f.at == s.bb && f.tt < |s.m| && ResumedFrom(s, r) && r.m == ResumedBlock(s.m, s.tt, f)
      && t.m == RetriedBlock(s.m, s.tt, f, n, alt)
      && t == Machine(t.m, s.bb + n, f.tt - 1, s.bb, s.bb, s.frames[..|s.frames| - 1] + [f.(alt := alt)])
    ensures Restarts(s, t, n, alt)
  {
    var f := s.frames[|s.frames| - 1];
    StillResumed(s.m, s.tt, r.m, t.m, f, f.(alt := alt));
    assert t.m[f.tt + 1..] == s.m[f.tt + 1..];
  }

  /** The n cells below the frame at the top of the stack are mirrored. */
  lemma MirrorLive(s: Live, n: nat) returns (t: Live)
    requires s.st == s.bb && n + CHOICE_SIZE <= s.bb && s.bb + n < s.tt
    ensures |t.m| == |s.m| && t == s.(m := t.m, st := s.bb + n)
    ensures forall x {:trigger t.m[x]} :: 0 <= x < |t.m| ==>
      t.m[x] == s.m[if s.bb < x <= s.bb + n then x - n - CHOICE_SIZE else x]
  {
    var m := seq(|s.m|, x requires 0 <= x < |s.m| => s.m[if s.bb < x <= s.bb + n then x - n - CHOICE_SIZE else x]);
    t := RaiseLive(s, m, s.bb + n);
  }

  /** The stack grows by cells with any contents. */
  lemma RaiseLive(s: Live, m: seq<Cell>, st: nat) returns (t: Live)
    requires s.st <= st < s.tt && |m| == |s.m|
    requires forall x {:trigger m[x]} :: 0 <= x < |m| && !(s.st < x <= st) ==> m[x] == s.m[x]
    ensures t == s.(m := m, st := st)
  {
    var t0 := s.(m := m, st := st);
    forall k | 0 <= k < |s.frames| ensures FieldsAt(t0.m, s.frames[k]) { assert FrameOK(s, k); FrameBelow(s, k); }
    t := AboveLive(s, t0);
  }

  /** A trust of the newest frame. */
  lemma TrustLive(s: Live) returns (t: Live)
    requires s.frames != []
    ensures Trusts(s, t) && t.m == ResumedBlock(s.m, s.tt, s.frames[|s.frames| - 1])
  {
    var n := |s.frames| - 1;
    var f := s.frames[n];
    var r := ResumeLive(s);
    assert FrameOK(r, n);
    t := CutTo(r, n, f.at - CHOICE_SIZE, f.gl);
    Trusted(s, r, t);
  }

  /** A frame more does not make the barrier a choice point. */
  lemma BarredMore(fs: seq<Frame>, b0: nat, dead: bool, st: nat, f: Frame)
    requires Barred(fs, b0, dead, st) && f.at > st
    ensures Barred(fs + [f], b0, dead, f.at)
  {
    var gs, n := fs + [f], |fs|;
    PointKept(fs, gs, n, b0);
    if IsPoint(gs, n + 1, b0) {
      var j: nat :| j <= n + 1 && Before(gs, j) == b0;
      assert j <= n;
    }
    if IsPoint(gs, n, b0) {
      var j: nat :| j <= n && Before(gs, j) == b0;
      assert j <= n + 1;
    }
  }

  /** A cut down to the j-th frame leaves exactly the points that are not above what it leaves. */
  lemma PointCut(s: Live, j: nat, b: nat)
    requires j <= |s.frames|
    ensures IsPoint(s.frames[..j], j, b) <==> IsPoint(s.frames, |s.frames|, b) && b <= Before(s.frames, j)
  {
    var fs, gs := s.frames, s.frames[..j];
    if IsPoint(gs, j, b) {
      var i: nat :| i <= j && Before(gs, i) == b;
      assert Before(fs, i) == b;
      BeforeOrdered(s, i, j);
    }
    if IsPoint(fs, |fs|, b) && b <= Before(fs, j) {
      var i: nat :| i <= |fs| && Before(fs, i) == b;
      if i > j { PointsApart(s, j, i); } else { assert Before(gs, i) == b; }
    }
  }

  lemma PointsApart(s: Live, j: nat, i: nat)
    requires j < i <= |s.frames|
    ensures Before(s.frames, j) < Before(s.frames, i)
  {
    assert FrameOK(s, i - 1);
    BeforeOrdered(s, j, i - 1);
  }

  /** Backtracking to the newest frame sets the barrier to the frame's. */
  lemma BarrierBack(s: Live, fs: seq<Frame>, st: nat)
    requires s.frames != [] && |fs| == |s.frames|
    requires forall i {:trigger fs[i]} :: 0 <= i < |fs| ==> fs[i].at == s.frames[i].at
    requires st >= s.bb
    ensures var f := s.frames[|s.frames| - 1]; Barred(fs, f.b0, f.dead, st)
  {
    var n := |s.frames| - 1;
    var f := s.frames[n];
    assert FrameOK(s, n);
    PointKept(s.frames, fs[..n], n, f.b0);
    BarredMore(fs[..n], f.b0, f.dead, f.at - CHOICE_SIZE, fs[n]);
    assert fs[..n] + [fs[n]] == fs;
  }

  /** If the frame is given up, its barrier is what it was. */
  lemma BarrierLeft(s: Live)
    requires s.frames != []
    ensures var n := |s.frames| - 1; var f := s.frames[n];
      f.at >= CHOICE_SIZE && Barred(s.frames[..n], f.b0, f.dead, f.at - CHOICE_SIZE)
  {
    var n := |s.frames| - 1;
    assert FrameOK(s, n);
    PointKept(s.frames, s.frames[..n], n, s.frames[n].b0);
  }

  /** t is s once the newest frame has been retried. */
  ghost predicate RetriedFrom(s: Machine, t: Machine, n: nat, alt: int) {
    && s.frames != [] && var f := s.frames[|s.frames| - 1];
    && f.at == s.bb && n + CHOICE_SIZE <= s.bb && s.bb + n < f.tt - 1 && f.tt < |s.m|
    && t.m == RetriedBlock(s.m, s.tt, f, n, alt)
      && t == Machine(t.m, s.bb + n, f.tt - 1, s.bb, s.bb, s.frames[..|s.frames| - 1] + [f.(alt := alt)])
  }

  lemma RetryKeeps(s: Live, t: Machine, n: nat, alt: int)
    requires RetriedFrom(s, t, n, alt)
    ensures Inv(t) && Retries(s, t, n, alt)
    ensures var f := s.frames[|s.frames| - 1]; Barred(t.frames, f.b0, f.dead, t.st)
  {
    var u := RetryLive(s, n, alt);
    assert u == t;
    BarrierBack(s, t.frames, t.st);
  }

  ghost predicate TrustedFrom(s: Machine, t: Machine) {
    && s.frames != [] && var f := s.frames[|s.frames| - 1];
    && f.at >= CHOICE_SIZE
    && t == Machine(ResumedBlock(s.m, s.tt, f), f.at - CHOICE_SIZE, f.tt, f.prev, f.gl, s.frames[..|s.frames| - 1])
  }

  lemma TrustKeeps(s: Live, t: Machine)
    requires TrustedFrom(s, t)
    ensures Inv(t) && Trusts(s, t)
    ensures var f := s.frames[|s.frames| - 1]; Barred(t.frames, f.b0, f.dead, t.st)
  {
    var u := TrustLive(s);
    assert u == t;
    BarrierLeft(s);
  }
}
