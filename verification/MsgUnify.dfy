// msg_unify: unification of an expected message with a fresh copy of the one received, in place, with a work
// stack above the copy and bindings trailed as the engine does.
module MsgUnify {
  import opened Terms
  import opened Substitution
  import opened UnifySteps
  import opened CopyTerm
  import opened WorkRoom

  /** What does not change during a call: the block at its start, the top of the copy, the registers, whether what the
      message can take fits below the trail, and whether the receiver's term takes that much. */
  datatype Call = Call(m0: seq<Cell>, t2: nat, tt0: nat, gl: nat, bb: nat, fits: bool, mould: bool)

  ghost function JobsSize(js: seq<Job>): nat {
    if js == [] then 0 else JobsSize(js[..|js| - 1]) + TermSize(js[|js| - 1].t)
  }

  lemma {:induction false} JobsSizeJoin(ps: seq<Job>, js: seq<Job>)
    ensures JobsSize(ps + js) == JobsSize(ps) + JobsSize(js)
    decreases |js|
  {
    if js == [] {
      assert ps + js == ps;
    } else {
      var n := |js| - 1;
      assert (ps + js)[..|ps| + n] == ps + js[..n];
      JobsSizeJoin(ps, js[..n]);
    }
  }

  lemma {:induction false} JobsSizeSame(ps: seq<Job>, js: seq<Job>)
    requires |ps| == |js| && forall i {:trigger ps[i]} :: 0 <= i < |ps| ==> ps[i].t == js[i].t
    ensures JobsSize(ps) == JobsSize(js)
    decreases |js|
  {
    if js != [] { JobsSizeSame(ps[..|ps| - 1], js[..|js| - 1]); }
  }

  lemma {:induction false} ArgJobsSize(h: Heap, x: nat, y: nat, ss: seq<Term>, ts: seq<Term>)
    requires |ss| == |ts| && Args(h, x, ss) && Args(h, y, ts)
    ensures JobsSize(ArgJobs(h, x, y, ss, ts)) == ArgsSize(ts)
    decreases |ss|
  {
    if ss != [] {
      ArgsFirst(h, x, ss);
      ArgsFirst(h, y, ts);
      ArgJobsSize(h, x + 1, y + 1, ss[1..], ts[1..]);
      var js := ArgJobs(h, x, y, ss, ts);
      assert js[..|js| - 1] == ArgJobs(h, x + 1, y + 1, ss[1..], ts[1..]);
    }
  }

  /** The heap lies in memory, not above the copy. */
  ghost predicate HeapAt(m: seq<Cell>, h: Heap, t2: nat) {
    forall x {:trigger HeapCell(m, h, t2, x)} :: x in h ==> HeapCell(m, h, t2, x)
  }

  ghost predicate HeapCell(m: seq<Cell>, h: Heap, t2: nat, x: nat)
    requires x in h
  {
    x <= t2 && x < |m| && m[x] == h[x]
  }

  /** The pairs js lie on the work stack. */
  ghost predicate Stacked(m: seq<Cell>, t2: nat, st: nat, js: seq<Job>) {
    && st == t2 + 2 * |js| < |m|
    && forall i {:trigger StackedAt(m, t2, js, i)} :: 0 <= i < |js| ==> StackedAt(m, t2, js, i)
  }

  ghost predicate StackedAt(m: seq<Cell>, t2: nat, js: seq<Job>, i: nat)
    requires i < |js|
  {
    t2 + 2 * i + 2 < |m| && m[t2 + 2 * i + 1] == js[i].b && m[t2 + 2 * i + 2] == js[i].a
  }

  ghost predicate BoundBy(bs: seq<Binding>, x: nat) {
    exists i {:trigger bs[i]} :: 0 <= i < |bs| && bs[i].x == x
  }

  ghost predicate InTrail(m: seq<Cell>, tt: nat, tt0: nat, x: nat) {
    exists i {:trigger m[i]} :: tt < i <= tt0 < |m| && m[i] == Ref(x)
  }

  /** Every binding that has to be trailed is, and only bindings not above the generation line are. */
  ghost predicate Trailed(m: seq<Cell>, f: Call, tt: nat, bs: seq<Binding>) {
    && f.t2 <= tt <= f.tt0 < |m|
    && (forall i {:trigger TrailedAt(m, f, tt, bs, i)} :: 0 <= i < |bs| ==> TrailedAt(m, f, tt, bs, i))
    && (forall i {:trigger SlotAt(m, f, bs, i)} :: tt < i <= f.tt0 ==> SlotAt(m, f, bs, i))
  }

  ghost predicate TrailedAt(m: seq<Cell>, f: Call, tt: nat, bs: seq<Binding>, i: nat)
    requires i < |bs|
  {
    bs[i].x <= f.t2 && bs[i].x < |m| && MustTrail(bs[i].x, m[bs[i].x], f.gl, f.bb) ==> InTrail(m, tt, f.tt0, bs[i].x)
  }

  ghost predicate SlotAt(m: seq<Cell>, f: Call, bs: seq<Binding>, i: nat) {
    i < |m| && m[i].Ref? && m[i].a <= f.gl && BoundBy(bs, m[i].a)
  }

  /** Every binding is of a variable of the old heap. */
  ghost predicate OldVars(u: Unif) {
    forall i {:trigger u.bs[i]} :: 0 <= i < |u.bs| ==> Unbound(u.h0, u.bs[i].x)
  }

  /** Only variables have been bound, and nothing outside the heap, the work stack and the trail has changed. */
  ghost predicate Changed(m: seq<Cell>, f: Call, u: Unif) {
    && |m| == |f.m0| && u.h.Keys == u.h0.Keys && OldVars(u)
    && (forall x {:trigger BoundCell(u, x)} :: x in u.h0 ==> BoundCell(u, x))
    && (forall x {:trigger m[x]} :: 0 <= x < |m| && (x > f.tt0 || (x <= f.t2 && x !in u.h)) ==> m[x] == f.m0[x])
  }

  ghost predicate BoundCell(u: Unif, x: nat)
    requires x in u.h0
  {
    x in u.h && (u.h[x] == u.h0[x] || (u.h0[x] == Ref(x) && BoundBy(u.bs, x)))
  }

  /** The pairs left will not run the work stack into the trail if the message fits; a mould runs it there if not. */
  ghost predicate Roomy(f: Call, tt: nat, js: seq<Job>) {
    && f.bb <= f.gl <= f.t2
    && (f.fits ==> f.t2 + JobsPeak(js) <= tt)
    && (f.mould ==> Moulds(js, f.bb) && (f.t2 + JobsPeak(js) <= tt ==> f.fits))
  }

  /** Memory agrees with u. */
  ghost predicate Held(m: seq<Cell>, f: Call, tt: nat, u: LiveUnif) {
    HeapAt(m, u.h, f.t2) && Trailed(m, f, tt, u.bs) && Changed(m, f, u)
  }

  /** Memory and registers agree with u; js are the pairs on the work stack. */
  ghost predicate Linked(m: seq<Cell>, f: Call, st: nat, tt: nat, u: LiveUnif, js: seq<Job>) {
    Held(m, f, tt, u) && Stacked(m, f.t2, st, js) && st <= tt && Roomy(f, tt, u.jobs)
  }

  /** The pair in the registers is next; the others are on the work stack. */
  ghost predicate Current(m: seq<Cell>, f: Call, st: nat, tt: nat, u: LiveUnif, ax: Cell, bx: Cell) {
    && u.jobs != [] && u.jobs[|u.jobs| - 1].a == ax && u.jobs[|u.jobs| - 1].b == bx
    && Linked(m, f, st, tt, u, u.jobs[..|u.jobs| - 1])
  }

  /** The cell found behind bound variables. */
  method Deref(mem: array<Cell>, c: Cell, ghost h: Heap, ghost t2: nat, ghost s: Term) returns (r: Cell)
    requires HeapAt(mem[..], h, t2) && Structures(h) && Denotes(h, c, s) && StrOK(h, c)
    ensures Denotes(h, r, s) && StrOK(h, r) && (r.Ref? ==> Unbound(h, r.a) && r.a < mem.Length)
    ensures (r == c || r in h.Values)
  {
    r := c;
    ghost var k: nat :| Decode(h, c, k) == Some(s);
    if r.Ref? { DenotesRef(h, r.a, s); assert HeapCell(mem[..], h, t2, r.a); }
    while r.Ref? && r != mem[r.a]
      invariant Denotes(h, r, s) && StrOK(h, r) && Decode(h, r, k) == Some(s) && (r == c || r in h.Values)
      invariant r.Ref? ==> r.a in h && r.a < mem.Length && mem[r.a] == h[r.a]
      decreases k
    {
      assert StrOKAt(h, r.a);
      r, k := mem[r.a], k - 1;
      if r.Ref? { DenotesRef(h, r.a, s); assert HeapCell(mem[..], h, t2, r.a); }
    }
  }

  /** The structure found behind references from structure to structure. */
  method DerefStr(mem: array<Cell>, c: Cell, ghost h: Heap, ghost t2: nat, ghost s: Term) returns (r: Cell)
    requires HeapAt(mem[..], h, t2) && Structures(h) && Denotes(h, c, s) && StrOK(h, c) && c.Str?
    ensures Denotes(h, r, s) && StrOK(h, r) && r.Str? && r.a in h && r.a < mem.Length && mem[r.a] == h[r.a]
    ensures c.a in h && (if h[c.a].Fvl? then r == c else h[r.a].Con?)
  {
    r := c;
    assert HeapCell(mem[..], h, t2, r.a);
    ghost var n: nat := 0;
    if !h[c.a].Fvl? { n :| ToFunctor(h, c, n); }
    while mem[r.a].Str? && r != mem[r.a]
      invariant r.Str? && Denotes(h, r, s) && StrOK(h, r) && r.a in h && r.a < mem.Length && mem[r.a] == h[r.a]
      invariant if h[c.a].Fvl? then r == c else ToFunctor(h, r, n)
      decreases n
    {
      DenotesChain(h, r.a, s);
      assert StrOKAt(h, r.a);
      r, n := mem[r.a], n - 1;
      assert HeapCell(mem[..], h, t2, r.a);
    }
  }

  /** v follows u by binding x to d; the pairs js have kept their cells. */
  ghost predicate BoundTo(u: Unif, v: Unif, x: nat, d: Cell, js: seq<Job>) {
    && Unbound(u.h, x) && x in u.h0 && v.h0 == u.h0 && v.h == u.h[x := d] && |v.bs| == |u.bs| + 1
    && v.bs[..|u.bs|] == u.bs && v.bs[|u.bs|].x == x && u.jobs != [] && js == u.jobs[..|u.jobs| - 1] && |v.jobs| == |js|
    && forall i {:trigger js[i]} {:trigger v.jobs[i]} :: 0 <= i < |js| ==>
         v.jobs[i].a == js[i].a && v.jobs[i].b == js[i].b && v.jobs[i].t == js[i].t
  }

  lemma BoundMore(bs: seq<Binding>, cs: seq<Binding>, x: nat)
    requires bs <= cs && BoundBy(bs, x)
    ensures BoundBy(cs, x)
  {
    var i :| 0 <= i < |bs| && bs[i].x == x;
    assert cs[i].x == x;
  }

  /** If a mould is unified, then the variable x of a leaf is bound, and the other pairs stay as they are. */
  ghost predicate AtLeaf(f: Call, x: nat, top: Job, js: seq<Job>, js': seq<Job>) {
    f.mould ==> js' == js && IsLeaf(top.t) && x < f.bb && Moulds(js, f.bb)
  }

  lemma {:induction false} BoundRoom(f: Call, tt: nat, tt': nat, js: seq<Job>, top: Job, js': seq<Job>, x: nat, d: Cell)
    requires Roomy(f, tt, js + [top]) && JobsPeak(js') == JobsPeak(js) && AtLeaf(f, x, top, js, js')
    requires if MustTrail(x, d, f.gl, f.bb) then f.t2 + 2 * |js| < tt && tt' == tt - 1 else tt' == tt
    ensures Roomy(f, tt', js')
  {
    JobsPeakTop(js, top);
  }

  /** The cell x now holds d, and the trail goes down to tt'. */
  ghost predicate Stored(m: seq<Cell>, m': seq<Cell>, f: Call, tt: nat, tt': nat, x: nat, d: Cell) {
    && x <= tt < |m| == |m'| && m'[x] == d && tt - 1 <= tt' <= tt
    && (tt' < tt ==> m'[tt] == Ref(x) && x <= f.gl) && (MustTrail(x, d, f.gl, f.bb) ==> tt' < tt)
    && forall y {:trigger m'[y]} :: 0 <= y < |m| && y != x && (y != tt || tt' == tt) ==> m'[y] == m[y]
  }

  lemma BoundHeap(m: seq<Cell>, m': seq<Cell>, f: Call, st: nat, tt: nat, tt': nat, u: LiveUnif, v: Unif,
                  x: nat, d: Cell, js: seq<Job>)
    requires Linked(m, f, st, tt, u, js) && BoundTo(u, v, x, d, js) && Stored(m, m', f, tt, tt', x, d)
    requires (tt' < tt ==> st < tt)
    ensures HeapAt(m', v.h, f.t2) && Stacked(m', f.t2, st, v.jobs)
  {
    assert HeapCell(m, u.h, f.t2, x);
    forall y | y in v.h ensures HeapCell(m', v.h, f.t2, y) { assert HeapCell(m, u.h, f.t2, y); }
    forall i | 0 <= i < |v.jobs| ensures StackedAt(m', f.t2, v.jobs, i) { assert StackedAt(m, f.t2, js, i); }
  }

  lemma BoundChanged(m: seq<Cell>, m': seq<Cell>, f: Call, st: nat, tt: nat, tt': nat, u: LiveUnif, v: Unif,
                     x: nat, d: Cell, js: seq<Job>)
    requires Linked(m, f, st, tt, u, js) && BoundTo(u, v, x, d, js) && Stored(m, m', f, tt, tt', x, d)
    requires (tt' < tt ==> st < tt)
    ensures Changed(m', f, v)
  {
    assert HeapCell(m, u.h, f.t2, x) && v.bs[|u.bs|].x == x && BoundCell(u, x);
    forall i | 0 <= i < |v.bs| ensures Unbound(v.h0, v.bs[i].x) {
      if i < |u.bs| { assert v.bs[i] == u.bs[i]; }
    }
    forall y | y in v.h0 ensures BoundCell(v, y) {
      assert BoundCell(u, y);
      if y != x && BoundBy(u.bs, y) { BoundMore(u.bs, v.bs, y); }
    }
  }

  lemma BoundTrail(m: seq<Cell>, m': seq<Cell>, f: Call, st: nat, tt: nat, tt': nat, u: LiveUnif, v: Unif,
                   x: nat, d: Cell, js: seq<Job>)
    requires Linked(m, f, st, tt, u, js) && BoundTo(u, v, x, d, js) && Stored(m, m', f, tt, tt', x, d)
    requires (tt' < tt ==> st < tt)
    ensures Trailed(m', f, tt', v.bs)
  {
    forall i | tt' < i <= f.tt0 ensures SlotAt(m', f, v.bs, i) {
      if i == tt { assert v.bs[|u.bs|].x == x; } else { assert SlotAt(m, f, u.bs, i); BoundMore(u.bs, v.bs, m[i].a); }
    }
    forall i | 0 <= i < |v.bs| ensures TrailedAt(m', f, tt', v.bs, i) {
      if v.bs[i].x == x {
        if MustTrail(x, d, f.gl, f.bb) { assert m'[tt] == Ref(x); }
      } else {
        assert v.bs[i] == u.bs[i] && TrailedAt(m, f, tt, u.bs, i);
        if InTrail(m, tt, f.tt0, u.bs[i].x) {
          var j :| tt < j <= f.tt0 && m[j] == Ref(u.bs[i].x);
          assert m'[j] == m[j];
        }
      }
    }
  }

  lemma {:induction false} BoundLinked(m: seq<Cell>, m': seq<Cell>, f: Call, st: nat, tt: nat, tt': nat, u: LiveUnif,
                                       v: LiveUnif,
                    x: nat, d: Cell, js: seq<Job>)
    requires Linked(m, f, st, tt, u, js) && BoundTo(u, v, x, d, js) && AtLeaf(f, x, u.jobs[|js|], js, v.jobs)
    requires Stored(m, m', f, tt, tt', x, d)
    requires if MustTrail(x, d, f.gl, f.bb) then st < tt && tt' == tt - 1 else tt' == tt
    ensures Linked(m', f, st, tt', v, v.jobs)
  {
    BoundHeap(m, m', f, st, tt, tt', u, v, x, d, js);
    BoundChanged(m, m', f, st, tt, tt', u, v, x, d, js);
    BoundTrail(m, m', f, st, tt, tt', u, v, x, d, js);
    JobsPeakSame(v.jobs, js);
    assert u.jobs == js + [u.jobs[|js|]];
    BoundRoom(f, tt, tt', js, u.jobs[|js|], v.jobs, x, d);
  }

  /** What fits leaves room for an entry while the other pairs wait. */
  lemma {:induction false} TopRoom(f: Call, tt: nat, js: seq<Job>)
    requires js != [] && Roomy(f, tt, js)
    ensures f.fits ==> f.t2 + 2 * (|js| - 1) < tt
  {
    JobsPeakAtLeast(js);
  }

  /** trail and bbtrail: a constant is trailed below the choice point only, anything else up to the generation line.
      If the trail has come down to the work stack, ok is false, and nothing has been stored. */
  method BindCell(mem: array<Cell>, x: nat, d: Cell, st: nat, tt: nat, gl: nat, bb: nat,
                  ghost f: Call, ghost u: LiveUnif, ghost v: LiveUnif, ghost js: seq<Job>)
    returns (ok: bool, tt': nat)
    requires Linked(mem[..], f, st, tt, u, js) && BoundTo(u, v, x, d, js) && gl == f.gl && bb == f.bb
    requires AtLeaf(f, x, u.jobs[|js|], js, v.jobs)
    modifies mem
    ensures ok <==> (if d.IsCst() then x < bb else x <= gl) ==> st < tt
    ensures ok ==> Linked(mem[..], f, st, tt', v, v.jobs) && x < mem.Length && mem[x] == d
    ensures if ok && if d.IsCst() then x < bb else x <= gl then
      tt' == tt - 1 && tt < mem.Length && mem[tt] == Ref(x) else tt' == tt
    ensures !ok ==> mem[..] == old(mem[..]) && !f.fits
  {
    TopRoom(f, tt, u.jobs);
    ok, tt' := true, tt;
    if MustTrail(x, d, gl, bb) && st == tt { return false, tt; }
    assert HeapCell(mem[..], u.h, f.t2, x);
    ghost var m := mem[..];
    mem[x] := d;
    if MustTrail(x, d, gl, bb) {
      mem[tt'] := Ref(x);
      tt' := tt' - 1;
    }
    BoundLinked(m, mem[..], f, st, tt, tt', u, v, x, d, js);
  }

  lemma Relinked(m: seq<Cell>, f: Call, st: nat, tt: nat, u: LiveUnif, v: LiveUnif, js: seq<Job>)
    requires Linked(m, f, st, tt, u, js) && v == u.(jobs := v.jobs) && Roomy(f, tt, v.jobs)
    ensures Linked(m, f, st, tt, v, js)
  {
    forall x | x in v.h0 ensures BoundCell(v, x) { assert BoundCell(u, x); }
  }

  /** Full: there is no room for the next cells between the work stack and the trail. */
  datatype Outcome = Continue(ax: Cell, bx: Cell) | Success | Failure | Full

  /** No assignment makes the two terms equal. */
  ghost predicate Hopeless(s: Term, t: Term) {
    forall th: map<nat, Term> {:trigger Unifies(th, s, t)} :: !Unifies(th, s, t)
  }

  /** v is where a round that started in u has led. */
  ghost predicate Reached(m: seq<Cell>, f: Call, st: nat, tt: nat, u: LiveUnif, v: LiveUnif, o: Outcome) {
    && v.h0 == u.h0 && v.s0 == u.s0 && v.t0 == u.t0
    && match o
       case Continue(ax, bx) => Current(m, f, st, tt, v, ax, bx) && JobsSize(v.jobs) < JobsSize(u.jobs)
       case Success => Linked(m, f, st, tt, v, []) && v.jobs == []
       case Failure => Held(m, f, tt, v) && Hopeless(v.s0, v.t0) && !f.mould
       case Full => Held(m, f, tt, v) && f.t2 <= st <= tt < st + 2 && !f.fits
  }

  /** The next pair is taken off the work stack, if there is one. */
  method Next(mem: array<Cell>, t2: nat, st: nat, ghost tt: nat, ghost f: Call, ghost u: LiveUnif, ghost v: LiveUnif)
    returns (o: Outcome, st': nat)
    requires Linked(mem[..], f, st, tt, v, v.jobs) && f.t2 == t2 && JobsSize(v.jobs) < JobsSize(u.jobs)
    requires v.h0 == u.h0 && v.s0 == u.s0 && v.t0 == u.t0
    ensures Reached(mem[..], f, st', tt, u, v, o)
  {
    if st == t2 { return Success, st; }
    ghost var n := |v.jobs| - 1;
    assert StackedAt(mem[..], t2, v.jobs, n);
    forall i | 0 <= i < n ensures StackedAt(mem[..], t2, v.jobs[..n], i) { assert StackedAt(mem[..], t2, v.jobs, i); }
    o, st' := Continue(mem[st], mem[st - 1]), st - 2;
  }

  lemma {:induction false} TopSize(js: seq<Job>)
    requires js != []
    ensures JobsSize(js) == JobsSize(js[..|js| - 1]) + TermSize(js[|js| - 1].t)
    ensures JobsSize(js[..|js| - 1]) < JobsSize(js)
  {
  }

  /** ax is an unbound variable: it is bound to bx, which is not dereferenced. */
  method BindLeft(mem: array<Cell>, t2: nat, st: nat, tt: nat, gl: nat, bb: nat, x: nat, bx: Cell, ghost f: Call,
                  ghost u: LiveUnif)
    returns (o: Outcome, st': nat, tt': nat, ghost v: LiveUnif)
    requires Current(mem[..], f, st, tt, u, Ref(x), bx) && Unbound(u.h, x) && f.t2 == t2 && f.gl == gl && f.bb == bb
    modifies mem
    ensures Reached(mem[..], f, st', tt', u, v, o)
  {
    ghost var js := u.jobs[..|u.jobs| - 1];
    v := BindA(u, x);
    assert v.bs[..|u.bs|] == u.bs;
    MouldLeft(f, tt, u, x);
    var ok;
    ok, tt' := BindCell(mem, x, bx, st, tt, gl, bb, f, u, v, js);
    if !ok { return Full, st, tt, u; }
    TopSize(u.jobs);
    JobsSizeSame(v.jobs, js);
    o, st' := Next(mem, t2, st, tt', f, u, v);
  }

  lemma {:induction false} MouldLeft(f: Call, tt: nat, u: LiveUnif, x: nat)
    requires u.jobs != [] && Roomy(f, tt, u.jobs) && u.jobs[|u.jobs| - 1].a == Ref(x) && Unbound(u.h, x)
    ensures var n := |u.jobs| - 1; AtLeaf(f, x, u.jobs[n], u.jobs[..n], SubstJobs(u.jobs[..n], x, u.jobs[n].t))
  {
    var n := |u.jobs| - 1;
    assert JobAt(u, n) && u.jobs == u.jobs[..n] + [u.jobs[n]];
    DenotesRef(u.h, x, u.jobs[n].s);
    if f.mould { MouldBound(u.jobs[..n], u.jobs[n], x, f.bb); }
  }

  /** bx is an unbound variable of the copy, ax none. */
  method BindRight(mem: array<Cell>, t2: nat, st: nat, tt: nat, gl: nat, bb: nat, ax: Cell, y: nat, ghost f: Call,
                   ghost u: LiveUnif)
    returns (o: Outcome, st': nat, tt': nat, ghost v: LiveUnif)
    requires Current(mem[..], f, st, tt, u, ax, Ref(y)) && Unbound(u.h, y) && !ax.Ref?
    requires f.t2 == t2 && f.gl == gl && f.bb == bb
    modifies mem
    ensures Reached(mem[..], f, st', tt', u, v, o)
  {
    v := BindB(u, y);
    assert v.bs[..|u.bs|] == u.bs;
    MouldRight(f, tt, u, y);
    var ok;
    ok, tt' := BindCell(mem, y, ax, st, tt, gl, bb, f, u, v, v.jobs);
    if !ok { return Full, st, tt, u; }
    TopSize(u.jobs);
    o, st' := Next(mem, t2, st, tt', f, u, v);
  }

  /** A mould has variables where the message has leaves. */
  lemma {:induction false} MouldRight(f: Call, tt: nat, u: LiveUnif, y: nat)
    requires u.jobs != [] && Roomy(f, tt, u.jobs) && Unbound(u.h, y)
    requires !u.jobs[|u.jobs| - 1].a.Ref? && u.jobs[|u.jobs| - 1].b == Ref(y)
    ensures !f.mould
  {
    var n := |u.jobs| - 1;
    assert JobAt(u, n);
    KindOf(u.h, u.jobs[n].a, u.jobs[n].s);
    DenotesRef(u.h, y, u.jobs[n].t);
    assert f.mould ==> MouldAt(u.jobs, n, f.bb);
  }

  /** The pair is done: both sides are the same term. */
  method Agreed(mem: array<Cell>, t2: nat, st: nat, ghost tt: nat, ghost f: Call, ghost u: LiveUnif)
    returns (o: Outcome, st': nat, ghost v: LiveUnif)
    requires u.jobs != [] && Linked(mem[..], f, st, tt, u, u.jobs[..|u.jobs| - 1]) && f.t2 == t2
    requires u.jobs[|u.jobs| - 1].s == u.jobs[|u.jobs| - 1].t
    ensures Reached(mem[..], f, st', tt, u, v, o)
  {
    v := Drop(u);
    TopSize(u.jobs);
    JobsPeakAtLeast(u.jobs);
    MouldIsOther(f, tt, u);
    Relinked(mem[..], f, st, tt, u, v, v.jobs);
    o, st' := Next(mem, t2, st, tt, f, u, v);
  }

  /** A mould has a variable, which the message has not. */
  lemma {:induction false} MouldIsOther(f: Call, tt: nat, u: LiveUnif)
    requires u.jobs != [] && Roomy(f, tt, u.jobs) && u.jobs[|u.jobs| - 1].s == u.jobs[|u.jobs| - 1].t
    ensures !f.mould
  {
    var n := |u.jobs| - 1;
    assert ApartAt(u.jobs, n, n);
    if f.mould {
      assert MouldAt(u.jobs, n, f.bb);
      MouldDiffers(u.jobs[n].s, u.jobs[n].t, f.bb);
    }
  }

  lemma Clash(m: seq<Cell>, f: Call, st: nat, tt: nat, u: LiveUnif)
    requires u.jobs != [] && Linked(m, f, st, tt, u, u.jobs[..|u.jobs| - 1])
    requires var s, t := u.jobs[|u.jobs| - 1].s, u.jobs[|u.jobs| - 1].t;
      !s.Var? && !t.Var? && s != t && (s.Pair? ==> !t.Pair?)
      && (s.Compound? && t.Compound? ==> s.f != t.f || |s.args| != |t.args|)
    ensures Reached(m, f, st, tt, u, u, Failure)
  {
    forall th | Unifies(th, u.s0, u.t0) ensures false { NoUnifier(u, th); }
    MouldFits(f, tt, u.jobs);
  }

  /** A mould does not clash. */
  lemma {:induction false} MouldFits(f: Call, tt: nat, js: seq<Job>)
    requires js != [] && Roomy(f, tt, js)
    requires var s, t := js[|js| - 1].s, js[|js| - 1].t;
      !s.Var? && !t.Var? && s != t && (s.Pair? ==> !t.Pair?)
      && (s.Compound? && t.Compound? ==> s.f != t.f || |s.args| != |t.args|)
    ensures !f.mould
  {
    if f.mould {
      assert MouldAt(js, |js| - 1, f.bb);
      MouldAlike(js[|js| - 1].s, js[|js| - 1].t, f.bb);
    }
  }

  /** A pair goes onto the work stack, unless that would reach the trail. */
  method Push(mem: array<Cell>, st: nat, tt: nat, b: Cell, a: Cell, ghost f: Call, ghost v: LiveUnif,
              ghost js: seq<Job>)
    returns (ok: bool, st': nat)
    requires Linked(mem[..], f, st, tt, v, js) && |js| + 1 < |v.jobs| && js == v.jobs[..|js|]
    requires v.jobs[|js|].a == a && v.jobs[|js|].b == b
    modifies mem
    ensures ok <==> st + 2 <= tt
    ensures ok ==> Linked(mem[..], f, st', tt, v, v.jobs[..|js| + 1])
    ensures !ok ==> mem[..] == old(mem[..]) && st' == st && !f.fits
  {
    TopRoom(f, tt, v.jobs);
    if tt < st + 2 { return false, st; }
    ghost var m := mem[..];
    mem[st + 1] := b;
    mem[st + 2] := a;
    ok, st' := true, st + 2;
    PushLinked(m, mem[..], f, st, tt, v, js);
  }

  lemma PushLinked(m: seq<Cell>, m': seq<Cell>, f: Call, st: nat, tt: nat, v: LiveUnif, js: seq<Job>)
    requires Linked(m, f, st, tt, v, js) && |js| < |v.jobs| && js == v.jobs[..|js|] && st + 2 <= tt
    requires m' == m[st + 1 := v.jobs[|js|].b][st + 2 := v.jobs[|js|].a]
    ensures Linked(m', f, st + 2, tt, v, v.jobs[..|js| + 1])
  {
    var js' := v.jobs[..|js| + 1];
    forall x | x in v.h ensures HeapCell(m', v.h, f.t2, x) { assert HeapCell(m, v.h, f.t2, x); }
    forall i | 0 <= i < |js'| ensures StackedAt(m', f.t2, js', i) { if i < |js| { assert StackedAt(m, f.t2, js, i); } }
    TrailKept(m, m', f, tt, v.bs);
  }

  lemma TrailKept(m: seq<Cell>, m': seq<Cell>, f: Call, tt: nat, bs: seq<Binding>)
    requires Trailed(m, f, tt, bs) && |m'| == |m|
    requires forall i {:trigger m'[i]} :: (0 <= i <= f.t2 || tt < i <= f.tt0) && i < |m| ==> m'[i] == m[i]
    ensures Trailed(m', f, tt, bs)
  {
    forall i | tt < i <= f.tt0 ensures SlotAt(m', f, bs, i) { assert SlotAt(m, f, bs, i); }
    forall i | 0 <= i < |bs| ensures TrailedAt(m', f, tt, bs, i) {
      assert TrailedAt(m, f, tt, bs, i);
      if InTrail(m, tt, f.tt0, bs[i].x) {
        var j :| tt < j <= f.tt0 && m[j] == Ref(bs[i].x);
        assert m'[j] == m[j];
      }
    }
  }

  /** Two lists: the tails go onto the work stack, the heads are next. */
  method UnifyLists(mem: array<Cell>, st: nat, tt: nat, p: nat, q: nat, ghost f: Call, ghost u: LiveUnif)
    returns (o: Outcome, st': nat, ghost v: LiveUnif)
    requires Current(mem[..], f, st, tt, u, Lis(p), Lis(q))
    modifies mem
    ensures Reached(mem[..], f, st', tt, u, v, o)
  {
    v := ListsOpen(mem[..], f, st, tt, u, p, q);
    var ok;
    ok, st' := Push(mem, st, tt, mem[q + 1], mem[p + 1], f, v, u.jobs[..|u.jobs| - 1]);
    if !ok { return Full, st, v; }
    HeapCells(mem[..], v.h, f.t2, p, q, 0);
    o := Continue(mem[p], mem[q]);
  }

  lemma {:induction false} ListsOpen(m: seq<Cell>, f: Call, st: nat, tt: nat, u: LiveUnif, p: nat,
                                     q: nat) returns (v: LiveUnif)
    requires Current(m, f, st, tt, u, Lis(p), Lis(q))
    ensures v.h0 == u.h0 && v.s0 == u.s0 && v.t0 == u.t0 && JobsSize(v.jobs) < JobsSize(u.jobs)
    ensures |v.jobs| == |u.jobs| + 1 && v.jobs[..|u.jobs| - 1] == u.jobs[..|u.jobs| - 1]
    ensures Linked(m, f, st, tt, v, u.jobs[..|u.jobs| - 1])
    ensures p in v.h && p + 1 in v.h && q in v.h && q + 1 in v.h && p + 1 < |m| && q + 1 < |m|
    ensures v.jobs[|u.jobs| - 1].a == m[p + 1] && v.jobs[|u.jobs| - 1].b == m[q + 1]
    ensures v.jobs[|u.jobs|].a == v.h[p] && v.jobs[|u.jobs|].b == v.h[q]
  {
    var n := |u.jobs| - 1;
    var ps, top := u.jobs[..n], u.jobs[n];
    v := SplitPair(u, p, q);
    var tail, head := v.jobs[n], v.jobs[n + 1];
    assert u.jobs == ps + [top];
    ListsSize(ps, top, tail, head);
    ListsRoom(f, tt, ps, top, tail, head);
    assert v.jobs[..n] == ps;
    Relinked(m, f, st, tt, u, v, ps);
    HeapCells(m, v.h, f.t2, p, q, 1);
    HeapCells(m, v.h, f.t2, p, q, 0);
  }

  lemma {:induction false} ListsSize(ps: seq<Job>, top: Job, tail: Job, head: Job)
    requires top.t.Pair? && tail.t == top.t.tail && head.t == top.t.head
    ensures JobsSize(ps + [tail, head]) < JobsSize(ps + [top])
  {
    assert ps + [tail, head] == (ps + [tail]) + [head];
    JobsSizeTop(ps + [tail], head);
    JobsSizeTop(ps, tail);
    JobsSizeTop(ps, top);
  }

  lemma {:induction false} JobsSizeTop(ps: seq<Job>, top: Job)
    ensures JobsSize(ps + [top]) == JobsSize(ps) + TermSize(top.t)
  {
    assert (ps + [top])[..|ps|] == ps && (ps + [top])[|ps|] == top;
  }

  lemma {:induction false} ListsRoom(f: Call, tt: nat, ps: seq<Job>, top: Job, tail: Job, head: Job)
    requires Roomy(f, tt, ps + [top]) && top.s.Pair? && top.t.Pair?
    requires tail.s == top.s.tail && tail.t == top.t.tail && head.s == top.s.head && head.t == top.t.head
    ensures Roomy(f, tt, ps + [tail, head])
  {
    PairPeak(ps, top, tail, head);
    if f.mould { PairMoulds(ps, top, tail, head, f.bb); }
  }

  lemma HeapCells(m: seq<Cell>, h: Heap, t2: nat, p: nat, q: nat, i: nat)
    requires HeapAt(m, h, t2) && p + i in h && q + i in h
    ensures p + i < |m| && m[p + i] == h[p + i] && q + i < |m| && m[q + i] == h[q + i]
  {
    assert HeapCell(m, h, t2, p + i) && HeapCell(m, h, t2, q + i);
  }

  /** Two floats: word by word. */
  method UnifyFloats(mem: array<Cell>, t2: nat, st: nat, p: nat, q: nat, ghost tt: nat, ghost f: Call,
                     ghost u: LiveUnif)
    returns (o: Outcome, st': nat, ghost v: LiveUnif)
    requires Current(mem[..], f, st, tt, u, Str(p), Str(q)) && f.t2 == t2
    requires p in u.h && q in u.h && u.h[p].Fvl? && u.h[q].Fvl?
    ensures Reached(mem[..], f, st', tt, u, v, o)
  {
    assert JobAt(u, |u.jobs| - 1);
    DenotesFloat(u.h, p, u.jobs[|u.jobs| - 1].s);
    DenotesFloat(u.h, q, u.jobs[|u.jobs| - 1].t);
    HeapCells(mem[..], u.h, f.t2, p, q, 1);
    HeapCells(mem[..], u.h, f.t2, p, q, 2);
    if mem[p + 1] != mem[q + 1] || mem[p + 2] != mem[q + 2] {
      o, st', v := Failure, st, u;
      Clash(mem[..], f, st, tt, u);
    } else {
      o, st', v := Agreed(mem, t2, st, tt, f, u);
    }
  }

  /** Two structures, which are dereferenced. */
  method UnifyStructs(mem: array<Cell>, t2: nat, st: nat, tt: nat, ax: Cell, bx: Cell, ghost f: Call, ghost u: LiveUnif)
    returns (o: Outcome, st': nat, ghost v: LiveUnif)
    requires Current(mem[..], f, st, tt, u, ax, bx) && ax.Str? && bx.Str?
    requires ax.a in u.h && bx.a in u.h && !(u.h[ax.a].Fvl? && u.h[bx.a].Fvl?)
    modifies mem
    ensures Reached(mem[..], f, st', tt, u, v, o)
  {
    ghost var top := u.jobs[|u.jobs| - 1];
    assert JobAt(u, |u.jobs| - 1);
    var x := DerefStr(mem, ax, u.h, f.t2, top.s);
    var y := DerefStr(mem, bx, u.h, f.t2, top.t);
    ghost var w := Recell(u, x, y);
    Recelled(mem[..], f, st, tt, u, w);
    o, st', v := UnifyFunctors(mem, st, tt, x.a, y.a, f, w);
  }

  /** Unless the functors at p and q differ, all arguments but the first go onto the work stack. */
  method UnifyFunctors(mem: array<Cell>, st: nat, tt: nat, p: nat, q: nat, ghost f: Call, ghost u: LiveUnif)
    returns (o: Outcome, st': nat, ghost v: LiveUnif)
    requires Current(mem[..], f, st, tt, u, Str(p), Str(q)) && p in u.h && q in u.h && (u.h[p].Con? || u.h[q].Con?)
    requires (u.h[p].Con? || u.h[p].Fvl?) && (u.h[q].Con? || u.h[q].Fvl?)
    modifies mem
    ensures Reached(mem[..], f, st', tt, u, v, o)
  {
    HeapCells(mem[..], u.h, f.t2, p, q, 0);
    var fx, fy := mem[p], mem[q];
    if fx != fy {
      o, st', v := Failure, st, u;
      assert JobAt(u, |u.jobs| - 1);
      FunctorsDiffer(u.h, p, q, u.jobs[|u.jobs| - 1]);
      Clash(mem[..], f, st, tt, u);
    } else {
      o, st', v := UnifyArgs(mem, st, tt, p, q, fx.n, f, u);
    }
  }

  lemma FunctorsDiffer(h: Heap, p: nat, q: nat, top: Job)
    requires Denotes(h, Str(p), top.s) && Denotes(h, Str(q), top.t) && p in h && q in h && h[p] != h[q]
    requires (h[p].Con? || h[p].Fvl?) && (h[q].Con? || h[q].Fvl?)
    ensures !top.s.Var? && !top.t.Var? && top.s != top.t && !top.s.Pair?
    ensures top.s.Compound? && top.t.Compound? ==> top.s.f != top.t.f || |top.s.args| != |top.t.args|
  {
    if h[p].Fvl? { DenotesFloat(h, p, top.s); } else { DenotesStruct(h, p, top.s); }
    if h[q].Fvl? { DenotesFloat(h, q, top.t); } else { DenotesStruct(h, q, top.t); }
  }

  lemma {:induction false} Recelled(m: seq<Cell>, f: Call, st: nat, tt: nat, u: LiveUnif, w: LiveUnif)
    requires u.jobs != [] && Linked(m, f, st, tt, u, u.jobs[..|u.jobs| - 1])
    requires w == u.(jobs := w.jobs) && |w.jobs| == |u.jobs| && w.jobs[..|u.jobs| - 1] == u.jobs[..|u.jobs| - 1]
    requires w.jobs[|u.jobs| - 1].t == u.jobs[|u.jobs| - 1].t && w.jobs[|u.jobs| - 1].s == u.jobs[|u.jobs| - 1].s
    ensures JobsSize(w.jobs) == JobsSize(u.jobs) && Linked(m, f, st, tt, w, u.jobs[..|u.jobs| - 1])
  {
    forall i | 0 <= i < |u.jobs| ensures w.jobs[i].t == u.jobs[i].t && w.jobs[i].s == u.jobs[i].s {
      if i < |u.jobs| - 1 { assert w.jobs[..|u.jobs| - 1][i] == u.jobs[..|u.jobs| - 1][i]; }
    }
    JobsSizeSame(w.jobs, u.jobs);
    JobsPeakSame(w.jobs, u.jobs);
    SitesSame(w.jobs, u.jobs);
    forall i: nat {:trigger MouldAt(w.jobs, i, f.bb)} | f.mould ensures MouldAt(w.jobs, i, f.bb) {
      assert MouldAt(u.jobs, i, f.bb);
    }
    Relinked(m, f, st, tt, u, w, u.jobs[..|u.jobs| - 1]);
  }

  /** The arguments behind two equal functors at p and q, from the last one to the second, go onto the work stack. */
  method UnifyArgs(mem: array<Cell>, st: nat, tt: nat, p: nat, q: nat, n: nat, ghost f: Call, ghost u: LiveUnif)
    returns (o: Outcome, st': nat, ghost v: LiveUnif)
    requires Current(mem[..], f, st, tt, u, Str(p), Str(q))
    requires p in u.h && q in u.h && u.h[p].Con? && u.h[p] == u.h[q] && n == u.h[p].n
    modifies mem
    ensures Reached(mem[..], f, st', tt, u, v, o)
  {
    ghost var k := |u.jobs| - 1;
    v := ArgsOpen(mem[..], f, st, tt, u, p, q);
    st' := st;
    var ax := n;
    while ax > 1
      invariant 1 <= ax <= n && Linked(mem[..], f, st', tt, v, v.jobs[..k + n - ax])
    {
      var ok;
      ok, st' := PushArg(mem, st', tt, p, q, n, ax, f, v, k);
      if !ok { return Full, st', v; }
      ax := ax - 1;
    }
    ArgAt(mem[..], f, st', tt, v, k, p, q, n, 1);
    o := Continue(mem[p + 1], mem[q + 1]);
  }

  method PushArg(mem: array<Cell>, st: nat, tt: nat, p: nat, q: nat, ghost n: nat, ax: nat, ghost f: Call,
                 ghost v: LiveUnif, ghost k: nat)
    returns (ok: bool, st': nat)
    requires ArgsFrom(v, k, p, q, n) && 1 < ax <= n && Linked(mem[..], f, st, tt, v, v.jobs[..k + n - ax])
    modifies mem
    ensures ok ==> Linked(mem[..], f, st', tt, v, v.jobs[..k + n - ax + 1])
    ensures !ok ==> Held(mem[..], f, tt, v) && f.t2 <= st' <= tt < st' + 2 && !f.fits
  {
    ArgAt(mem[..], f, st, tt, v, k, p, q, n, ax);
    ok, st' := Push(mem, st, tt, mem[q + ax], mem[p + ax], f, v, v.jobs[..k + n - ax]);
  }

  /** The pairs from k on are those of the n arguments behind p and q, the last arguments first. */
  ghost predicate ArgsFrom(v: Unif, k: nat, p: nat, q: nat, n: nat) {
    |v.jobs| == k + n && forall i {:trigger ArgPair(v, k, p, q, n, i)} :: 1 <= i <= n ==> ArgPair(v, k, p, q, n, i)
  }

  ghost predicate ArgPair(v: Unif, k: nat, p: nat, q: nat, n: nat, i: nat)
    requires i <= n && |v.jobs| == k + n
  {
    i >= 1 ==> p + i in v.h && q + i in v.h && v.jobs[k + n - i].a == v.h[p + i] && v.jobs[k + n - i].b == v.h[q + i]
  }

  lemma ArgAt(m: seq<Cell>, f: Call, st: nat, tt: nat, v: LiveUnif, k: nat, p: nat, q: nat, n: nat, i: nat)
    requires ArgsFrom(v, k, p, q, n) && 1 <= i <= n && Linked(m, f, st, tt, v, v.jobs[..k + n - i])
    ensures p + i < |m| && q + i < |m| && v.jobs[k + n - i].a == m[p + i] && v.jobs[k + n - i].b == m[q + i]
  {
    assert ArgPair(v, k, p, q, n, i);
    HeapCells(m, v.h, f.t2, p, q, i);
  }

  lemma {:induction false} ArgsOpen(m: seq<Cell>, f: Call, st: nat, tt: nat, u: LiveUnif, p: nat,
                                    q: nat) returns (v: LiveUnif)
    requires Current(m, f, st, tt, u, Str(p), Str(q))
    requires p in u.h && q in u.h && u.h[p].Con? && u.h[p] == u.h[q]
    ensures v.h0 == u.h0 && v.s0 == u.s0 && v.t0 == u.t0 && JobsSize(v.jobs) < JobsSize(u.jobs)
    ensures u.h[p].n > 0 && ArgsFrom(v, |u.jobs| - 1, p, q, u.h[p].n)
    ensures Linked(m, f, st, tt, v, v.jobs[..|u.jobs| - 1])
  {
    var k := |u.jobs| - 1;
    var ps, top, n := u.jobs[..k], u.jobs[k], u.h[p].n;
    v := SplitStruct(u, p, q);
    var js := ArgJobs(u.h, p + 1, q + 1, top.s.args, top.t.args);
    JobsSizeJoin(ps, js);
    ArgJobsSize(u.h, p + 1, q + 1, top.s.args, top.t.args);
    TopSize(u.jobs);
    assert u.jobs == ps + [top] && v.jobs[..k] == ps;
    StructPeak(ps, top, u.h, p + 1, q + 1);
    if f.mould { StructMoulds(ps, top, u.h, p + 1, q + 1, f.bb); }
    Relinked(m, f, st, tt, u, v, ps);
    ArgsPaired(v, ps, top, p, q);
  }

  lemma ArgsPaired(v: Unif, ps: seq<Job>, top: Job, p: nat, q: nat)
    requires top.s.Compound? && top.t.Compound? && |top.s.args| == |top.t.args|
    requires UnifySteps.Args(v.h, p + 1, top.s.args) && UnifySteps.Args(v.h, q + 1, top.t.args)
    requires v.jobs == ps + ArgJobs(v.h, p + 1, q + 1, top.s.args, top.t.args)
    ensures ArgsFrom(v, |ps|, p, q, |top.s.args|)
  {
    var k, n := |ps|, |top.s.args|;
    forall i | 1 <= i <= n ensures ArgPair(v, k, p, q, n, i) {
      ArgJobsAt(v.h, p + 1, q + 1, top.s.args, top.t.args, i - 1);
      assert v.jobs[k + n - i] == ArgJobs(v.h, p + 1, q + 1, top.s.args, top.t.args)[n - i];
    }
  }

  /** One round of the loop. */
  method Round(mem: array<Cell>, t2: nat, st: nat, tt: nat, gl: nat, bb: nat, ax0: Cell, bx0: Cell, ghost f: Call,
               ghost u: LiveUnif)
    returns (o: Outcome, st': nat, tt': nat, ghost v: LiveUnif)
    requires Current(mem[..], f, st, tt, u, ax0, bx0) && f.t2 == t2 && f.gl == gl && f.bb == bb
    modifies mem
    ensures Reached(mem[..], f, st', tt', u, v, o)
  {
    ghost var n := |u.jobs| - 1;
    assert JobAt(u, n);
    var ax := Deref(mem, ax0, u.h, f.t2, u.jobs[n].s);
    ghost var w := Recell(u, ax, bx0);
    Recelled(mem[..], f, st, tt, u, w);
    if ax.Ref? {
      o, st', tt', v := BindLeft(mem, t2, st, tt, gl, bb, ax.a, bx0, f, w);
    } else {
      o, st', tt', v := RoundRight(mem, t2, st, tt, gl, bb, ax, bx0, f, w);
    }
  }

  /** The rest of a round if ax is no variable. */
  method RoundRight(mem: array<Cell>, t2: nat, st: nat, tt: nat, gl: nat, bb: nat, ax: Cell, bx0: Cell, ghost f: Call,
                    ghost u: LiveUnif)
    returns (o: Outcome, st': nat, tt': nat, ghost v: LiveUnif)
    requires Current(mem[..], f, st, tt, u, ax, bx0) && !ax.Ref? && f.t2 == t2 && f.gl == gl && f.bb == bb
    modifies mem
    ensures Reached(mem[..], f, st', tt', u, v, o)
  {
    ghost var n := |u.jobs| - 1;
    assert JobAt(u, n);
    tt' := tt;
    var bx := Deref(mem, bx0, u.h, f.t2, u.jobs[n].t);
    ghost var w := Recell(u, ax, bx);
    Recelled(mem[..], f, st, tt, u, w);
    if bx.Ref? {
      o, st', tt', v := BindRight(mem, t2, st, tt, gl, bb, ax, bx.a, f, w);
    } else {
      o, st', v := UnifyTerms(mem, t2, st, tt, ax, bx, f, w);
    }
  }

  /** Two cells that are no variables. */
  method UnifyTerms(mem: array<Cell>, t2: nat, st: nat, tt: nat, ax: Cell, bx: Cell, ghost f: Call, ghost u: LiveUnif)
    returns (o: Outcome, st': nat, ghost v: LiveUnif)
    requires Current(mem[..], f, st, tt, u, ax, bx) && f.t2 == t2 && !ax.Ref? && !bx.Ref?
    modifies mem
    ensures Reached(mem[..], f, st', tt, u, v, o)
  {
    ghost var top := u.jobs[|u.jobs| - 1];
    assert JobAt(u, |u.jobs| - 1);
    if ax == bx {
      DenotesUnique(u.h, ax, top.s, top.t);
      o, st', v := Agreed(mem, t2, st, tt, f, u);
    } else if ax.Lis? && bx.Lis? {
      o, st', v := UnifyLists(mem, st, tt, ax.a, bx.a, f, u);
    } else if ax.Str? && bx.Str? {
      assert HeapCell(mem[..], u.h, t2, ax.a) && HeapCell(mem[..], u.h, t2, bx.a);
      if mem[ax.a].Fvl? && mem[bx.a].Fvl? {
        o, st', v := UnifyFloats(mem, t2, st, ax.a, bx.a, tt, f, u);
      } else {
        o, st', v := UnifyStructs(mem, t2, st, tt, ax, bx, f, u);
      }
    } else {
      o, st', v := Failure, st, u;
      KindsDiffer(u.h, ax, bx, top);
      Clash(mem[..], f, st, tt, u);
    }
  }

  /** The terms of a cell by its tag. */
  lemma KindOf(h: Heap, c: Cell, s: Term)
    requires Denotes(h, c, s) && StrOK(h, c) && !c.Ref?
    ensures c.Lis? ==> s.Pair?
    ensures c.Str? ==> s.Compound? || s.Real?
    ensures c.IsCst() ==> s == Const(c)
  {
    var k: nat :| Decode(h, c, k) == Some(s);
    if c.Str? { StrKind(h, c, k); }
  }

  lemma {:induction false} StrKind(h: Heap, c: Cell, k: nat)
    requires c.Str? && Decode(h, c, k).Some?
    ensures Decode(h, c, k).value.Compound? || Decode(h, c, k).value.Real?
    decreases k
  {
    if h[c.a].Str? { StrKind(h, h[c.a], k - 1); }
  }

  lemma KindsDiffer(h: Heap, ax: Cell, bx: Cell, top: Job)
    requires Denotes(h, ax, top.s) && Denotes(h, bx, top.t) && StrOK(h, ax) && StrOK(h, bx)
    requires !ax.Ref? && !bx.Ref? && ax != bx && !(ax.Lis? && bx.Lis?) && !(ax.Str? && bx.Str?)
    ensures !top.s.Var? && !top.t.Var? && top.s != top.t && (top.s.Pair? ==> !top.t.Pair?)
    ensures !(top.s.Compound? && top.t.Compound?)
  {
    KindOf(h, ax, top.s);
    KindOf(h, bx, top.t);
  }

  lemma Started(h: Heap, s: Term, t: Term, a: Cell, b: Cell) returns (u: LiveUnif)
    requires Structures(h) && Denotes(h, a, s) && Denotes(h, b, t) && StrOK(h, a) && StrOK(h, b)
    requires Linear(t) && Separate(s, t)
    ensures u == Unif(h, s, t, h, [], [Job(a, s, b, t)])
  {
    var u0 := Unif(h, s, t, h, [], [Job(a, s, b, t)]);
    assert u0.jobs[0].s == s && HasJob(u0.jobs, s, t);
    assert Kept(u0) && General(u0);
    u := u0;
  }

  ghost predicate Ready(m: seq<Cell>, h: Heap, s: Term, t: Term, t1: nat, t2: nat, tt: nat, gl: nat, bb: nat) {
    && t1 < |m| && t2 < |m| && HeapAt(m, h, t2) && Structures(h)
    && Denotes(h, m[t1], s) && Denotes(h, m[t2], t) && StrOK(h, m[t1]) && StrOK(h, m[t2])
    && Linear(t) && Separate(s, t)
    && t2 <= tt < |m| && bb <= gl <= t2
  }

  /** The heap h after a call that bound what bs say. */
  ghost function HeapNow(m: seq<Cell>, h: Heap): Heap {
    map x | x in h && x < |m| :: m[x]
  }

  /** Whatever term a cell denoted in h, it still denotes it, with the bindings applied. */
  ghost predicate StillDenotes(m: seq<Cell>, h: Heap, bs: seq<Binding>) {
    forall c, w {:trigger StillAt(m, h, bs, c, w)} :: StillAt(m, h, bs, c, w)
  }

  ghost predicate StillAt(m: seq<Cell>, h: Heap, bs: seq<Binding>, c: Cell, w: Term) {
    Denotes(h, c, w) ==> Denotes(HeapNow(m, h), c, SubstAll(w, bs))
  }

  /** What a call has done, whether it succeeded or not: every cell that denoted a term still denotes it, with the
      bindings applied, so no reference cycle has come up; the bindings are as general as can be; and whatever
      changed below the choice point is on the trail. */
  ghost predicate Applied(m0: seq<Cell>, m: seq<Cell>, h: Heap, s: Term, t: Term, t2: nat, tt0: nat, tt: nat, gl: nat,
                          bb: nat, bs: seq<Binding>)
  {
    && |m| == |m0| && t2 <= tt <= tt0 < |m|
    && StillDenotes(m, h, bs)
    && (forall th {:trigger Unifies(th, s, t)} :: Unifies(th, s, t) ==> Solves(th, bs))
    && OnTrail(m, h, tt0, tt, gl, bb)
    && (forall x {:trigger m[x]} :: 0 <= x < |m| && (x > tt0 || (x <= t2 && x !in h)) ==> m[x] == m0[x])
  }

  /** What the cells of h have become is on the trail, as far as it has to be; its new entries are variables of h that
      have been bound. */
  ghost predicate OnTrail(m: seq<Cell>, h: Heap, tt0: nat, tt: nat, gl: nat, bb: nat) {
    && tt <= tt0 < |m|
    && (forall x {:trigger m[x]} :: x in h && x < |m| && m[x] != h[x] ==>
          h[x] == Ref(x) && (MustTrail(x, m[x], gl, bb) ==> InTrail(m, tt, tt0, x)))
    && (forall i {:trigger m[i]} :: tt < i <= tt0 ==> m[i].Ref? && m[i].a in h && m[i].a <= gl && h[m[i].a] == m[i])
  }

  /** The receiver's term takes as much room as any. */
  ghost predicate Worst(s: Term, t: Term, bb: nat) {
    Mould(s, t, bb) && Linear(s)
  }

  ghost function Start(m: seq<Cell>, s: Term, t: Term, t2: nat, tt: nat, gl: nat, bb: nat): Call {
    Call(m, t2, tt, gl, bb, t2 + Peak(t) <= tt, Worst(s, t, bb))
  }

  lemma {:induction false} FirstRoom(m: seq<Cell>, j: Job, t2: nat, tt: nat, gl: nat, bb: nat)
    requires bb <= gl <= t2
    ensures Roomy(Start(m, j.s, j.t, t2, tt, gl, bb), tt, [j])
  {
    assert [] + [j] == [j];
    JobsPeakTop([], j);
    SitesTop([], j);
    assert Occurrences(j.s) + [] == Occurrences(j.s);
    forall i: nat {:trigger MouldAt([j], i, bb)} | Mould(j.s, j.t, bb) ensures MouldAt([j], i, bb) {}
  }

  lemma First(m: seq<Cell>, h: Heap, s: Term, t: Term, t1: nat, t2: nat, tt: nat, gl: nat,
              bb: nat) returns (u: LiveUnif)
    requires Ready(m, h, s, t, t1, t2, tt, gl, bb)
    ensures u == Unif(h, s, t, h, [], [Job(m[t1], s, m[t2], t)])
    ensures Current(m, Start(m, s, t, t2, tt, gl, bb), t2, tt, u, m[t1], m[t2])
  {
    u := Started(h, s, t, m[t1], m[t2]);
    assert u.jobs[..0] == [];
    FirstRoom(m, u.jobs[0], t2, tt, gl, bb);
  }

  /** Where the loop is after a round. */
  ghost predicate Paused(m: seq<Cell>, f: Call, st: nat, tt: nat, u: LiveUnif, o: Outcome) {
    && Held(m, f, tt, u)
    && match o
       case Continue(ax, bx) => Current(m, f, st, tt, u, ax, bx)
       case Success => u.jobs == [] && (f.mould ==> f.fits)
       case Failure => Hopeless(u.s0, u.t0) && !f.mould
       case Full => f.t2 <= st <= tt < st + 2 && !f.fits
  }

  lemma ReachedPaused(m: seq<Cell>, f: Call, st: nat, tt: nat, u: LiveUnif, v: LiveUnif, o: Outcome)
    requires Reached(m, f, st, tt, u, v, o)
    ensures Paused(m, f, st, tt, v, o)
  {
  }

  /** How a call ends.  Overrun: the work stack has grown up to st and the trail down to a cell next to it, so that the
      next cells to be written are the other's. */
  datatype Verdict = Unified | Clashing | Overrun(st: nat)

  method Rounds(mem: array<Cell>, t2: nat, tt: nat, gl: nat, bb: nat, ax: Cell, bx: Cell, ghost f: Call,
                ghost u: LiveUnif)
    returns (r: Verdict, tt': nat, ghost v: LiveUnif)
    requires Current(mem[..], f, t2, tt, u, ax, bx) && f.t2 == t2 && f.gl == gl && f.bb == bb
    modifies mem
    ensures v.h0 == u.h0 && v.s0 == u.s0 && v.t0 == u.t0 && Held(mem[..], f, tt', v)
    ensures match r
      case Unified => v.jobs == [] && (f.mould ==> f.fits)
      case Clashing => Hopeless(u.s0, u.t0) && !f.mould
      case Overrun(st) => t2 <= st <= tt' < st + 2 && !f.fits
  {
    var o := Continue(ax, bx);
    var st := t2;
    tt', v := tt, u;
    while o.Continue?
      invariant Paused(mem[..], f, st, tt', v, o) && v.h0 == u.h0 && v.s0 == u.s0 && v.t0 == u.t0
      decreases if o.Continue? then 1 + JobsSize(v.jobs) else 0
    {
      ghost var w := v;
      o, st, tt', v := Round(mem, t2, st, tt', gl, bb, o.ax, o.bx, f, w);
      ReachedPaused(mem[..], f, st, tt', w, v, o);
    }
    r := if o.Success? then Unified else if o.Failure? then Clashing else Overrun(st);
  }

  lemma Concluded(m: seq<Cell>, f: Call, tt: nat, u: LiveUnif)
    requires Held(m, f, tt, u) && HeapAt(f.m0, u.h0, f.t2)
    ensures Applied(f.m0, m, u.h0, u.s0, u.t0, f.t2, f.tt0, tt, f.gl, f.bb, u.bs)
  {
    forall x | x in u.h ensures x < |m| && m[x] == u.h[x] { assert HeapCell(m, u.h, f.t2, x); }
    assert HeapNow(m, u.h0) == u.h;
    forall x | x in u.h0 && x < |m| && m[x] != u.h0[x]
      ensures u.h0[x] == Ref(x) && (MustTrail(x, m[x], f.gl, f.bb) ==> InTrail(m, tt, f.tt0, x))
    {
      assert HeapCell(f.m0, u.h0, f.t2, x) && BoundCell(u, x);
      var i :| 0 <= i < |u.bs| && u.bs[i].x == x;
      assert TrailedAt(m, f, tt, u.bs, i);
    }
    forall i | tt < i <= f.tt0 ensures m[i].Ref? && m[i].a in u.h0 && m[i].a <= f.gl && u.h0[m[i].a] == m[i] {
      assert SlotAt(m, f, u.bs, i);
    }
  }

  /** What a call from t2 up to tt promises: it ends without running the work stack into the trail if the message's peak
      fits between them, and with a receiver's term that takes most only then; and if it does, it has succeeded exactly
      if the terms have a unifier, and then both have become the same term. */
  ghost predicate Decided(r: Verdict, s: Term, t: Term, t2: nat, tt: nat, top: nat, bb: nat, bs: seq<Binding>) {
    && (r.Overrun? ==> tt < t2 + Peak(t) && t2 <= r.st <= top < r.st + 2)
    && (Worst(s, t, bb) ==> (r.Overrun? <==> tt < t2 + Peak(t)) && !r.Clashing?)
    && (!r.Overrun? ==> (r.Unified? <==> !Hopeless(s, t)))
    && (r.Unified? ==> SubstAll(s, bs) == SubstAll(t, bs))
  }

  /** The call on the registers it reads: how it ends, and the top of the trail then. */
  method Unify(mem: array<Cell>, t1: nat, t2: nat, tt: nat, gl: nat, bb: nat, ghost h: Heap, ghost s: Term,
               ghost t: Term)
    returns (r: Verdict, top: nat, ghost bs: seq<Binding>)
    requires Ready(mem[..], h, s, t, t1, t2, tt, gl, bb)
    modifies mem
    ensures Applied(old(mem[..]), mem[..], h, s, t, t2, tt, top, gl, bb, bs) && Decided(r, s, t, t2, tt, top, bb, bs)
  {
    ghost var f := Start(mem[..], s, t, t2, tt, gl, bb);
    ghost var u := First(mem[..], h, s, t, t1, t2, tt, gl, bb);
    r, top, u := Rounds(mem, t2, tt, gl, bb, mem[t1], mem[t2], f, u);
    bs := u.bs;
    Concluded(mem[..], f, top, u);
    if r.Unified? {
      AgreeOnNothing(SubstAll(s, bs), SubstAll(t, bs));
      SuccessUnifies(s, t, bs);
    }
  }

  /** msg_unify: t1 is the cell of the expected message, which denotes s; t2 that of the copied one, which denotes t
      and is the stack top.  h are the live cells.  top is the top of the trail at the end. */
  method MsgUnify(mem: array<Cell>, t1: nat, t2: nat, ip: Imago, ghost h: Heap, ghost s: Term, ghost t: Term)
    returns (r: Verdict, top: nat, ghost bs: seq<Binding>)
    requires Ready(mem[..], h, s, t, t1, t2, ip.tt, ip.gl, ip.bb)
    modifies mem, ip`st, ip`tt
    ensures Applied(old(mem[..]), mem[..], h, s, t, t2, old(ip.tt), top, ip.gl, ip.bb, bs)
    ensures Decided(r, s, t, t2, old(ip.tt), top, ip.bb, bs)
    ensures if r.Unified? then ip.st == t2 && ip.tt == top else ip.st == old(ip.st) && ip.tt == old(ip.tt)
  {
    r, top, bs := Unify(mem, t1, t2, ip.tt, ip.gl, ip.bb, h, s, t);
    if r.Unified? {
      ip.st, ip.tt := t2, top;
    }
  }

  /** The bindings of a success are a unifier, so success and failure exclude each other. */
  lemma SuccessUnifies(s: Term, t: Term, bs: seq<Binding>)
    requires SubstAll(s, bs) == SubstAll(t, bs)
    ensures Unifies(Assignment(bs), s, t) && !Hopeless(s, t)
  {
    AssignmentApplies(s, bs);
    AssignmentApplies(t, bs);
    assert Unifies(Assignment(bs), s, t);
  }
}
