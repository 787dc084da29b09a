// The state of msg_unify and its steps: pairs of cells still to be unified, the bindings made so far, and
// what they mean for the terms of the heap.
module UnifySteps {
  import opened Terms
  import opened Substitution

  /** A pair of cells to be unified, and the terms they denote; t is part of the copied message. */
  datatype Job = Job(a: Cell, s: Term, b: Cell, t: Term)

  /** S and T will be equal when the pairs of ps are. */
  ghost predicate Agree(S: Term, T: Term, ps: seq<Job>) {
    || S == T || HasJob(ps, S, T)
    || (S.Pair? && T.Pair? && Agree(S.head, T.head, ps) && Agree(S.tail, T.tail, ps))
    || (S.Compound? && T.Compound? && S.f == T.f && AgreeArgs(S.args, T.args, ps))
  }

  ghost predicate AgreeArgs(ss: seq<Term>, ts: seq<Term>, ps: seq<Job>) {
    |ss| == |ts| && (ss != [] ==> Agree(ss[0], ts[0], ps) && AgreeArgs(ss[1..], ts[1..], ps))
  }

  ghost predicate HasJob(ps: seq<Job>, S: Term, T: Term) {
    exists i {:trigger ps[i]} :: 0 <= i < |ps| && ps[i].s == S && ps[i].t == T
  }

  /** Each pair of ps agrees modulo qs. */
  ghost predicate Covered(ps: seq<Job>, qs: seq<Job>) {
    forall i {:trigger ps[i]} :: 0 <= i < |ps| ==> Agree(ps[i].s, ps[i].t, qs)
  }

  lemma {:induction false} AgreeReplaced(S: Term, T: Term, ps: seq<Job>, qs: seq<Job>)
    requires Agree(S, T, ps) && Covered(ps, qs)
    ensures Agree(S, T, qs)
  {
    if S != T && !HasJob(ps, S, T) {
      if S.Pair? {
        AgreeReplaced(S.head, T.head, ps, qs);
        AgreeReplaced(S.tail, T.tail, ps, qs);
      } else {
        AgreeArgsReplaced(S.args, T.args, ps, qs);
      }
    }
  }

  lemma {:induction false} AgreeArgsReplaced(ss: seq<Term>, ts: seq<Term>, ps: seq<Job>, qs: seq<Job>)
    requires AgreeArgs(ss, ts, ps) && Covered(ps, qs)
    ensures AgreeArgs(ss, ts, qs)
  {
    if ss != [] {
      AgreeReplaced(ss[0], ts[0], ps, qs);
      AgreeArgsReplaced(ss[1..], ts[1..], ps, qs);
    }
  }

  /** Each pair of ps agrees modulo qs after u has been substituted for x. */
  ghost predicate CoveredSubst(ps: seq<Job>, x: nat, u: Term, qs: seq<Job>) {
    forall i {:trigger ps[i]} :: 0 <= i < |ps| ==> Agree(Subst(ps[i].s, x, u), Subst(ps[i].t, x, u), qs)
  }

  lemma {:induction false} AgreeSubst(S: Term, T: Term, ps: seq<Job>, x: nat, u: Term, qs: seq<Job>)
    requires Agree(S, T, ps) && CoveredSubst(ps, x, u, qs)
    ensures Agree(Subst(S, x, u), Subst(T, x, u), qs)
  {
    if S != T && !HasJob(ps, S, T) {
      if S.Pair? {
        AgreeSubst(S.head, T.head, ps, x, u, qs);
        AgreeSubst(S.tail, T.tail, ps, x, u, qs);
      } else {
        AgreeArgsSubst(S.args, T.args, ps, x, u, qs);
      }
    }
  }

  lemma {:induction false} AgreeArgsSubst(ss: seq<Term>, ts: seq<Term>, ps: seq<Job>, x: nat, u: Term, qs: seq<Job>)
    requires AgreeArgs(ss, ts, ps) && CoveredSubst(ps, x, u, qs)
    ensures AgreeArgs(SubstArgs(ss, x, u), SubstArgs(ts, x, u), qs)
  {
    if ss != [] {
      AgreeSubst(ss[0], ts[0], ps, x, u, qs);
      AgreeArgsSubst(ss[1..], ts[1..], ps, x, u, qs);
      assert SubstArgs(ss, x,
                       u)[1..] == SubstArgs(ss[1..], x, u) && SubstArgs(ts, x, u)[1..] == SubstArgs(ts[1..], x, u);
    }
  }

  lemma {:induction false} AgreeOnNothing(S: Term, T: Term)
    requires Agree(S, T, [])
    ensures S == T
  {
    if S != T {
      if S.Pair? {
        AgreeOnNothing(S.head, T.head);
        AgreeOnNothing(S.tail, T.tail);
      } else {
        AgreeArgsOnNothing(S.args, T.args);
      }
    }
  }

  lemma {:induction false} AgreeArgsOnNothing(ss: seq<Term>, ts: seq<Term>)
    requires AgreeArgs(ss, ts, [])
    ensures ss == ts
  {
    if ss != [] { AgreeOnNothing(ss[0], ts[0]); AgreeArgsOnNothing(ss[1..], ts[1..]); }
  }

  /** The terms share no variable. */
  ghost predicate Separate(s: Term, t: Term) {
    forall v {:trigger v in Occurrences(s)} {:trigger v in Occurrences(t)} :: v in Occurrences(s) ==>
        v !in Occurrences(t)
  }

  /** The variables of s are variables of t. */
  ghost predicate Part(s: Term, t: Term) {
    forall v {:trigger v in Occurrences(s)} :: v in Occurrences(s) ==> v in Occurrences(t)
  }

  datatype Unif = Unif(
    h0: Heap,             // the heap before
    s0: Term, t0: Term,   // the terms to be unified, as they were before
    h: Heap,              // the heap now
    bs: seq<Binding>,     // the bindings made
    jobs: seq<Job>)       // the pairs left; the last one is next

  ghost predicate JobOK(h: Heap, j: Job) {
    Denotes(h, j.a, j.s) && Denotes(h, j.b, j.t) && Linear(j.t) && StrOK(h, j.a) && StrOK(h, j.b)
  }

  ghost predicate JobAt(u: Unif, i: nat) {
    i < |u.jobs| ==> JobOK(u.h, u.jobs[i])
  }

  ghost predicate ApartAt(js: seq<Job>, i: nat, j: nat)
    requires i < |js| && j < |js|
  {
    (i != j ==> Separate(js[i].t, js[j].t)) && Separate(js[i].s, js[j].t)
  }

  ghost predicate Apart(js: seq<Job>) {
    forall i, j {:trigger ApartAt(js, i, j)} :: 0 <= i < |js| && 0 <= j < |js| ==> ApartAt(js, i, j)
  }

  /** Whatever denoted a term still does: the same one, with the bindings applied. */
  ghost predicate Kept(u: Unif) {
    forall c, t {:trigger Denotes(u.h0, c, t)} :: Denotes(u.h0, c, t) ==> Denotes(u.h, c, SubstAll(t, u.bs))
  }

  ghost predicate Unifies(th: map<nat, Term>, s: Term, t: Term) {
    Apply(th, s) == Apply(th, t)
  }

  ghost predicate SolvesJobs(th: map<nat, Term>, js: seq<Job>) {
    forall i {:trigger js[i]} :: 0 <= i < |js| ==> Apply(th, js[i].s) == Apply(th, js[i].t)
  }

  /** Every unifier of the two terms solves all bindings and pairs. */
  ghost predicate General(u: Unif) {
    forall th {:trigger Unifies(th, u.s0, u.t0)} :: Unifies(th, u.s0, u.t0) ==>
        Solves(th, u.bs) && SolvesJobs(th, u.jobs)
  }

  ghost predicate Inv(u: Unif) {
    && Structures(u.h) && Kept(u) && General(u)
    && (forall i: nat {:trigger JobAt(u, i)} :: JobAt(u, i))
    && Apart(u.jobs)
    && Agree(SubstAll(u.s0, u.bs), SubstAll(u.t0, u.bs), u.jobs)
  }

  type LiveUnif = u: Unif | Inv(u) ghost witness Unif(map[], Const(Fvl), Const(Fvl), map[], [], [])

  /** js replace the pair top. */
  ghost predicate Replaces(h: Heap, top: Job, js: seq<Job>) {
    && (forall i {:trigger js[i]} :: 0 <= i < |js| ==> JobOK(h, js[i]) && Part(js[i].s, top.s) && Part(js[i].t, top.t))
    && Apart(js) && Agree(top.s, top.t, js)
    && (forall th {:trigger Unifies(th, top.s, top.t)} :: Unifies(th, top.s, top.t) ==> SolvesJobs(th, js))
  }

  lemma SplitApart(ps: seq<Job>, top: Job, js: seq<Job>, h: Heap)
    requires Apart(ps + [top]) && Replaces(h, top, js)
    ensures Apart(ps + js)
  {
    var qs, n := ps + js, |ps|;
    forall i, j | 0 <= i < |qs| && 0 <= j < |qs| ensures ApartAt(qs, i, j) {
      assert ApartAt(ps + [top], if i < n then i else n, if j < n then j else n);
      assert ApartAt(ps + [top], if j < n then j else n, if i < n then i else n);
      if i >= n && j >= n { assert ApartAt(js, i - n, j - n); }
    }
  }

  lemma SplitGeneral(u: LiveUnif, ps: seq<Job>, top: Job, js: seq<Job>)
    requires u.jobs == ps + [top] && Replaces(u.h, top, js)
    ensures General(u.(jobs := ps + js))
  {
    forall th | Unifies(th, u.s0, u.t0) ensures Solves(th, u.bs) && SolvesJobs(th, ps + js) {
      assert u.jobs[|ps|] == top;
      assert Unifies(th, top.s, top.t);
      forall i | 0 <= i < |ps + js| ensures Apply(th, (ps + js)[i].s) == Apply(th, (ps + js)[i].t) {
        if i < |ps| { assert u.jobs[i] == ps[i]; } else { assert (ps + js)[i] == js[i - |ps|]; }
      }
    }
  }

  lemma SplitAgree(S: Term, T: Term, ps: seq<Job>, top: Job, js: seq<Job>, h: Heap)
    requires Agree(S, T, ps + [top]) && Replaces(h, top, js)
    ensures Agree(S, T, ps + js)
  {
    var qs, rs := ps + [top], ps + js;
    forall i | 0 <= i < |js| ensures Agree(js[i].s, js[i].t, rs) { assert rs[|ps| + i] == js[i]; }
    AgreeReplaced(top.s, top.t, js, rs);
    forall i | 0 <= i < |qs| ensures Agree(qs[i].s, qs[i].t, rs) {
      if i < |ps| { assert rs[i] == qs[i]; }
    }
    AgreeReplaced(S, T, qs, rs);
  }

  /** The last pair gives way to js. */
  lemma Split(u: LiveUnif, js: seq<Job>) returns (v: LiveUnif)
    requires u.jobs != [] && Replaces(u.h, u.jobs[|u.jobs| - 1], js)
    ensures v == u.(jobs := u.jobs[..|u.jobs| - 1] + js)
  {
    var n := |u.jobs| - 1;
    var ps, top := u.jobs[..n], u.jobs[n];
    assert u.jobs == ps + [top];
    SplitApart(ps, top, js, u.h);
    SplitGeneral(u, ps, top, js);
    SplitAgree(SubstAll(u.s0, u.bs), SubstAll(u.t0, u.bs), ps, top, js, u.h);
    var v0 := u.(jobs := ps + js);
    forall i: nat ensures JobAt(v0, i) { assert JobAt(u, i); if n <= i < |ps + js| { assert v0.jobs[i] == js[i - n]; } }
    assert Kept(v0);
    v := v0;
  }

  lemma LinearPair(x: Term, y: Term)
    requires Linear(Pair(x, y))
    ensures Linear(x) && Linear(y) && Separate(x, y) && Separate(y, x)
    ensures Part(x, Pair(x, y)) && Part(y, Pair(x, y))
  {
    JoinedLinear(Occurrences(x), Occurrences(y));
  }

  lemma JoinedLinear(xs: seq<nat>, ys: seq<nat>)
    requires NoRepeat(xs + ys)
    ensures NoRepeat(xs) && NoRepeat(ys)
    ensures forall v :: v in xs ==> v !in ys
    ensures forall v :: v in ys ==> v !in xs
  {
    forall i, j | 0 <= i < j < |xs| ensures xs[i] != xs[j] { assert (xs + ys)[i] == xs[i] && (xs + ys)[j] == xs[j]; }
    forall i, j | 0 <= i < j < |ys| ensures ys[i] != ys[j] {
      assert (xs + ys)[|xs| + i] == ys[i] && (xs + ys)[|xs| + j] == ys[j];
    }
    forall i, j | 0 <= i < |xs| && 0 <= j < |ys| ensures xs[i] != ys[j] {
      assert (xs + ys)[i] == xs[i] && (xs + ys)[|xs| + j] == ys[j];
    }
  }

  /** A cell of the pair that a list cell refers to. */
  lemma DenotesPair(h: Heap, p: nat, s: Term)
    requires Denotes(h, Lis(p), s)
    ensures s.Pair? && p in h && p + 1 in h && Denotes(h, h[p], s.head) && Denotes(h, h[p + 1], s.tail)
  {
    var k: nat :| Decode(h, Lis(p), k) == Some(s);
    assert Decode(h, h[p], k - 1) == Some(s.head) && Decode(h, h[p + 1], k - 1) == Some(s.tail);
  }

  lemma DenotesRef(h: Heap, a: nat, s: Term)
    requires Denotes(h, Ref(a), s)
    ensures a in h && if h[a] == Ref(a) then s == Var(a) else Denotes(h, h[a], s)
  {
    var k: nat :| Decode(h, Ref(a), k) == Some(s);
    if h[a] != Ref(a) { assert Decode(h, h[a], k - 1) == Some(s); }
  }

  lemma DenotesFloat(h: Heap, p: nat, s: Term)
    requires Denotes(h, Str(p), s) && p in h && h[p].Fvl?
    ensures p + 1 in h && p + 2 in h && s == Real(h[p + 1], h[p + 2])
  {
    var k: nat :| Decode(h, Str(p), k) == Some(s);
  }

  lemma DenotesChain(h: Heap, p: nat, s: Term)
    requires Denotes(h, Str(p), s) && p in h && h[p].Str?
    ensures Denotes(h, h[p], s)
  {
    var k: nat :| Decode(h, Str(p), k) == Some(s);
    assert Decode(h, h[p], k - 1) == Some(s);
  }

  lemma DenotesStruct(h: Heap, p: nat, s: Term)
    requires Denotes(h, Str(p), s) && p in h && h[p].Con?
    ensures s.Compound? && s.f == h[p].f && |s.args| == h[p].n > 0 && Args(h, p + 1, s.args)
  {
    var k: nat :| Decode(h, Str(p), k) == Some(s);
    assert DecodeArgs(h, p + 1, h[p].n, k - 1) == Some(s.args);
  }

  /** The cells from a on denote ts. */
  ghost predicate Args(h: Heap, a: nat, ts: seq<Term>) {
    exists k {:trigger DecodeArgs(h, a, |ts|, k)} :: DecodeArgs(h, a, |ts|, k) == Some(ts)
  }

  lemma ArgsFirst(h: Heap, a: nat, ts: seq<Term>)
    requires Args(h, a, ts) && ts != []
    ensures a in h && Denotes(h, h[a], ts[0]) && Args(h, a + 1, ts[1..])
  {
    var k: nat :| DecodeArgs(h, a, |ts|, k) == Some(ts);
    assert Decode(h, h[a], k) == Some(ts[0]);
    assert DecodeArgs(h, a + 1, |ts[1..]|, k) == Some(ts[1..]);
  }

  /** The pairs that unifying two lists amounts to; the heads are next. */
  lemma SplitPair(u: LiveUnif, p: nat, q: nat) returns (v: LiveUnif)
    requires u.jobs != [] && u.jobs[|u.jobs| - 1].a == Lis(p) && u.jobs[|u.jobs| - 1].b == Lis(q)
    ensures var n := |u.jobs| - 1; var top := u.jobs[n];
      && p in u.h && p + 1 in u.h && q in u.h && q + 1 in u.h && top.s.Pair? && top.t.Pair?
      && v == u.(jobs := u.jobs[..n] + [Job(u.h[p + 1], top.s.tail, u.h[q + 1], top.t.tail),
                                        Job(u.h[p], top.s.head, u.h[q], top.t.head)])
  {
    var n := |u.jobs| - 1;
    var h, s, t := u.h, u.jobs[n].s, u.jobs[n].t;
    assert JobAt(u, n) && ApartAt(u.jobs, n, n);
    DenotesPair(h, p, s);
    DenotesPair(h, q, t);
    LinearPair(t.head, t.tail);
    assert StrOKAt(h, p) && StrOKAt(h, p + 1) && StrOKAt(h, q) && StrOKAt(h, q + 1);
    var js := [Job(h[p + 1], s.tail, h[q + 1], t.tail), Job(h[p], s.head, h[q], t.head)];
    PairReplaces(u.jobs[n], js);
    v := Split(u, js);
  }

  lemma PairReplaces(top: Job, js: seq<Job>)
    requires top.s.Pair? && top.t.Pair? && Separate(top.s, top.t) && Linear(top.t) && |js| == 2
    requires js[0].s == top.s.tail && js[0].t == top.t.tail && js[1].s == top.s.head && js[1].t == top.t.head
    ensures Apart(js) && Agree(top.s, top.t, js)
    ensures forall i {:trigger js[i]} :: 0 <= i < |js| ==> Part(js[i].s, top.s) && Part(js[i].t, top.t)
    ensures forall th {:trigger Unifies(th, top.s, top.t)} :: Unifies(th, top.s, top.t) ==> SolvesJobs(th, js)
  {
    LinearPair(top.t.head, top.t.tail);
    assert js[0].s == top.s.tail && js[1].s == top.s.head;
    assert HasJob(js, top.s.head, top.t.head) && HasJob(js, top.s.tail, top.t.tail);
    assert Agree(top.s.head, top.t.head, js) && Agree(top.s.tail, top.t.tail, js);
  }

  /** The pairs that unifying two argument lists amounts to; the first arguments are next. */
  ghost function ArgJobs(h: Heap, x: nat, y: nat, ss: seq<Term>, ts: seq<Term>): (js: seq<Job>)
    requires |ss| == |ts| && Args(h, x, ss) && Args(h, y, ts)
    ensures |js| == |ss|
    decreases |ss|
  {
    if ss == [] then [] else
    ArgsFirst(h, x, ss);
    ArgsFirst(h, y, ts);
    ArgJobs(h, x + 1, y + 1, ss[1..], ts[1..]) + [Job(h[x], ss[0], h[y], ts[0])]
  }

  lemma {:induction false} ArgJobsAt(h: Heap, x: nat, y: nat, ss: seq<Term>, ts: seq<Term>, i: nat)
    requires |ss| == |ts| && Args(h, x, ss) && Args(h, y, ts) && i < |ss|
    ensures x + i in h && y + i in h
    ensures ArgJobs(h, x, y, ss, ts)[|ss| - 1 - i] == Job(h[x + i], ss[i], h[y + i], ts[i])
    ensures Denotes(h, h[x + i], ss[i]) && Denotes(h, h[y + i], ts[i])
    decreases i
  {
    ArgsFirst(h, x, ss);
    ArgsFirst(h, y, ts);
    if i > 0 { ArgJobsAt(h, x + 1, y + 1, ss[1..], ts[1..], i - 1); }
  }

  lemma {:induction false} ArgPart(ts: seq<Term>, i: nat, v: nat)
    requires i < |ts| && v in Occurrences(ts[i])
    ensures v in ArgOccurrences(ts)
  {
    if i > 0 { ArgPart(ts[1..], i - 1, v); }
  }

  lemma {:induction false} ArgsLinear(ts: seq<Term>, i: nat)
    requires NoRepeat(ArgOccurrences(ts)) && i < |ts|
    ensures Linear(ts[i])
  {
    JoinedLinear(Occurrences(ts[0]), ArgOccurrences(ts[1..]));
    if i > 0 { ArgsLinear(ts[1..], i - 1); }
  }

  lemma {:induction false} ArgsSeparate(ts: seq<Term>, i: nat, j: nat)
    requires NoRepeat(ArgOccurrences(ts)) && i < j < |ts|
    ensures Separate(ts[i], ts[j])
  {
    JoinedLinear(Occurrences(ts[0]), ArgOccurrences(ts[1..]));
    if i > 0 {
      ArgsSeparate(ts[1..], i - 1, j - 1);
    } else {
      forall v | v in Occurrences(ts[0]) ensures v !in Occurrences(ts[j]) {
        if v in Occurrences(ts[j]) { ArgPart(ts[1..], j - 1, v); }
      }
    }
  }

  lemma {:induction false} ArgsAgree(ss: seq<Term>, ts: seq<Term>, js: seq<Job>)
    requires |ss| == |ts| && forall i :: 0 <= i < |ss| ==> HasJob(js, ss[i], ts[i])
    ensures AgreeArgs(ss, ts, js)
  {
    if ss != [] {
      forall i | 0 <= i < |ss[1..]| ensures HasJob(js, ss[1..][i], ts[1..][i]) {
        assert HasJob(js, ss[i + 1], ts[i + 1]);
      }
      ArgsAgree(ss[1..], ts[1..], js);
    }
  }

  lemma ArgApart(h: Heap, x: nat, y: nat, ss: seq<Term>, ts: seq<Term>, f: nat, i: nat, j: nat)
    requires |ss| == |ts| && Args(h, x, ss) && Args(h, y, ts) && i < |ss| && j < |ss|
    requires Linear(Compound(f, ts)) && Separate(Compound(f, ss), Compound(f, ts))
    ensures ApartAt(ArgJobs(h, x, y, ss, ts), i, j)
  {
    var n := |ss| - 1;
    ArgJobsAt(h, x, y, ss, ts, n - i);
    ArgJobsAt(h, x, y, ss, ts, n - j);
    if i < j { ArgsSeparate(ts, n - j, n - i); }
    if j < i { ArgsSeparate(ts, n - i, n - j); }
    ArgIsPart(f, ss, n - i);
    ArgIsPart(f, ts, n - j);
    PartsSeparate(ss[n - i], Compound(f, ss), ts[n - j], Compound(f, ts));
  }

  lemma ArgIsPart(f: nat, ts: seq<Term>, i: nat)
    requires i < |ts|
    ensures Part(ts[i], Compound(f, ts))
  {
    forall v | v in Occurrences(ts[i]) ensures v in Occurrences(Compound(f, ts)) { ArgPart(ts, i, v); }
  }

  lemma PartsSeparate(s: Term, S: Term, t: Term, T: Term)
    requires Part(s, S) && Part(t, T) && Separate(S, T)
    ensures Separate(s, t)
  {
  }

  lemma ArgReplaces(h: Heap, x: nat, y: nat, top: Job)
    requires Structures(h) && top.s.Compound? && top.t.Compound? && top.s.f == top.t.f && |top.s.args| == |top.t.args|
    requires Args(h, x, top.s.args) && Args(h, y, top.t.args) && Linear(top.t) && Separate(top.s, top.t)
    ensures Replaces(h, top, ArgJobs(h, x, y, top.s.args, top.t.args))
  {
    var ss, ts := top.s.args, top.t.args;
    var js, n := ArgJobs(h, x, y, ss, ts), |ss| - 1;
    forall i | 0 <= i < |js| ensures JobOK(h, js[i]) && Part(js[i].s, top.s) && Part(js[i].t, top.t) {
      ArgJobsAt(h, x, y, ss, ts, n - i);
      assert StrOKAt(h, x + (n - i)) && StrOKAt(h, y + (n - i));
      ArgsLinear(ts, n - i);
      ArgIsPart(top.s.f, ss, n - i);
      ArgIsPart(top.t.f, ts, n - i);
    }
    forall i, j | 0 <= i < |js| && 0 <= j < |js| ensures ApartAt(js, i, j) { ArgApart(h, x, y, ss, ts, top.s.f, i, j); }
    forall i | 0 <= i < |ss| ensures HasJob(js, ss[i], ts[i]) {
      ArgJobsAt(h, x, y, ss, ts, i);
      assert js[n - i].s == ss[i];
    }
    ArgsAgree(ss, ts, js);
    forall th | Unifies(th, top.s, top.t) ensures SolvesJobs(th, js) { ArgsSolved(h, x, y, ss, ts, th); }
  }

  lemma ArgsSolved(h: Heap, x: nat, y: nat, ss: seq<Term>, ts: seq<Term>, th: map<nat, Term>)
    requires |ss| == |ts| && Args(h, x, ss) && Args(h, y, ts) && ApplyArgs(th, ss) == ApplyArgs(th, ts)
    ensures SolvesJobs(th, ArgJobs(h, x, y, ss, ts))
  {
    var js, n := ArgJobs(h, x, y, ss, ts), |ss| - 1;
    forall i | 0 <= i < |js| ensures Apply(th, js[i].s) == Apply(th, js[i].t) {
      ArgJobsAt(h, x, y, ss, ts, n - i);
      ApplyArgsAt(th, ss, n - i);
      ApplyArgsAt(th, ts, n - i);
    }
  }

  /** Two structures with the same functor, at x and at y. */
  lemma SplitStruct(u: LiveUnif, x: nat, y: nat) returns (v: LiveUnif)
    requires u.jobs != [] && u.jobs[|u.jobs| - 1].a == Str(x) && u.jobs[|u.jobs| - 1].b == Str(y)
    requires x in u.h && y in u.h && u.h[x].Con? && u.h[y] == u.h[x]
    ensures var n := |u.jobs| - 1; var top := u.jobs[n];
      && top.s.Compound? && top.t.Compound? && |top.s.args| == |top.t.args| == u.h[x].n > 0
      && Args(u.h, x + 1, top.s.args) && Args(u.h, y + 1, top.t.args)
      && v == u.(jobs := u.jobs[..n] + ArgJobs(u.h, x + 1, y + 1, top.s.args, top.t.args))
  {
    var n := |u.jobs| - 1;
    var top := u.jobs[n];
    assert JobAt(u, n) && ApartAt(u.jobs, n, n);
    DenotesStruct(u.h, x, top.s);
    DenotesStruct(u.h, y, top.t);
    ArgReplaces(u.h, x + 1, y + 1, top);
    v := Split(u, ArgJobs(u.h, x + 1, y + 1, top.s.args, top.t.args));
  }

  /** A pair of equal terms is done. */
  lemma Drop(u: LiveUnif) returns (v: LiveUnif)
    requires u.jobs != [] && u.jobs[|u.jobs| - 1].s == u.jobs[|u.jobs| - 1].t
    ensures v == u.(jobs := u.jobs[..|u.jobs| - 1])
  {
    v := Split(u, []);
    assert u.jobs[..|u.jobs| - 1] + [] == u.jobs[..|u.jobs| - 1];
  }

  /** Other cells that denote the same terms. */
  lemma Recell(u: LiveUnif, a: Cell, b: Cell) returns (v: LiveUnif)
    requires u.jobs != []
    requires Denotes(u.h, a, u.jobs[|u.jobs| - 1].s) && Denotes(u.h, b, u.jobs[|u.jobs| - 1].t) && StrOK(u.h, a)
    requires StrOK(u.h, b)
    ensures var n := |u.jobs| - 1; v == u.(jobs := u.jobs[..n] + [u.jobs[n].(a := a, b := b)])
  {
    var n := |u.jobs| - 1;
    var top := u.jobs[n];
    var js := [top.(a := a, b := b)];
    assert JobAt(u, n) && ApartAt(u.jobs, n, n);
    assert js[0].s == top.s && HasJob(js, top.s, top.t);
    v := Split(u, js);
  }

  /** Two terms of different kinds, or with different functors, have no unifier. */
  lemma NoUnifier(u: LiveUnif, th: map<nat, Term>)
    requires u.jobs != []
    requires var s, t := u.jobs[|u.jobs| - 1].s, u.jobs[|u.jobs| - 1].t;
      !s.Var? && !t.Var? && s != t && (s.Pair? ==> !t.Pair?)
      && (s.Compound? && t.Compound? ==> s.f != t.f || |s.args| != |t.args|)
    ensures !Unifies(th, u.s0, u.t0)
  {
    if Unifies(th, u.s0, u.t0) { TopSolved(u, th); }
  }

  lemma TopSolved(u: LiveUnif, th: map<nat, Term>)
    requires u.jobs != [] && Unifies(th, u.s0, u.t0)
    ensures Apply(th, u.jobs[|u.jobs| - 1].s) == Apply(th, u.jobs[|u.jobs| - 1].t)
  {
    var top := u.jobs[|u.jobs| - 1];
  }

  ghost function SubstJobs(ps: seq<Job>, x: nat, w: Term): (qs: seq<Job>)
    ensures |qs| == |ps| && forall i {:trigger qs[i]} :: 0 <= i < |ps| ==> qs[i] == ps[i].(s := Subst(ps[i].s, x, w))
  {
    seq(|ps|, i requires 0 <= i < |ps| => ps[i].(s := Subst(ps[i].s, x, w)))
  }

  lemma {:induction false} ToFunctorKept(h: Heap, x: nat, d: Cell, c: Cell, n: nat)
    requires Unbound(h, x) && ToFunctor(h, c, n)
    ensures ToFunctor(h[x := d], c, n)
    decreases n
  {
    if n > 0 { ToFunctorKept(h, x, d, h[c.a], n - 1); }
  }

  lemma StrOKKept(h: Heap, x: nat, d: Cell, c: Cell)
    requires Unbound(h, x) && StrOK(h, c)
    ensures StrOK(h[x := d], c)
  {
    if c.Str? && !h[c.a].Fvl? {
      var n :| ToFunctor(h, c, n);
      ToFunctorKept(h, x, d, c, n);
    }
  }

  lemma BindStructures(h: Heap, x: nat, d: Cell, w: Term)
    requires Structures(h) && Unbound(h, x) && StrOK(h, d) && Denotes(h, d, w) && x !in Occurrences(w)
    ensures Structures(h[x := d])
  {
    var h' := h[x := d];
    if d.Ref? { DenotesRef(h, d.a, w); }
    forall a | a in h' ensures StrOKAt(h', a) {
      if a != x { assert StrOKAt(h, a); }
      StrOKKept(h, x, d, h'[a]);
    }
  }

  lemma BindKept(u: LiveUnif, x: nat, d: Cell, w: Term, v: Unif)
    requires Unbound(u.h, x) && Denotes(u.h, d, w) && x !in Occurrences(w)
    requires v.h0 == u.h0 && v.h == u.h[x := d] && v.bs == u.bs + [Binding(x, w)]
    ensures Kept(v)
  {
    forall c, t | Denotes(v.h0, c, t) ensures Denotes(v.h, c, SubstAll(t, v.bs)) {
      BindDenotes(u.h, x, d, w, c, SubstAll(t, u.bs));
      SubstAllMore(t, u.bs, Binding(x, w));
    }
  }

  /** x may be bound to d: it is one side of the last pair, d the other. */
  ghost predicate Binds(u: LiveUnif, x: nat, d: Cell, w: Term) {
    && u.jobs != [] && Unbound(u.h, x) && Denotes(u.h, d, w) && StrOK(u.h, d) && x !in Occurrences(w)
    && var top := u.jobs[|u.jobs| - 1];
       (top.s == Var(x) && top.t == w) || (top.t == Var(x) && top.s == w)
  }

  /** Neither the bound variable nor, if it is the copy's, any other pair's term contains it. */
  ghost predicate Fresh(u: LiveUnif, x: nat, w: Term) {
    && u.jobs != []
    && (forall i {:trigger u.jobs[i]} :: 0 <= i < |u.jobs| - 1 ==> x !in Occurrences(u.jobs[i].t))
    && Apart(SubstJobs(u.jobs[..|u.jobs| - 1], x, w))
  }

  lemma BindGeneral(u: LiveUnif, x: nat, d: Cell, w: Term, v: Unif)
    requires Binds(u, x, d, w) && v.s0 == u.s0 && v.t0 == u.t0
    requires v.bs == u.bs + [Binding(x, w)] && v.jobs == SubstJobs(u.jobs[..|u.jobs| - 1], x, w)
    ensures General(v)
  {
    forall th | Unifies(th, v.s0, v.t0) ensures Solves(th, v.bs) && SolvesJobs(th, v.jobs) {
      TopSolved(u, th);
      forall b | b in v.bs ensures Apply(th, Var(b.x)) == Apply(th, b.u) { assert b in u.bs || b == Binding(x, w); }
      forall i | 0 <= i < |v.jobs| ensures Apply(th, v.jobs[i].s) == Apply(th, v.jobs[i].t) {
        assert v.jobs[i] == u.jobs[i].(s := Subst(u.jobs[i].s, x, w));
        ApplySubst(th, u.jobs[i].s, x, w);
      }
    }
  }

  lemma BindJob(u: LiveUnif, x: nat, d: Cell, w: Term, j: Job)
    requires Binds(u, x, d, w) && JobOK(u.h, j) && x !in Occurrences(j.t)
    ensures JobOK(u.h[x := d], j.(s := Subst(j.s, x, w)))
  {
    BindDenotes(u.h, x, d, w, j.a, j.s);
    BindDenotes(u.h, x, d, w, j.b, j.t);
    SubstAbsent(j.t, x, w);
    StrOKKept(u.h, x, d, j.a);
    StrOKKept(u.h, x, d, j.b);
  }

  lemma BindAgree(u: LiveUnif, x: nat, d: Cell, w: Term, qs: seq<Job>)
    requires Binds(u, x, d, w) && Fresh(u, x, w) && qs == SubstJobs(u.jobs[..|u.jobs| - 1], x, w)
    ensures Agree(SubstAll(u.s0, u.bs + [Binding(x, w)]), SubstAll(u.t0, u.bs + [Binding(x, w)]), qs)
  {
    var n := |u.jobs| - 1;
    forall i | 0 <= i < |u.jobs| ensures Agree(Subst(u.jobs[i].s, x, w), Subst(u.jobs[i].t, x, w), qs) {
      if i < n {
        SubstAbsent(u.jobs[i].t, x, w);
        assert qs[i] == u.jobs[i].(s := Subst(u.jobs[i].s, x, w));
      } else {
        SubstAbsent(w, x, w);
      }
    }
    AgreeSubst(SubstAll(u.s0, u.bs), SubstAll(u.t0, u.bs), u.jobs, x, w, qs);
    SubstAllMore(u.s0, u.bs, Binding(x, w));
    SubstAllMore(u.t0, u.bs, Binding(x, w));
  }

  lemma Bind(u: LiveUnif, x: nat, d: Cell, w: Term) returns (v: LiveUnif)
    requires Binds(u, x, d, w) && Fresh(u, x, w)
    ensures v == u.(h := u.h[x := d], bs := u.bs + [Binding(x, w)], jobs := SubstJobs(u.jobs[..|u.jobs| - 1], x, w))
  {
    var n := |u.jobs| - 1;
    var v0 := u.(h := u.h[x := d], bs := u.bs + [Binding(x, w)], jobs := SubstJobs(u.jobs[..n], x, w));
    BindStructures(u.h, x, d, w);
    BindKept(u, x, d, w, v0);
    BindGeneral(u, x, d, w, v0);
    BindAgree(u, x, d, w, v0.jobs);
    forall i: nat ensures JobAt(v0, i) {
      if i < n {
        assert JobAt(u, i);
        BindJob(u, x, d, w, u.jobs[i]);
        assert v0.jobs[i] == u.jobs[i].(s := Subst(u.jobs[i].s, x, w));
      }
    }
    v := v0;
  }

  /** A variable of the receiver's side is bound to the copy's cell, not dereferenced. */
  lemma BindA(u: LiveUnif, x: nat) returns (v: LiveUnif)
    requires u.jobs != [] && u.jobs[|u.jobs| - 1].a == Ref(x) && Unbound(u.h, x)
    ensures var n := |u.jobs| - 1; var top := u.jobs[n];
      v == u.(h := u.h[x := top.b], bs := u.bs + [Binding(x, top.t)], jobs := SubstJobs(u.jobs[..n], x, top.t))
  {
    var n := |u.jobs| - 1;
    var top := u.jobs[n];
    assert JobAt(u, n) && ApartAt(u.jobs, n, n);
    DenotesRef(u.h, x, top.s);
    assert x in Occurrences(top.s);
    forall i | 0 <= i < n ensures x !in Occurrences(u.jobs[i].t) { assert ApartAt(u.jobs, n, i); }
    var qs := SubstJobs(u.jobs[..n], x, top.t);
    forall i, j | 0 <= i < n && 0 <= j < n ensures ApartAt(qs, i, j) { BindApart(u.jobs, x, top.t, i, j); }
    v := Bind(u, x, top.b, top.t);
  }

  lemma BindApart(js: seq<Job>, x: nat, w: Term, i: nat, j: nat)
    requires Apart(js) && js != [] && js[|js| - 1].t == w && i < |js| - 1 && j < |js| - 1
    ensures ApartAt(SubstJobs(js[..|js| - 1], x, w), i, j)
  {
    assert ApartAt(js, i, j) && ApartAt(js, |js| - 1, j);
    var si, tj := Subst(js[i].s, x, w), js[j].t;
    forall v | v in Occurrences(si) ensures v !in Occurrences(tj) { SubstOccurs(js[i].s, x, w, v); }
  }

  /** A variable of the copy is bound to the receiver's term; no other pair mentions it. */
  lemma BindB(u: LiveUnif, y: nat) returns (v: LiveUnif)
    requires u.jobs != [] && u.jobs[|u.jobs| - 1].b == Ref(y) && Unbound(u.h, y)
    ensures var n := |u.jobs| - 1; var top := u.jobs[n];
      v == u.(h := u.h[y := top.a], bs := u.bs + [Binding(y, top.s)], jobs := u.jobs[..n])
  {
    var n := |u.jobs| - 1;
    var ps, top := u.jobs[..n], u.jobs[n];
    assert JobAt(u, n) && ApartAt(u.jobs, n, n);
    DenotesRef(u.h, y, top.t);
    assert y in Occurrences(top.t);
    var qs := SubstJobs(ps, y, top.s);
    forall i | 0 <= i < n ensures y !in Occurrences(u.jobs[i].t) && qs[i] == ps[i] {
      assert ApartAt(u.jobs, i, n);
      SubstAbsent(ps[i].s, y, top.s);
    }
    assert qs == ps;
    forall i, j | 0 <= i < n && 0 <= j < n ensures ApartAt(ps, i, j) { assert ApartAt(u.jobs, i, j); }
    v := Bind(u, y, top.a, top.s);
  }
}
