// How much room unifying with a copied message takes: the pairs on the work stack and the new trail entries together,
// for the receiver's term that takes most.
module WorkRoom {
  import opened Terms
  import opened CopyMeaning
  import opened Substitution
  import opened UnifySteps

  /** The cells taken by a part while wait cells wait on the stack, or by the rest after the part has left entries. */
  function Max(wait: nat, part: nat, left: nat, rest: nat): (n: nat)
    ensures wait + part <= n && left + rest <= n
  {
    if wait + part < left + rest then left + rest else wait + part
  }

  predicate IsLeaf(t: Term) {
    t.Var? || t.Const? || t.Real? || (t.Compound? && t.args == [])
  }

  /** Each leaf of the message may cost a trail entry. */
  function Leaves(t: Term): (n: nat)
    ensures n >= 1 && (IsLeaf(t) ==> n == 1)
  {
    match t
    case Pair(x, y) => Leaves(x) + Leaves(y)
    case Compound(_, args) => if args == [] then 1 else LeavesOf(args)
    case _ => 1
  }

  function LeavesOf(ts: seq<Term>): (n: nat)
    ensures n >= |ts|
  {
    if ts == [] then 0 else Leaves(ts[0]) + LeavesOf(ts[1..])
  }

  /** The cells taken at the worst moment of unifying with t: the tail of a pair waits on the stack while its head is
      unified, and the head's trail entries stay. */
  function Peak(t: Term): (n: nat)
    ensures Leaves(t) <= n && (IsLeaf(t) ==> n == 1)
  {
    match t
    case Pair(x, y) => Max(2, Peak(x), Leaves(x), Peak(y))
    case Compound(_, args) => if args == [] then 1 else PeakOf(args)
    case _ => 1
  }

  function PeakOf(ts: seq<Term>): (n: nat)
    ensures LeavesOf(ts) <= n && 2 * |ts| - 2 <= n
  {
    if ts == [] then 0 else Max(2 * (|ts| - 1), Peak(ts[0]), Leaves(ts[0]), PeakOf(ts[1..]))
  }

  /** The same for the pairs of a work list, all but the last of which are on the stack. */
  ghost function JobsPeak(js: seq<Job>): nat {
    if js == [] then 0 else
    var n := |js| - 1;
    Max(2 * n, Peak(js[n].t), Leaves(js[n].t), JobsPeak(js[..n]))
  }

  lemma {:induction false} JobsPeakTop(ps: seq<Job>, top: Job)
    ensures JobsPeak(ps + [top]) == Max(2 * |ps|, Peak(top.t), Leaves(top.t), JobsPeak(ps))
  {
    assert (ps + [top])[..|ps|] == ps && (ps + [top])[|ps|] == top;
  }

  lemma {:induction false} JobsPeakTwo(ps: seq<Job>, b: Job, a: Job)
    ensures JobsPeak(ps + [b, a]) ==
            Max(2 * |ps| + 2, Peak(a.t), Leaves(a.t), Max(2 * |ps|, Peak(b.t), Leaves(b.t), JobsPeak(ps)))
  {
    assert ps + [b, a] == (ps + [b]) + [a];
    JobsPeakTop(ps + [b], a);
    JobsPeakTop(ps, b);
  }

  lemma {:induction false} JobsPeakAtLeast(js: seq<Job>)
    requires js != []
    ensures 2 * |js| - 1 <= JobsPeak(js) && JobsPeak(js[..|js| - 1]) < JobsPeak(js)
  {
  }

  lemma {:induction false} JobsPeakSame(ps: seq<Job>, js: seq<Job>)
    requires |ps| == |js| && forall i {:trigger ps[i]} :: 0 <= i < |ps| ==> ps[i].t == js[i].t
    ensures JobsPeak(ps) == JobsPeak(js)
    decreases |js|
  {
    if js != [] { JobsPeakSame(ps[..|ps| - 1], js[..|js| - 1]); }
  }

  /** The pairs left may be counted before or after the rest of a term: w wait for its first part, n below that. */
  lemma MaxSplit(n: nat, w: nat, p: nat, l: nat, p': nat, l': nat, j: nat)
    ensures Max(n + w, p, l, Max(n, p', l', j)) == Max(n, Max(w, p, l, p'), l + l', j)
  {
  }

  /** Taking two lists apart costs what the lists do. */
  lemma {:induction false} PairPeak(ps: seq<Job>, top: Job, tail: Job, head: Job)
    requires top.t.Pair? && tail.t == top.t.tail && head.t == top.t.head
    ensures JobsPeak(ps + [tail, head]) == JobsPeak(ps + [top])
  {
    var x, y := head.t, tail.t;
    JobsPeakTwo(ps, tail, head);
    JobsPeakTop(ps, top);
    MaxSplit(2 * |ps|, 2, Peak(x), Leaves(x), Peak(y), Leaves(y), JobsPeak(ps));
  }

  lemma {:induction false} ArgsPeak(ps: seq<Job>, h: Heap, x: nat, y: nat, ss: seq<Term>, ts: seq<Term>)
    requires |ss| == |ts| > 0 && Args(h, x, ss) && Args(h, y, ts)
    ensures JobsPeak(ps + ArgJobs(h, x, y, ss, ts)) == Max(2 * |ps|, PeakOf(ts), LeavesOf(ts), JobsPeak(ps))
    decreases |ss|
  {
    ArgsFirst(h, x, ss);
    ArgsFirst(h, y, ts);
    var js, top := ArgJobs(h, x + 1, y + 1, ss[1..], ts[1..]), Job(h[x], ss[0], h[y], ts[0]);
    assert ps + ArgJobs(h, x, y, ss, ts) == (ps + js) + [top];
    JobsPeakTop(ps + js, top);
    var n, w := 2 * |ps|, 2 * (|ts| - 1);
    assert 2 * |ps + js| == n + w;
    if |ss| > 1 {
      ArgsPeak(ps, h, x + 1, y + 1, ss[1..], ts[1..]);
      MaxSplit(n, w, Peak(ts[0]), Leaves(ts[0]), PeakOf(ts[1..]), LeavesOf(ts[1..]), JobsPeak(ps));
    } else {
      assert ps + js == ps;
    }
  }

  /** Taking two structures apart costs what the structures do. */
  lemma {:induction false} StructPeak(ps: seq<Job>, top: Job, h: Heap, x: nat, y: nat)
    requires top.s.Compound? && top.t.Compound? && |top.s.args| == |top.t.args| > 0
    requires Args(h, x, top.s.args) && Args(h, y, top.t.args)
    ensures JobsPeak(ps + ArgJobs(h, x, y, top.s.args, top.t.args)) == JobsPeak(ps + [top])
  {
    ArgsPeak(ps, h, x, y, top.s.args, top.t.args);
    JobsPeakTop(ps, top);
  }

  /** The receiver's term that takes most: of the form of t, with a variable below the choice point at each leaf. */
  predicate Mould(s: Term, t: Term, bb: nat)
    decreases t
  {
    if IsLeaf(t) then s.Var? && s.a < bb else
    match t
    case Pair(x, y) => s.Pair? && Mould(s.head, x, bb) && Mould(s.tail, y, bb)
    case Compound(f, args) => s.Compound? && s.f == f && MouldArgs(s.args, args, bb)
  }

  predicate MouldArgs(ss: seq<Term>, ts: seq<Term>, bb: nat)
    decreases ts
  {
    |ss| == |ts| && (ts != [] ==> Mould(ss[0], ts[0], bb) && MouldArgs(ss[1..], ts[1..], bb))
  }

  /** The variables of the receiver's terms in the pairs, those of the next pair first. */
  ghost function Sites(js: seq<Job>): seq<nat> {
    if js == [] then [] else Occurrences(js[|js| - 1].s) + Sites(js[..|js| - 1])
  }

  lemma {:induction false} SitesTop(ps: seq<Job>, top: Job)
    ensures Sites(ps + [top]) == Occurrences(top.s) + Sites(ps)
  {
    assert (ps + [top])[..|ps|] == ps;
  }

  lemma {:induction false} SitesSame(ps: seq<Job>, js: seq<Job>)
    requires |ps| == |js| && forall i {:trigger ps[i]} :: 0 <= i < |ps| ==> ps[i].s == js[i].s
    ensures Sites(ps) == Sites(js)
    decreases |js|
  {
    if js != [] { SitesSame(ps[..|ps| - 1], js[..|js| - 1]); }
  }

  /** The receiver's terms in the pairs are moulds that share no variable. */
  ghost predicate Moulds(js: seq<Job>, bb: nat) {
    NoRepeat(Sites(js)) && forall i: nat {:trigger MouldAt(js, i, bb)} :: MouldAt(js, i, bb)
  }

  ghost predicate MouldAt(js: seq<Job>, i: nat, bb: nat) {
    i < |js| ==> Mould(js[i].s, js[i].t, bb)
  }

  lemma {:induction false} PairMoulds(ps: seq<Job>, top: Job, tail: Job, head: Job, bb: nat)
    requires Moulds(ps + [top], bb) && top.s.Pair? && top.t.Pair?
    requires tail.s == top.s.tail && tail.t == top.t.tail && head.s == top.s.head && head.t == top.t.head
    ensures Moulds(ps + [tail, head], bb)
  {
    var qs, js := ps + [top], ps + [tail, head];
    assert js == (ps + [tail]) + [head];
    SitesTop(ps + [tail], head);
    SitesTop(ps, tail);
    SitesTop(ps, top);
    assert Occurrences(head.s) + (Occurrences(tail.s) + Sites(ps)) == Occurrences(top.s) + Sites(ps);
    assert MouldAt(qs, |ps|, bb);
    forall i: nat {:trigger MouldAt(js, i, bb)} | true ensures MouldAt(js, i, bb) { if i < |ps| {
      assert MouldAt(qs, i, bb); }
    }
  }

  lemma {:induction false} ArgsSites(ps: seq<Job>, h: Heap, x: nat, y: nat, ss: seq<Term>, ts: seq<Term>)
    requires |ss| == |ts| && Args(h, x, ss) && Args(h, y, ts)
    ensures Sites(ps + ArgJobs(h, x, y, ss, ts)) == ArgOccurrences(ss) + Sites(ps)
    decreases |ss|
  {
    if ss == [] {
      assert ps + ArgJobs(h, x, y, ss, ts) == ps;
    } else {
      ArgsFirst(h, x, ss);
      ArgsFirst(h, y, ts);
      var js, top := ArgJobs(h, x + 1, y + 1, ss[1..], ts[1..]), Job(h[x], ss[0], h[y], ts[0]);
      assert ps + ArgJobs(h, x, y, ss, ts) == (ps + js) + [top];
      SitesTop(ps + js, top);
      ArgsSites(ps, h, x + 1, y + 1, ss[1..], ts[1..]);
    }
  }

  lemma {:induction false} MouldArg(ss: seq<Term>, ts: seq<Term>, bb: nat, i: nat)
    requires MouldArgs(ss, ts, bb) && i < |ts|
    ensures Mould(ss[i], ts[i], bb)
    decreases i
  {
    if i > 0 { MouldArg(ss[1..], ts[1..], bb, i - 1); }
  }

  lemma {:induction false} StructMoulds(ps: seq<Job>, top: Job, h: Heap, x: nat, y: nat, bb: nat)
    requires Moulds(ps + [top], bb)
    requires top.s.Compound? && top.t.Compound? && |top.s.args| == |top.t.args| > 0
    requires Args(h, x, top.s.args) && Args(h, y, top.t.args)
    ensures Moulds(ps + ArgJobs(h, x, y, top.s.args, top.t.args), bb)
  {
    var ss, ts, qs := top.s.args, top.t.args, ps + [top];
    var js := ps + ArgJobs(h, x, y, ss, ts);
    ArgsSites(ps, h, x, y, ss, ts);
    SitesTop(ps, top);
    assert MouldAt(qs, |ps|, bb);
    forall i: nat {:trigger MouldAt(js, i, bb)} | true ensures MouldAt(js, i, bb) {
      if i < |ps| {
        assert MouldAt(qs, i, bb);
      } else if i < |js| {
        var a := |ss| - 1 - (i - |ps|);
        ArgJobsAt(h, x, y, ss, ts, a);
        MouldArg(ss, ts, bb, a);
      }
    }
  }

  lemma {:induction false} OffSites(ps: seq<Job>, x: nat, w: Term)
    requires x !in Sites(ps)
    ensures SubstJobs(ps, x, w) == ps
    decreases |ps|
  {
    if ps != [] {
      var n := |ps| - 1;
      OffSites(ps[..n], x, w);
      SubstAbsent(ps[n].s, x, w);
      var qs := SubstJobs(ps, x, w);
      forall i | 0 <= i < |ps| ensures qs[i] == ps[i] {
        if i < n { assert SubstJobs(ps[..n], x, w)[i] == ps[i]; }
      }
    }
  }

  /** A variable of a mould is bound to a leaf, and no other pair mentions it. */
  lemma {:induction false} MouldBound(ps: seq<Job>, top: Job, x: nat, bb: nat)
    requires Moulds(ps + [top], bb) && top.s == Var(x)
    ensures IsLeaf(top.t) && x < bb && SubstJobs(ps, x, top.t) == ps && Moulds(ps, bb)
  {
    var qs := ps + [top];
    assert MouldAt(qs, |ps|, bb);
    SitesTop(ps, top);
    assert x in Occurrences(top.s);
    JoinedLinear(Occurrences(top.s), Sites(ps));
    OffSites(ps, x, top.t);
    forall i: nat {:trigger MouldAt(ps, i, bb)} | true ensures MouldAt(ps, i, bb) { assert MouldAt(qs, i, bb); }
  }

  /** A mould has a variable. */
  lemma {:induction false} MouldHasVar(s: Term, t: Term, bb: nat)
    requires Mould(s, t, bb)
    ensures Occurrences(s) != []
    decreases t
  {
    if !IsLeaf(t) {
      match t
      case Pair(x, y) => MouldHasVar(s.head, x, bb);
      case Compound(_, args) => MouldHasVar(s.args[0], args[0], bb);
    }
  }

  /** A mould for a message that shares no variable with it is another term. */
  lemma {:induction false} MouldDiffers(s: Term, t: Term, bb: nat)
    requires Mould(s, t, bb) && Separate(s, t)
    ensures s != t
  {
    MouldHasVar(s, t, bb);
    assert Occurrences(s)[0] in Occurrences(s);
  }

  /** Where a mould has no variable it has what the message has. */
  lemma {:induction false} MouldAlike(s: Term, t: Term, bb: nat)
    requires Mould(s, t, bb) && !s.Var?
    ensures (s.Pair? && t.Pair?) || (s.Compound? && t.Compound? && s.f == t.f && |s.args| == |t.args|)
  {
  }

  /** A mould for t, its variables numbered from k on. */
  function MouldOf(t: Term, k: nat): Term {
    match t
    case Pair(x, y) => Pair(MouldOf(x, k), MouldOf(y, k + Leaves(x)))
    case Compound(f, args) => if args == [] then Var(k) else Compound(f, MouldsOf(args, k))
    case _ => Var(k)
  }

  function MouldsOf(ts: seq<Term>, k: nat): (r: seq<Term>)
    ensures |r| == |ts|
  {
    if ts == [] then [] else [MouldOf(ts[0], k)] + MouldsOf(ts[1..], k + Leaves(ts[0]))
  }

  ghost function From(k: nat, n: nat): seq<nat> {
    seq(n, i requires 0 <= i < n => k + i)
  }

  lemma FromJoin(k: nat, a: nat, b: nat)
    ensures From(k, a) + From(k + a, b) == From(k, a + b) && NoRepeat(From(k, a))
  {
  }

  /** Every message has moulds. */
  lemma {:induction false} MouldExists(t: Term, k: nat, bb: nat)
    requires k + Leaves(t) <= bb
    ensures Mould(MouldOf(t, k), t, bb) && Occurrences(MouldOf(t, k)) == From(k, Leaves(t)) && Linear(MouldOf(t, k))
    decreases t
  {
    match t
    case Pair(x, y) => MouldExists(x, k, bb); MouldExists(y, k + Leaves(x), bb); FromJoin(k, Leaves(x), Leaves(y));
    case Compound(_, args) => if args != [] { MouldsExist(args, k, bb); }
    case _ =>
  }

  lemma {:induction false} MouldsExist(ts: seq<Term>, k: nat, bb: nat)
    requires k + LeavesOf(ts) <= bb
    ensures MouldArgs(MouldsOf(ts, k), ts, bb) && ArgOccurrences(MouldsOf(ts, k)) == From(k, LeavesOf(ts))
    decreases ts
  {
    if ts != [] {
      MouldExists(ts[0], k, bb);
      MouldsExist(ts[1..], k + Leaves(ts[0]), bb);
      FromJoin(k, Leaves(ts[0]), LeavesOf(ts[1..]));
      assert MouldsOf(ts, k)[0] == MouldOf(ts[0], k) && MouldsOf(ts, k)[1..] == MouldsOf(ts[1..], k + Leaves(ts[0]));
    }
  }

  /** A copy takes the room of its original. */
  lemma {:induction false} ShapePeak(t: Term, tn: seq<char>, u: Term, un: seq<char>)
    requires ShapeOf(t, tn) == ShapeOf(u, un)
    ensures Leaves(t) == Leaves(u) && Peak(t) == Peak(u)
    decreases t
  {
    match t
    case Pair(x, y) => ShapePeak(x, tn, u.head, un); ShapePeak(y, tn, u.tail, un);
    case Compound(_, args) => ShapePeaks(args, tn, u.args, un);
    case _ =>
  }

  lemma {:induction false} ShapePeaks(ts: seq<Term>, tn: seq<char>, us: seq<Term>, un: seq<char>)
    requires ShapesOf(ts, tn) == ShapesOf(us, un)
    ensures |ts| == |us| && LeavesOf(ts) == LeavesOf(us) && PeakOf(ts) == PeakOf(us)
    decreases ts
  {
    if ts != [] {
      assert ShapesOf(ts, tn)[0] == ShapesOf(us, un)[0] && ShapesOf(ts, tn)[1..] == ShapesOf(us, un)[1..];
      ShapePeak(ts[0], tn, us[0], un);
      ShapePeaks(ts[1..], tn, us[1..], un);
    }
  }
}
