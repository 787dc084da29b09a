// The trail as the collector's remembered set: it is partitioned in place while the outer roots are copied.
module TrailRoots {
  import opened Terms
  import opened CollectorInvariant
  import opened CollectorMeaning
  import opened ScanLoop
  import opened TrailCount

  /** The trail entry e is a cell below the collecting line. */
  predicate IsOuter(e: Cell, line: nat) {
    e.Ref? && e.a < line
  }

  /** The cells below the collecting line among trail entries, in the order in which they are examined. */
  ghost function Outer(es: seq<Cell>, line: nat): seq<nat> {
    if es == [] then [] else
    var e := es[|es| - 1];
    if IsOuter(e, line) then Outer(es[..|es| - 1], line) + [e.a] else Outer(es[..|es| - 1], line)
  }

  lemma {:induction false} OuterMembers(es: seq<Cell>, line: nat)
    ensures forall r: nat :: r in Outer(es, line) <==> r < line && Ref(r) in es
    decreases |es|
  {
    if es != [] {
      var n := |es| - 1;
      OuterMembers(es[..n], line);
      assert es == es[..n] + [es[n]];
    }
  }

  /** The entries that belong to the previous generation too. */
  ghost function Kept(es: seq<Cell>, prevp: nat): seq<Cell> {
    if es == [] then [] else
    var e := es[|es| - 1];
    if IsOuter(e, prevp) then Kept(es[..|es| - 1], prevp) + [e] else Kept(es[..|es| - 1], prevp)
  }

  lemma {:induction false} KeptMembers(es: seq<Cell>, prevp: nat)
    ensures forall e :: e in Kept(es, prevp) <==> e in es && IsOuter(e, prevp)
    ensures |Kept(es, prevp)| <= |es|
    ensures (exists e :: e in es && e.Str?) ==> |Kept(es, prevp)| < |es|
    decreases |es|
  {
    if es != [] {
      var n := |es| - 1;
      KeptMembers(es[..n], prevp);
      assert es == es[..n] + [es[n]];
    }
  }

  /** The cells the copies of the roots will need. */
  ghost function RootWork(h: Heap, k: nat, line: nat, es: seq<Cell>): nat {
    if es == [] then 0 else RootCost(h, k, line, es[0]) + RootWork(h, k, line, es[1..])
  }

  ghost function RootCost(h: Heap, k: nat, line: nat, e: Cell): nat {
    if IsOuter(e, line) then if e.a in h then CellSize(h, k, h[e.a]) else 1 else 0
  }

  lemma {:induction false} RootWorkAppend(h: Heap, k: nat, line: nat, es: seq<Cell>, fs: seq<Cell>)
    ensures RootWork(h, k, line, es + fs) == RootWork(h, k, line, es) + RootWork(h, k, line, fs)
    decreases es
  {
    if es == [] {
      assert es + fs == fs;
    } else {
      assert (es + fs)[1..] == es[1..] + fs;
      RootWorkAppend(h, k, line, es[1..], fs);
    }
  }

  lemma TakeOut(es: seq<Cell>, fs: seq<Cell>) returns (i: nat)
    requires es != [] && multiset(es) == multiset(fs)
    ensures i < |fs| && fs[i] == es[0] && multiset(fs[..i] + fs[i + 1..]) == multiset(es[1..])
  {
    assert es[0] in multiset(fs);
    i :| 0 <= i < |fs| && fs[i] == es[0];
    assert es == [es[0]] + es[1..];
    assert fs == fs[..i] + [fs[i]] + fs[i + 1..];
    assert multiset(fs) == multiset(fs[..i]) + multiset{fs[i]} + multiset(fs[i + 1..]);
    assert multiset(es) == multiset{es[0]} + multiset(es[1..]);
    assert multiset(fs[..i] + fs[i + 1..]) == multiset(fs[..i]) + multiset(fs[i + 1..])
      == multiset(fs) - multiset{es[0]};
    assert multiset(es[1..]) == multiset(es) - multiset{es[0]};
  }

  /** The order of the entries does not matter. */
  lemma {:induction false} RootWorkPermuted(h: Heap, k: nat, line: nat, es: seq<Cell>, fs: seq<Cell>)
    requires multiset(es) == multiset(fs)
    ensures RootWork(h, k, line, es) == RootWork(h, k, line, fs)
    decreases |es|
  {
    if es == [] {
      assert |multiset(fs)| == 0;
    } else {
      var i := TakeOut(es, fs);
      RootWorkPermuted(h, k, line, es[1..], fs[..i] + fs[i + 1..]);
      RootWorkAppend(h, k, line, fs[..i], fs[i + 1..]);
      RootWorkAppend(h, k, line, fs[..i], fs[i..]);
      assert fs == fs[..i] + fs[i..];
    }
  }

  /** With no cells known, each root counts one. */
  lemma {:induction false} OuterIsWork(line: nat, es: seq<Cell>)
    ensures |Outer(es, line)| == RootWork(map[], 0, line, es)
    decreases |es|
  {
    if es != [] {
      var n := |es| - 1;
      OuterIsWork(line, es[..n]);
      RootWorkAppend(map[], 0, line, es[..n], [es[n]]);
      assert es == es[..n] + [es[n]];
      assert RootWork(map[], 0, line,
                      [es[n]]) == RootCost(map[], 0, line, es[n]) + RootWork(map[], 0, line, [es[n]][1..]);
    }
  }

  /** And it needs one cell at least. */
  lemma {:induction false} WorkAtLeast(h: Heap, k: nat, line: nat, es: seq<Cell>)
    ensures RootWork(map[], 0, line, es) <= RootWork(h, k, line, es)
    decreases es
  {
    if es != [] { WorkAtLeast(h, k, line, es[1..]); }
  }

  /** What the loop over the trail has done: seen are the entries examined, in order. */
  ghost predicate RootsCopied(m0: seq<Cell>, m: seq<Cell>, b: seq<Cell>, line: nat, st: nat, nl: nat, seen: seq<Cell>) {
    var rs := Outer(seen, line);
    && |b| == nl + |rs| && st < |m0| == |m|
    && (forall j {:trigger RootAt(m0, m, b, line, nl, rs, j)} :: 0 <= j < |rs| ==> RootAt(m0, m, b, line, nl, rs, j))
    && (forall x {:trigger RootOrSame(m0, m, rs, x)} :: 0 <= x <= st ==> RootOrSame(m0, m, rs, x))
  }

  ghost predicate RootAt(m0: seq<Cell>, m: seq<Cell>, b: seq<Cell>, line: nat, nl: nat, rs: seq<nat>, j: nat)
    requires j < |rs|
  {
    && rs[j] < |m0| && rs[j] < |m| && nl + j < |b|
    && b[nl + j] == m0[rs[j]] && m[rs[j]] == Ref(line + nl + j)
  }

  ghost predicate RootOrSame(m0: seq<Cell>, m: seq<Cell>, rs: seq<nat>, x: nat) {
    x in rs || (x < |m0| && x < |m| && m[x] == m0[x])
  }

  /** The entries kept lie packed, the first one examined at the bottom. */
  ghost predicate Packed(m: seq<Cell>, sp: nat, af: nat, kept: seq<Cell>) {
    sp + |kept| == af < |m| && forall j {:trigger KeptAt(m, af, kept, j)} :: 0 <= j < |kept| ==> KeptAt(m, af, kept, j)
  }

  ghost predicate KeptAt(m: seq<Cell>, af: nat, kept: seq<Cell>, j: nat)
    requires j < |kept|
  {
    j <= af < |m| && m[af - j] == kept[j]
  }

  lemma OuterAppend(seen: seq<Cell>, e: Cell, line: nat)
    ensures Outer(seen + [e], line) == if IsOuter(e, line) then Outer(seen, line) + [e.a] else Outer(seen, line)
    ensures Kept(seen + [e], line) == if IsOuter(e, line) then Kept(seen, line) + [e] else Kept(seen, line)
  {
    assert (seen + [e])[..|seen|] == seen;
  }

  /** m2 is m but for the cells r, p and q. */
  ghost predicate SameBut(m: seq<Cell>, m2: seq<Cell>, r: nat, p: nat, q: nat) {
    |m2| == |m| && forall i {:trigger m2[i]} :: 0 <= i < |m| && i != r && i != p && i != q ==> m2[i] == m[i]
  }

  /** The next outer root is copied and redirected; cells above the stack may change. */
  lemma RootStep(m0: seq<Cell>, m: seq<Cell>, m2: seq<Cell>, b: seq<Cell>, line: nat, st: nat, nl: nat,
                 seen: seq<Cell>, r: nat, p: nat, q: nat)
    requires r < line <= st + 1 && st < p && st < q && r !in Outer(seen, line)
    requires RootsCopied(m0, m, b, line, st, nl, seen) && SameBut(m, m2, r, p, q) && m2[r] == Ref(line + |b|)
    ensures RootsCopied(m0, m2, b + [m[r]], line, st, nl, seen + [Ref(r)])
  {
    OuterAppend(seen, Ref(r), line);
    OuterMembers(seen, line);
    var rs, t, b2 := Outer(seen, line), Outer(seen + [Ref(r)], line), b + [m[r]];
    assert RootOrSame(m0, m, rs, r);
    forall j | 0 <= j < |t| ensures RootAt(m0, m2, b2, line, nl, t, j) {
      if j < |rs| { assert t[j] == rs[j] && rs[j] in rs && RootAt(m0, m, b, line, nl, rs, j); }
    }
    forall x | 0 <= x <= st ensures RootOrSame(m0, m2, t, x) { assert RootOrSame(m0, m, rs, x); }
  }

  /** Entries that are no outer roots change nothing. */
  lemma RootSkipped(m0: seq<Cell>, m: seq<Cell>, b: seq<Cell>, line: nat, st: nat, nl: nat, seen: seq<Cell>, e: Cell)
    requires RootsCopied(m0, m, b, line, st, nl, seen) && !IsOuter(e, line)
    ensures RootsCopied(m0, m, b, line, st, nl, seen + [e])
  {
    OuterAppend(seen, e, line);
  }

  /** A root of the previous generation is kept at sp. */
  lemma KeepStep(m: seq<Cell>, m2: seq<Cell>, top: nat, sp: nat, af: nat, kept: seq<Cell>, r: nat, e: Cell)
    requires r < sp && top < sp && Packed(m, sp, af, kept) && SameBut(m, m2, r, top + 1, sp) && m2[sp] == e
    ensures Packed(m2, sp - 1, af, kept + [e])
  {
    var kept' := kept + [e];
    forall j | 0 <= j <= |kept| ensures KeptAt(m2, af, kept', j) {
      if j < |kept| { assert KeptAt(m, af, kept, j); }
    }
  }

  lemma KeepRoot(m: seq<Cell>, m2: seq<Cell>, top: nat, sp: nat, af: nat, seen: seq<Cell>, prevp: nat, r: nat)
    requires r < prevp && r < sp && top < sp && Packed(m, sp, af, Kept(seen, prevp))
    requires SameBut(m, m2, r, top + 1, sp) && m2[sp] == Ref(r)
    ensures Packed(m2, sp - 1, af, Kept(seen + [Ref(r)], prevp))
  {
    OuterAppend(seen, Ref(r), prevp);
    KeepStep(m, m2, top, sp, af, Kept(seen, prevp), r, Ref(r));
  }

  lemma RootsKeep(m: seq<Cell>, m2: seq<Cell>, sp: nat, af: nat, kept: seq<Cell>, r: nat)
    requires Packed(m, sp, af, kept) && SameBut(m, m2, r, r, r) && r <= sp
    ensures Packed(m2, sp, af, kept)
  {
    forall j | 0 <= j < |kept| ensures KeptAt(m2, af, kept, j) { assert KeptAt(m, af, kept, j); }
  }

  /** The trail between top and sp has still to be examined. */
  ghost predicate Unexamined(m0: seq<Cell>, m: seq<Cell>, tt: nat, af: nat, top: nat, sp: nat, seen: seq<Cell>) {
    && tt <= top <= sp <= af < |m| == |m0|
    && |seen| == (af - tt) - (sp - top)
    && (forall x {:trigger Same(m0, m, x)} :: af < x < |m| ==> Same(m0, m, x))
  }

  ghost predicate Same(m0: seq<Cell>, m: seq<Cell>, x: nat) {
    x < |m0| && x < |m| && m[x] == m0[x]
  }

  ghost predicate Entries(m: seq<Cell>, st: nat, top: nat, sp: nat) {
    sp < |m| && forall i {:trigger Entry(m, st, i)} :: top < i <= sp ==> Entry(m, st, i)
  }

  /** A trail entry: a generation line or a cell of the stack. */
  ghost predicate Entry(m: seq<Cell>, st: nat, i: nat) {
    i < |m| && (m[i].Str? || (m[i].Ref? && m[i].a <= st))
  }

  /** The state of the loop over the trail: the registers, the block before (m0) and now, and the copies. */
  datatype Trail = Trail(m0: seq<Cell>, m: seq<Cell>, b: seq<Cell>, line: nat, prevp: nat, st: nat, nl: nat,
                         tt: nat, af: nat, top: nat, sp: nat, seen: seq<Cell>)

  ghost predicate Trailing(t: Trail) {
    && t.prevp <= t.line <= t.st + 1 <= t.tt
    && Unexamined(t.m0, t.m, t.tt, t.af, t.top, t.sp, t.seen) && Entries(t.m, t.st, t.top, t.sp)
    && Packed(t.m, t.sp, t.af, Kept(t.seen, t.prevp))
    && RootsCopied(t.m0, t.m, t.b, t.line, t.st, t.nl, t.seen)
  }

  type LiveTrail = t: Trail | Trailing(t)
    ghost witness Trail([Fvl, Fvl], [Fvl, Fvl], [], 0, 0, 0, 0, 1, 1, 1, 1, [])

  /** Every entry is examined exactly once. */
  ghost predicate Counted(t: LiveTrail) {
    forall e {:trigger CountedCell(t, e)} :: CountedCell(t, e)
  }

  ghost predicate CountedCell(t: LiveTrail, e: Cell) {
    Count(t.seen, 0, |t.seen|, e) + Count(t.m, t.top + 1, t.sp + 1, e) == Count(t.m0, t.tt + 1, t.af + 1, e)
  }

  /** The outer roots have distinct entries. */
  ghost predicate Distinct(m0: seq<Cell>, line: nat, tt: nat, af: nat) {
    && af < |m0|
    && forall r: nat {:trigger Count(m0, tt + 1, af + 1, Ref(r))} :: r < line ==> Count(m0, tt + 1, af + 1, Ref(r)) <= 1
  }

  lemma BalancedAt(seen: seq<Cell>, m: seq<Cell>, top: nat, sp: nat, m0: seq<Cell>, tt: nat, af: nat, e: Cell)
    requires top <= sp < |m| && tt <= af < |m0|
    requires Count(seen, 0, |seen|, e) + Count(m, top + 1, sp + 1, e) == Count(m0, tt + 1, af + 1, e)
    ensures multiset(seen)[e] + multiset(m[top + 1..sp + 1])[e] == multiset(m0[tt + 1..af + 1])[e]
  {
    CountIsMultiplicity(seen, 0, |seen|, e);
    assert seen[0..|seen|] == seen;
    CountIsMultiplicity(m, top + 1, sp + 1, e);
    CountIsMultiplicity(m0, tt + 1, af + 1, e);
  }

  /** What has been examined and what has not are together what the trail held. */
  lemma Balanced(t: LiveTrail)
    requires Counted(t)
    ensures multiset(t.seen + t.m[t.top + 1..t.sp + 1]) == multiset(t.m0[t.tt + 1..t.af + 1])
  {
    var a, b, c := multiset(t.seen), multiset(t.m[t.top + 1..t.sp + 1]), multiset(t.m0[t.tt + 1..t.af + 1]);
    forall e ensures a[e] + b[e] == c[e] {
      assert CountedCell(t, e);
      BalancedAt(t.seen, t.m, t.top, t.sp, t.m0, t.tt, t.af, e);
    }
    SumIs(a, b, c);
    assert multiset(t.seen + t.m[t.top + 1..t.sp + 1]) == a + b;
  }

  lemma SumIs(a: multiset<Cell>, b: multiset<Cell>, c: multiset<Cell>)
    requires forall e :: a[e] + b[e] == c[e]
    ensures a + b == c
  {
  }

  /** While a root is still to be examined, not all have been copied. */
  lemma RootToCome(t: LiveTrail)
    requires Counted(t) && t.top < t.sp && IsOuter(t.m[t.top + 1], t.line)
    ensures |Outer(t.seen, t.line)| < RootWork(map[], 0, t.line, t.m0[t.tt + 1..t.af + 1])
  {
    var rest := t.m[t.top + 1..t.sp + 1];
    Balanced(t);
    OuterIsWork(t.line, t.seen);
    RootWorkPermuted(map[], 0, t.line, t.seen + rest, t.m0[t.tt + 1..t.af + 1]);
    RootWorkAppend(map[], 0, t.line, t.seen, rest);
    assert rest[0] == t.m[t.top + 1];
  }

  /** An outer root still on the trail has not been examined. */
  lemma NotSeen(t: LiveTrail, r: nat)
    requires Counted(t) && Distinct(t.m0, t.line, t.tt, t.af) && t.top < t.sp && t.m[t.top + 1] == Ref(r) && r < t.line
    ensures r !in Outer(t.seen, t.line)
  {
    var e := Ref(r);
    assert CountedCell(t, e);
    assert Count(t.m0, t.tt + 1, t.af + 1, e) <= 1;
    CountMember(t.m, t.top + 1, t.sp + 1, t.top + 1);
    OuterMembers(t.seen, t.line);
    if Ref(r) in t.seen {
      var i :| 0 <= i < |t.seen| && t.seen[i] == Ref(r);
      CountMember(t.seen, 0, |t.seen|, i);
    }
  }

  lemma RecountOff(t: LiveTrail, u: LiveTrail, r: nat)
    requires r <= t.top < t.sp && SameBut(t.m, u.m, r, r, r) && u.top == t.top + 1 && u.sp == t.sp
    requires Counted(t) && u.m0 == t.m0 && u.tt == t.tt && u.af == t.af && u.seen == t.seen + [t.m[t.top + 1]]
    ensures Counted(u)
  {
    forall e ensures CountedCell(u, e) {
      assert CountedCell(t, e);
      CountSame(t.seen, u.seen, 0, |t.seen|, e);
      CountFirst(t.m, t.top + 1, t.sp + 1, e);
      CountSame(t.m, u.m, t.top + 2, t.sp + 1, e);
    }
  }

  lemma RecountKept(t: LiveTrail, u: LiveTrail, r: nat)
    requires r <= t.top < t.sp && SameBut(t.m, u.m, r, t.top + 1, t.sp) && u.top == t.top && u.sp == t.sp - 1
    requires t.top + 1 < t.sp ==> u.m[t.top + 1] == t.m[t.sp]
    requires Counted(t) && u.m0 == t.m0 && u.tt == t.tt && u.af == t.af && u.seen == t.seen + [t.m[t.top + 1]]
    ensures Counted(u)
  {
    forall e ensures CountedCell(u, e) {
      assert CountedCell(t, e);
      CountSame(t.seen, u.seen, 0, |t.seen|, e);
      RestKept(t.m, u.m, t.top, t.sp, r, e);
    }
  }

  /** What is left when the entry at sp takes the place of the one on top. */
  lemma RestKept(m: seq<Cell>, m': seq<Cell>, top: nat, sp: nat, r: nat, e: Cell)
    requires r <= top < sp < |m| && SameBut(m, m', r, top + 1, sp)
    requires top + 1 < sp ==> m'[top + 1] == m[sp]
    ensures Count(m, top + 1, sp + 1, e) == Count(m', top + 1, sp, e) + if m[top + 1] == e then 1 else 0
  {
    CountFirst(m, top + 1, sp + 1, e);
    if top + 1 < sp {
      CountFirst(m', top + 1, sp, e);
      CountSame(m, m', top + 2, sp, e);
    }
  }

  /** A generation line or a cell of the collected area is dropped. */
  lemma Dropped(t: LiveTrail) returns (u: LiveTrail)
    requires t.top < t.sp && !IsOuter(t.m[t.top + 1], t.line)
    ensures u == t.(top := t.top + 1, seen := t.seen + [t.m[t.top + 1]])
  {
    OuterAppend(t.seen, t.m[t.top + 1], t.prevp);
    RootSkipped(t.m0, t.m, t.b, t.line, t.st, t.nl, t.seen, t.m[t.top + 1]);
    OffEntries(t.m, t.m, t.st, t.top, t.sp, 0);
    u := t.(top := t.top + 1, seen := t.seen + [t.m[t.top + 1]]);
  }

  /** An outer root that the previous generation needs is copied and kept. */
  lemma TakenAndKept(t: LiveTrail, r: nat, m2: seq<Cell>) returns (u: LiveTrail)
    requires t.top < t.sp && t.m[t.top + 1] == Ref(r) && r < t.prevp && r !in Outer(t.seen, t.line)
    requires SameBut(t.m, m2, r, t.top + 1, t.sp) && m2[r] == Ref(t.line + |t.b|) && m2[t.sp] == Ref(r)
    requires t.top + 1 < t.sp ==> m2[t.top + 1] == t.m[t.sp]
    ensures u == t.(m := m2, b := t.b + [t.m[r]], sp := t.sp - 1, seen := t.seen + [Ref(r)])
  {
    KeepUnexamined(t, m2, r, t.top + 1, t.sp);
    KeepEntries(t.m, m2, t.st, t.top, t.sp, r);
    RootStep(t.m0, t.m, m2, t.b, t.line, t.st, t.nl, t.seen, r, t.top + 1, t.sp);
    KeepRoot(t.m, m2, t.top, t.sp, t.af, t.seen, t.prevp, r);
    var u0 := t.(m := m2, b := t.b + [t.m[r]], sp := t.sp - 1, seen := t.seen + [Ref(r)]);
    assert Unexamined(u0.m0, u0.m, u0.tt, u0.af, u0.top, u0.sp, u0.seen);
    u := u0;
  }

  lemma KeepUnexamined(t: LiveTrail, m2: seq<Cell>, r: nat, p: nat, q: nat)
    requires SameBut(t.m, m2, r, p, q) && r <= t.af && p <= t.af && q <= t.af
    ensures Unexamined(t.m0, m2, t.tt, t.af, t.top, t.sp, t.seen)
  {
    forall x | t.af < x < |m2| ensures Same(t.m0, m2, x) { assert Same(t.m0, t.m, x); }
  }

  lemma KeepEntries(m: seq<Cell>, m2: seq<Cell>, st: nat, top: nat, sp: nat, r: nat)
    requires r <= top < sp && Entries(m, st, top, sp) && SameBut(m, m2, r, top + 1, sp)
    requires top + 1 < sp ==> m2[top + 1] == m[sp]
    ensures Entries(m2, st, top, sp - 1)
  {
    forall i | top < i <= sp - 1 ensures Entry(m2, st, i) { assert Entry(m, st, i) && Entry(m, st, sp); }
  }

  lemma OffEntries(m: seq<Cell>, m2: seq<Cell>, st: nat, top: nat, sp: nat, r: nat)
    requires r <= top < sp && Entries(m, st, top, sp) && SameBut(m, m2, r, r, r)
    ensures Entries(m2, st, top + 1, sp)
  {
    forall i | top + 1 < i <= sp ensures Entry(m2, st, i) { assert Entry(m, st, i); }
  }

  /** Another outer root is only copied. */
  lemma TakenOff(t: LiveTrail, r: nat, m2: seq<Cell>) returns (u: LiveTrail)
    requires t.top < t.sp && t.m[t.top + 1] == Ref(r) && t.prevp <= r < t.line && r !in Outer(t.seen, t.line)
    requires SameBut(t.m, m2, r, r, r) && m2[r] == Ref(t.line + |t.b|)
    ensures u == t.(m := m2, b := t.b + [t.m[r]], top := t.top + 1, seen := t.seen + [Ref(r)])
  {
    KeepUnexamined(t, m2, r, r, r);
    OuterAppend(t.seen, Ref(r), t.prevp);
    RootsKeep(t.m, m2, t.sp, t.af, Kept(t.seen, t.prevp), r);
    RootStep(t.m0, t.m, m2, t.b, t.line, t.st, t.nl, t.seen, r, t.sp, t.sp);
    OffEntries(t.m, m2, t.st, t.top, t.sp, r);
    u := t.(m := m2, b := t.b + [t.m[r]], top := t.top + 1, seen := t.seen + [Ref(r)]);
  }

  /** The trail as a remembered set: outer roots are copied, those of the previous generation stay on the trail. */
  method CopyRoots(mem: array<Cell>, buf: array<Cell>, line: nat, prevp: nat, st: nat, tt: nat, af: nat, nl: nat)
    returns (top: nat, freep: nat, ghost t: LiveTrail)
    requires mem != buf && st < tt <= af < mem.Length && prevp <= line <= st + 1
    requires Entries(mem[..], st, tt, af)
    requires Distinct(mem[..], line, tt, af)
    requires nl + RootWork(map[], 0, line, mem[tt + 1..af + 1]) <= buf.Length
    modifies mem, buf
    ensures tt <= top <= af && nl <= freep <= buf.Length
    ensures t == Trail(old(mem[..]), mem[..], buf[..freep], line, prevp, st, nl, tt, af, top, top, t.seen)
    ensures Counted(t) && forall i :: 0 <= i < nl ==> buf[i] == old(buf[i])
  {
    var sp := af;
    top, freep := tt, nl;
    t := Trail(mem[..], mem[..], buf[..freep], line, prevp, st, nl, tt, af, top, sp, []);
    while top != sp
      invariant tt <= top <= sp <= af && |t.seen| == (af - tt) - (sp - top)
      invariant nl <= freep <= buf.Length
      invariant t == Trail(old(mem[..]), mem[..], buf[..freep], line, prevp, st, nl, tt, af, top, sp, t.seen)
      invariant Counted(t) && forall i :: 0 <= i < nl ==> buf[i] == old(buf[i])
      decreases sp - top
    {
      if IsOuter(mem[top + 1], line) { RootToCome(t); }
      top, sp, freep, t := ExamineEntry(mem, buf, line, prevp, st, top, sp, freep, t);
    }
  }

  /** One round of the loop over the trail. */
  method ExamineEntry(mem: array<Cell>, buf: array<Cell>, line: nat, prevp: nat, st: nat,
                      top: nat, sp: nat, freep: nat, ghost t: LiveTrail)
    returns (top': nat, sp': nat, freep': nat, ghost u: LiveTrail)
    requires mem != buf && freep <= buf.Length && t.m == mem[..] && t.b == buf[..freep]
    requires top + 1 < mem.Length && (IsOuter(mem[top + 1], line) ==> freep < buf.Length)
    requires t.line == line && t.prevp == prevp && t.st == st && t.top == top && t.sp == sp && top < sp
    requires Counted(t) && Distinct(t.m0, line, t.tt, t.af)
    modifies mem, buf
    ensures freep <= freep' <= buf.Length && forall i :: 0 <= i < freep ==> buf[i] == old(buf[i])
    ensures sp' - top' == sp - top - 1 && |u.seen| == |t.seen| + 1
    ensures u == t.(m := mem[..], b := buf[..freep'], top := top', sp := sp', seen := u.seen) && Counted(u)
  {
    var root := mem[top + 1];
    top', sp', freep' := top, sp, freep;
    assert Entry(t.m, t.st, top + 1);
    if root.Str? || line <= root.a <= st {
      u := Dropped(t);
      RecountOff(t, u, 0);
      top' := top + 1;
    } else if root.a < prevp {
      NotSeen(t, root.a);
      KeepEntry(mem, top, sp, root);
      MoveRoot(mem, buf, line, freep, root.a);
      freep', sp' := freep + 1, sp - 1;
      u := TakenAndKept(t, root.a, mem[..]);
      RecountKept(t, u, root.a);
    } else {
      NotSeen(t, root.a);
      MoveRoot(mem, buf, line, freep, root.a);
      freep', top' := freep + 1, top + 1;
      u := TakenOff(t, root.a, mem[..]);
      RecountOff(t, u, root.a);
    }
  }

  /** The entry on top is kept at sp; the entry found there takes its place. */
  method KeepEntry(mem: array<Cell>, top: nat, sp: nat, root: Cell)
    requires top < sp < mem.Length && mem[top + 1] == root
    modifies mem
    ensures mem[..] == old(mem[..][top + 1 := mem[sp]][sp := root])
  {
    mem[top + 1] := mem[sp];
    mem[sp] := root;
  }

  /** The root at r goes to the copy block and is redirected to its new place. */
  method MoveRoot(mem: array<Cell>, buf: array<Cell>, line: nat, freep: nat, r: nat)
    requires mem != buf && r < mem.Length && freep < buf.Length
    modifies mem, buf
    ensures buf[..freep + 1] == old(buf[..freep] + [mem[r]])
    ensures forall i :: 0 <= i < freep ==> buf[i] == old(buf[i])
    ensures mem[..] == old(mem[..])[r := Ref(line + freep)]
  {
    buf[freep] := mem[r];
    mem[r] := Ref(line + freep);
  }
}
