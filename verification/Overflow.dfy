// The margin that copy_arg leaves for the work stack of msg_unify is enough for messages of a peak up to seven, and for
// no
// others: a run in which the work stack meets the trail.
module Overflow {
  import opened Terms
  import opened NameTable
  import opened CopyMeaning
  import opened CopyTerm
  import opened Substitution
  import opened UnifySteps
  import opened WorkRoom
  import opened MsgUnify
  import opened Messages
  import opened SecondMatch
  import opened MatchMessenger

  /** Whenever copy_arg accepts t, unification has room, whatever the receiver expects. */
  ghost predicate MarginSuffices(t: Term) {
    forall st: nat, tt: nat {:trigger Fits(t, st, tt)} :: Fits(t, st, tt) ==> Ample(t, st, tt)
  }

  lemma MarginSufficesExactly(t: Term)
    ensures MarginSuffices(t) <==> Peak(t) <= 7
  {
    if Peak(t) > 7 { assert Fits(t, 0, TermSize(t) + 8) && !Ample(t, 0, TermSize(t) + 8); }
  }

  /** A list of n integers. */
  function List(n: nat): Term {
    if n == 0 then Const(Con(ASCII_SIZE, 0)) else Pair(Const(Int(n)), List(n - 1))
  }

  lemma {:induction false} ListPeak(n: nat)
    ensures Leaves(List(n)) == n + 1 && Peak(List(n)) == if n == 0 then 1 else n + 2
  {
    if n > 0 { ListPeak(n - 1); }
  }

  lemma {:induction false} FlatPeak(ts: seq<Term>)
    requires ts != [] && forall i {:trigger ts[i]} :: 0 <= i < |ts| ==> IsLeaf(ts[i])
    ensures LeavesOf(ts) == |ts| && PeakOf(ts) == 2 * |ts| - 1
  {
    assert IsLeaf(ts[0]);
    if |ts| > 1 { FlatPeak(ts[1..]); }
  }

  /** The margin is enough for lists of up to five elements that are no lists or structures, and for structures with up
      to four such arguments. */
  lemma FlatMessages(n: nat, f: nat, ts: seq<Term>)
    requires ts != [] && forall i {:trigger ts[i]} :: 0 <= i < |ts| ==> IsLeaf(ts[i])
    ensures MarginSuffices(List(n)) <==> n <= 5
    ensures MarginSuffices(Compound(f, ts)) <==> |ts| <= 4
  {
    ListPeak(n);
    FlatPeak(ts);
    MarginSufficesExactly(List(n));
    MarginSufficesExactly(Compound(f, ts));
  }

  const F: nat := 102

  /** The receiver's block is below Base(n), the messenger's from there on. */
  function Base(n: nat): nat {
    2 * n + 14
  }

  /** The receiver's message f(X1, ..., Xn), from 1 on, and the messenger's f(1, ..., n). */
  function Word(n: nat, i: nat): Cell {
    if i == 1 || i == Base(n) then Con(F, n)
    else if 2 <= i <= n + 1 then Ref(i)
    else if i == n + 2 then Str(1)
    else if Base(n) < i <= Base(n) + n then Int(i - Base(n))
    else if i == Base(n) + n + 1 then Str(Base(n))
    else Int(0)
  }

  function Variables(n: nat): seq<Term> {
    seq(n, i requires 0 <= i => Var(i + 2))
  }

  function Numbers(n: nat): seq<Term> {
    seq(n, i requires 0 <= i => Const(Int(i + 1)))
  }

  function Cells(n: nat, lo: nat): Heap {
    map x | lo <= x <= lo + n + 1 :: Word(n, x)
  }

  ghost predicate ArgIs(h: Heap, a: nat, ts: seq<Term>, i: nat) {
    i < |ts| ==> a + i in h && Decode(h, h[a + i], 1) == Some(ts[i])
  }

  lemma {:induction false} ArgsAre(h: Heap, a: nat, ts: seq<Term>, j: nat)
    requires j <= |ts| && forall i: nat {:trigger ArgIs(h, a, ts, i)} :: ArgIs(h, a, ts, i)
    ensures DecodeArgs(h, a + j, |ts| - j, 1) == Some(ts[j..])
    decreases |ts| - j
  {
    if j < |ts| {
      assert ArgIs(h, a, ts, j);
      ArgsAre(h, a, ts, j + 1);
      assert ts[j..] == [ts[j]] + ts[j + 1..];
    }
  }

  lemma {:induction false} FlatSize(ts: seq<Term>)
    requires forall i {:trigger ts[i]} :: 0 <= i < |ts| ==> TermSize(ts[i]) == 1
    ensures ArgsSize(ts) == |ts|
  {
    if ts != [] { assert TermSize(ts[0]) == 1; FlatSize(ts[1..]); }
  }

  ghost predicate Laid(m: seq<Cell>, n: nat) {
    |m| == 5 * n + 64 && forall i {:trigger m[i]} :: 0 <= i < |m| ==> m[i] == Word(n, i)
  }

  /** The message of a side: the structure at lo. */
  function Side(n: nat, lo: nat): Term {
    Compound(F, if lo == 1 then Variables(n) else Numbers(n))
  }

  lemma SideDenotes(n: nat, lo: nat)
    requires n > 0 && lo in {1, Base(n)}
    ensures Denotes(Cells(n, lo), Str(lo), Side(n, lo)) && TermSize(Side(n, lo)) == n + 2
  {
    var h, ts := Cells(n, lo), Side(n, lo).args;
    forall i: nat {:trigger ArgIs(h, lo + 1, ts, i)} | true ensures ArgIs(h, lo + 1, ts, i) {}
    ArgsAre(h, lo + 1, ts, 0);
    FlatSize(ts);
    assert ts[0..] == ts && h[lo] == Con(F, n) && DecodeArgs(h, lo + 1, n, 1) == Some(ts);
    StructJoins(h, lo, 1);
  }

  lemma SideStands(m: seq<Cell>, n: nat, lo: nat, st: nat, tt: nat, gl: nat, low: nat, hi: nat)
    requires n > 0 && lo in {1, Base(n)} && Laid(m, n)
    requires gl <= lo + n + 1 <= st < tt < hi <= |m| && low <= lo
    ensures SideAt(m, Cells(n, lo), Side(n, lo), lo + n + 1, st, tt, gl, gl, low, hi)
  {
    var h := Cells(n, lo);
    SideDenotes(n, lo);
    assert ToFunctor(h, Str(lo), 0);
    forall x | x in h ensures StrOKAt(h, x) {}
    forall x | x in h ensures HeapCell(m, h, st, x) {}
    assert m[lo + n + 1] == Str(lo);
  }

  lemma SideGoes(m: seq<Cell>, n: nat, lo: nat, st: nat, tt: nat, limit: nat)
    requires n > 0 && lo in {1, Base(n)} && Laid(m, n) && st + n + 3 < limit <= |m|
    requires lo + n + 1 <= st || st + n + 3 < lo
    ensures Sendable(m, Cells(n, lo), Side(n, lo), ['n', NUL], ['n', NUL], st, tt, limit)
  {
    var h, names := Cells(n, lo), ['n', NUL];
    SideDenotes(n, lo);
    var s := Copy(h, 0, names, st + 1, names, [], 0, []);
    forall x | x in h ensures KnownCell(s, x) {}
    forall x | x in h ensures SourceCell(m, h, st, n + 2, x) {}
  }

  /** Receiver and messenger of the run below. */
  method Arrange(n: nat) returns (mem: array<Cell>, ip: Imago, mip: Imago)
    requires n > 0
    ensures fresh(mem) && fresh(ip) && fresh(mip) && Laid(mem[..], n)
    ensures ip.st == ip.gl == ip.bb == n + 2 && ip.tt == 2 * n + 12 && ip.names == mip.names == ['n', NUL]
    ensures mip.st == 3 * n + 16 && mip.tt == 4 * n + 30
    ensures Meeting(mem[..], ip, mip, Cells(n, 1), Side(n, 1), Cells(n, Base(n)), Side(n, Base(n)), 0, Base(n), Base(n),
                    5 * n + 64)
  {
    mem := new Cell[5 * n + 64](i => Word(n, i));
    ip := new Imago(['n', NUL], n + 2, 2 * n + 12, n + 2, n + 2);
    mip := new Imago(['n', NUL], 3 * n + 16, 4 * n + 30, Base(n), Base(n));
    SideStands(mem[..], n, 1, n + 2, 2 * n + 12, n + 2, 0, Base(n));
    SideStands(mem[..], n, Base(n), 3 * n + 16, 4 * n + 30, Base(n), Base(n), 5 * n + 64);
    SideGoes(mem[..], n, Base(n), n + 2, 2 * n + 12, Base(n));
    SideGoes(mem[..], n, 1, 3 * n + 16, 4 * n + 30, 5 * n + 64);
  }

  lemma {:induction false} FlatMould(n: nat, us: seq<Term>, bb: nat, j: nat)
    requires j <= |us| == n && bb == n + 2 && forall i {:trigger us[i]} :: 0 <= i < n ==> IsLeaf(us[i])
    ensures MouldArgs(Variables(n)[j..], us[j..], bb)
    decreases n - j
  {
    if j < n {
      assert IsLeaf(us[j]) && us[j..][0] == us[j] && us[j..][1..] == us[j + 1..];
      assert Variables(n)[j..][1..] == Variables(n)[j + 1..];
      FlatMould(n, us, bb, j + 1);
    }
  }

  lemma {:induction false} FlatOccurrences(n: nat, j: nat)
    requires j <= n
    ensures ArgOccurrences(Variables(n)[j..]) == From(j + 2, n - j)
    decreases n - j
  {
    if j < n {
      assert Variables(n)[j..][1..] == Variables(n)[j + 1..];
      FlatOccurrences(n, j + 1);
    }
  }

  /** The copy of the message has the receiver's term as a mould. */
  lemma SideIsWorst(n: nat, u: Term, un: seq<char>, tn: seq<char>)
    requires n > 0 && ShapeOf(u, un) == ShapeOf(Side(n, Base(n)), tn)
    ensures Worst(Side(n, 1), u, n + 2)
  {
    ShapesAreFlat(u.args, un, Numbers(n), tn);
    FlatMould(n, u.args, n + 2, 0);
    FlatOccurrences(n, 0);
    assert Variables(n)[0..] == Variables(n) && u.args[0..] == u.args;
  }

  lemma {:induction false} ShapesAreFlat(us: seq<Term>, un: seq<char>, ts: seq<Term>, tn: seq<char>)
    requires ShapesOf(us, un) == ShapesOf(ts, tn) && forall i {:trigger ts[i]} :: 0 <= i < |ts| ==> IsLeaf(ts[i])
    ensures |us| == |ts| && forall i {:trigger us[i]} :: 0 <= i < |us| ==> IsLeaf(us[i])
    decreases |ts|
  {
    assert |us| == |ts|;
    if ts != [] {
      assert ShapesOf(us, un)[0] == ShapesOf(ts, tn)[0] && ShapesOf(us, un)[1..] == ShapesOf(ts, tn)[1..];
      assert IsLeaf(ts[0]);
      ShapesAreFlat(us[1..], un, ts[1..], tn);
      forall i | 0 <= i < |us| ensures IsLeaf(us[i]) { if i > 0 { assert us[i] == us[1..][i - 1]; } }
    }
  }

  lemma NoRoom(n: nat)
    requires n >= 5
    ensures var s, t := Side(n, 1), Side(n, Base(n));
      && Fits(t, n + 2, 2 * n + 12) && !Ample(t, n + 2, 2 * n + 12) && Fits(s, 3 * n + 16, 4 * n + 30) && !s.Var?
      && !t.Var?
  {
    SideDenotes(n, 1);
    SideDenotes(n, Base(n));
    FlatPeak(Numbers(n));
  }

  lemma MustOverrun(n: nat, r: Reception, m: seq<Cell>, h: Heap, u: Term, bs: seq<Binding>, tn: seq<char>,
                    rn: seq<char>, st: nat, tt: nat)
    requires n >= 5 && !r.Expansion?
    requires Exchanged(r, m, Cells(n, 1), h, Side(n, 1), u, bs, Side(n, Base(n)), tn, rn, n + 2, st, 2 * n + 12, tt,
                       n + 2, n + 2)
    ensures r.Overran?
  {
    NoRoom(n);
    SideIsWorst(n, u, rn, tn);
  }

  /** accept(S, f(X1, ..., Xn)) meets f(1, ..., n), for whatever n from 5 on: copy_arg finds room on both sides, and
      then the work stack of msg_unify runs into the receiver's trail. */
  method Overflows(n: nat) returns (r: Reception)
    requires n >= 5
    ensures r.Overran? && Fits(Side(n, Base(n)), n + 2, 2 * n + 12)
  {
    var mem, ip, mip := Arrange(n);
    NoRoom(n);
    ghost var h, u, bs, g, v, cs;
    var second;
    r, second, h, u, bs, g, v, cs := MatchMessenger.Match(mem, ip, mip, 0, Base(n), Base(n), 5 * n + 64,
                                                          Cells(n, 1), Side(n, 1), Cells(n, Base(n)), Side(n, Base(n)));
    MustOverrun(n, r, mem[..], h, u, bs, ['n', NUL], ip.names, ip.st, ip.tt);
  }
}
