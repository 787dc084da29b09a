// One round of copy_arg for every kind of cell: the scanned cell is finished, and what it refers to is
// appended to the copy.
module CopySteps {
  import opened Terms
  import opened NameTable
  import opened CopyMeaning

  /** The cells that finishing a cell takes, its own included. */
  function Cost(o: Origin): (n: nat)
    ensures n >= 1
  {
    if o.Arg? then TermSize(o.t) else 1
  }

  function Costs(os: seq<Origin>): (n: nat)
    ensures n >= |os|
  {
    if os == [] then 0 else Cost(os[0]) + Costs(os[1..])
  }

  lemma {:induction false} CostsAppend(os: seq<Origin>, ps: seq<Origin>)
    ensures Costs(os + ps) == Costs(os) + Costs(ps)
  {
    if os == [] {
      assert os + ps == ps;
    } else {
      assert (os + ps)[1..] == os[1..] + ps;
      CostsAppend(os[1..], ps);
    }
  }

  ghost function Left(s: Copy): nat
    requires s.at <= |s.org|
  {
    Costs(s.org[s.at..])
  }

  /** t continues s. */
  ghost predicate Grows(s: Copy, t: Copy) {
    && t.h == s.h && t.k == s.k && t.pnames == s.pnames && t.base == s.base
    && s.org <= t.org && s.names <= t.names
    && |s.b| == |s.org| && |t.b| == |t.org| && s.at <= |s.b| && s.b[..s.at] <= t.b
  }

  lemma {:induction false} ArgsFromKept(s: Copy, t: Copy, ts: seq<Term>, lo: nat, q: nat)
    requires s.org <= t.org && ArgsFrom(s, ts, lo, q)
    ensures ArgsFrom(t, ts, lo, q)
    decreases |ts|
  {
    if ts != [] { ArgsFromKept(s, t, ts[1..], lo + |Occurrences(ts[0])|, q + 1); }
  }

  lemma RenamedKept(s: Copy, t: Copy, g: nat, f: nat)
    requires Grows(s, t) && Terminated(s.names) && Renamed(s, g, f)
    ensures Renamed(t, g, f)
  {
    SymbolKept(s.names, t.names, f);
    CanonicalKept(s.names, t.names, f);
  }

  lemma DoneKept(s: Copy, t: Copy, c: nat)
    requires Grows(s, t) && Terminated(s.names) && c < s.at && DoneCell(s, c)
    ensures DoneCell(t, c)
  {
    assert s.b[..s.at][c] == s.b[c] == t.b[c] && s.org[c] == t.org[c];
    if s.org[c].Arg? {
      BuiltKept(s, t, s.org[c].t, s.org[c].lo, c, s.b[c]);
    } else if s.org[c].Functor? {
      RenamedKept(s, t, s.org[c].f, s.b[c].f);
    }
  }

  lemma BuiltKept(s: Copy, t: Copy, u: Term, lo: nat, c: nat, v: Cell)
    requires Grows(s, t) && Terminated(s.names) && Built(s, u, lo, c, v)
    ensures Built(t, u, lo, c, v)
  {
    match u
    case Var(_) =>
    case Const(d) => if d.Con? { RenamedKept(s, t, d.f, v.f); }
    case Pair(x, y) => ArgsFromKept(s, t, [x, y], lo, v.a - s.base);
    case Compound(_, args) => ArgsFromKept(s, t, args, lo, v.a - s.base + 1);
    case Real(_, _) =>
      var q := v.a - s.base;
      assert t.org[q..q + 3] == s.org[q..q + 3];
  }

  /** The cell bs[i], just appended, waits to be scanned. */
  ghost predicate NewOK(s: Copy, bs: seq<Cell>, os: seq<Origin>, i: nat)
    requires i < |bs| == |os|
  {
    match os[i]
    case Arg(t, _) => Decode(s.h, bs[i], s.k) == Some(t) && Known(s, bs[i])
    case Functor(f, n) => n > 0 && bs[i] == Con(f, n) && Known(s, bs[i])
    case Header => bs[i] == Fvl && i + 2 < |os| && os[i + 1].Raw1? && os[i + 2].Raw2?
    case Raw1(w) => bs[i] == w && w.Raw? && i >= 1 && os[i - 1] == Header
    case Raw2(w) => bs[i] == w && w.Raw? && i >= 1 && os[i - 1].Raw1?
  }

  ghost predicate AllNew(s: Copy, bs: seq<Cell>, os: seq<Origin>) {
    |bs| == |os| && forall i {:trigger NewOK(s, bs, os, i)} :: 0 <= i < |bs| ==> NewOK(s, bs, os, i)
  }

  ghost function Finish(s: Copy, f: Cell, bs: seq<Cell>, os: seq<Origin>, names: seq<char>): Copy
    requires s.at < |s.b|
  {
    s.(b := s.b[s.at := f] + bs, org := s.org + os, at := s.at + 1, names := names)
  }

  /** t follows s by one round. */
  ghost predicate Advances(s: Copy, t: Copy) {
    Grows(s, t) && s.at < t.at <= |t.org| && Left(t) < Left(s) && t.at + Left(t) == s.at + Left(s)
  }

  lemma FinishPending(s: LiveCopy, f: Cell, bs: seq<Cell>, os: seq<Origin>, names: seq<char>, c: nat)
    requires s.at < |s.b| && (s.org[s.at].Arg? || s.org[s.at].Functor?) && AllNew(s, bs, os)
    requires s.at < c < |s.b| + |bs|
    ensures PendingCell(Finish(s, f, bs, os, names), c)
  {
    var t := Finish(s, f, bs, os, names);
    if c < |s.b| {
      assert PendingCell(s, c) && t.b[c] == s.b[c] && t.org[c] == s.org[c];
    } else {
      var i := c - |s.b|;
      assert NewOK(s, bs, os, i) && t.b[c] == bs[i] && t.org[c] == os[i];
      assert i >= 1 ==> t.org[c - 1] == os[i - 1];
      assert i + 2 < |os| ==> t.org[c + 1] == os[i + 1] && t.org[c + 2] == os[i + 2];
    }
  }

  lemma FinishTables(s: LiveCopy, t: Copy)
    requires t.h == s.h && t.pnames == s.pnames && s.names <= t.names && Terminated(t.names)
    ensures Tables(t)
  {
    CStringKept(s.names, t.names, 0);
    forall x | x in t.h ensures KnownCell(t, x) { assert KnownCell(s, x); }
  }

  lemma FinishAll(s: LiveCopy, f: Cell, bs: seq<Cell>, os: seq<Origin>, names: seq<char>) returns (t: Copy)
    requires s.at < |s.b| && (s.org[s.at].Arg? || s.org[s.at].Functor?) && AllNew(s, bs, os)
    requires s.names <= names && Terminated(names) && DoneCell(Finish(s, f, bs, os, names), s.at)
    ensures t == Finish(s, f, bs, os, names) && Inv(t)
  {
    t := Finish(s, f, bs, os, names);
    FinishTables(s, t);
    assert Grows(s, t);
    forall c | t.at <= c < |t.b| ensures PendingCell(t, c) { FinishPending(s, f, bs, os, names, c); }
    forall c | 0 <= c < t.at ensures DoneCell(t, c) {
      if c < s.at { assert DoneCell(s, c); DoneKept(s, t, c); }
    }
  }

  lemma FinishLive(s: LiveCopy, f: Cell, bs: seq<Cell>, os: seq<Origin>, names: seq<char>) returns (t: LiveCopy)
    requires s.at < |s.b| && (s.org[s.at].Arg? || s.org[s.at].Functor?) && AllNew(s, bs, os)
    requires s.names <= names && Terminated(names) && DoneCell(Finish(s, f, bs, os, names), s.at)
    requires Cost(s.org[s.at]) == 1 + Costs(os)
    ensures t == Finish(s, f, bs, os, names) && Advances(s, t)
  {
    t := FinishAll(s, f, bs, os, names);
    assert s.org[s.at..][1..] + os == t.org[t.at..];
    CostsAppend(s.org[s.at..][1..], os);
  }

  /** What the dereferenced cell root says about the cell to be scanned. */
  ghost predicate Found(s: Copy, root: Cell, j: nat)
    requires s.at < |s.org| == |s.b|
  {
    match s.org[s.at]
    case Arg(t, _) =>
      j <= s.k && Decode(s.h, root, j) == Some(t) && Known(s, root) && (root.Ref? ==>
          root.a in s.h && s.h[root.a] == root)
    case _ => root == s.b[s.at]
  }

  /** An unbound variable: the cell becomes a variable of its own. */
  lemma EndVar(s: LiveCopy, root: Cell, j: nat) returns (t: LiveCopy)
    requires s.at < |s.b| && Found(s, root, j) && root.Ref?
    ensures t == Finish(s, Ref(s.base + s.at), [], [], s.names) && Advances(s, t)
  {
    assert PendingCell(s, s.at);
    assert s.org[s.at].t == Var(root.a);
    t := FinishLive(s, Ref(s.base + s.at), [], [], s.names);
  }

  /** The cell keeps its contents: integers, nil, single characters. */
  predicate Unchanged(root: Cell) {
    root.Int? || root == Con(ASCII_SIZE, 0) || (root.Con? && root.f < ASCII_SIZE)
  }

  lemma EndUnchanged(s: LiveCopy, root: Cell, j: nat) returns (t: LiveCopy)
    requires s.at < |s.b| && Found(s, root, j) && Unchanged(root)
    ensures t == Finish(s, root, [], [], s.names) && Advances(s, t)
  {
    assert PendingCell(s, s.at);
    if root.Con? { assert Renamed(s, root.f, root.f); }
    t := FinishLive(s, root, [], [], s.names);
  }

  /** A symbol goes through the child's table. */
  lemma EndSymbol(s: LiveCopy, root: Cell, j: nat, index: nat, names: seq<char>) returns (t: LiveCopy)
    requires s.at < |s.b| && Found(s, root, j) && root.Con? && ASCII_SIZE <= root.f < ASCII_SIZE + |s.pnames|
    requires LookedUp(s.names, CString(s.pnames, root.f - ASCII_SIZE), index, names)
    ensures t == Finish(s, Con(ASCII_SIZE + index, root.n), [], [], names) && Advances(s, t)
  {
    LookedUpKeeps(s.names, CString(s.pnames, root.f - ASCII_SIZE), index, names);
    LookedUpCanonical(s.names, CString(s.pnames, root.f - ASCII_SIZE), index, names);
    assert PendingCell(s, s.at);
    assert Renamed(s.(names := names), root.f, ASCII_SIZE + index);
    t := FinishLive(s, Con(ASCII_SIZE + index, root.n), [], [], names);
  }

  /** A symbol to be scanned is one of the source's table. */
  lemma SymbolKnown(s: LiveCopy, root: Cell, j: nat)
    requires s.at < |s.b| && Found(s, root, j) && root.Con?
    ensures root.f < ASCII_SIZE + |s.pnames|
  {
    assert PendingCell(s, s.at);
  }

  /** A list: head and tail are appended. */
  lemma EndPair(s: LiveCopy, root: Cell, j: nat) returns (t: LiveCopy, os: seq<Origin>)
    requires s.at < |s.b| && Found(s, root, j) && root.Lis?
    ensures root.a in s.h && root.a + 1 in s.h && |os| == 2
    ensures t == Finish(s, Lis(s.base + |s.b|), [s.h[root.a], s.h[root.a + 1]], os, s.names) && Advances(s, t)
  {
    assert PendingCell(s, s.at);
    var p, h := root.a, s.h;
    DecodeMore(h, h[p], j - 1, s.k);
    DecodeMore(h, h[p + 1], j - 1, s.k);
    assert KnownCell(s, p) && KnownCell(s, p + 1);
    var x, y, lo := s.org[s.at].t.head, s.org[s.at].t.tail, s.org[s.at].lo;
    os := [Arg(x, lo), Arg(y, lo + |Occurrences(x)|)];
    assert os[1..] == [os[1]] && [x, y][1..] == [y];
    assert Costs(os[1..]) == Cost(os[1]);
    var t0 := Finish(s, Lis(s.base + |s.b|), [h[p], h[p + 1]], os, s.names);
    assert ArgsFrom(t0, [y], lo + |Occurrences(x)|, |s.b| + 1);
    t := FinishLive(s, Lis(s.base + |s.b|), [h[p], h[p + 1]], os, s.names);
  }

  /** What the arguments of a structure stand for. */
  ghost function ArgOrigins(ts: seq<Term>, lo: nat): (os: seq<Origin>)
    ensures |os| == |ts|
  {
    if ts == [] then [] else [Arg(ts[0], lo)] + ArgOrigins(ts[1..], lo + |Occurrences(ts[0])|)
  }

  lemma {:induction false} ArgOriginsCost(ts: seq<Term>, lo: nat)
    ensures Costs(ArgOrigins(ts, lo)) == ArgsSize(ts)
  {
    if ts != [] {
      ArgOriginsCost(ts[1..], lo + |Occurrences(ts[0])|);
      assert ArgOrigins(ts, lo)[1..] == ArgOrigins(ts[1..], lo + |Occurrences(ts[0])|);
    }
  }

  lemma {:induction false} ArgOriginsFrom(s: Copy, ts: seq<Term>, lo: nat, q: nat)
    requires q + |ts| <= |s.org| && s.org[q..q + |ts|] == ArgOrigins(ts, lo)
    ensures ArgsFrom(s, ts, lo, q)
    decreases |ts|
  {
    if ts != [] {
      assert s.org[q] == s.org[q..q + |ts|][0];
      assert s.org[q + 1..q + |ts|] == s.org[q..q + |ts|][1..] == ArgOrigins(ts[1..], lo + |Occurrences(ts[0])|);
      ArgOriginsFrom(s, ts[1..], lo + |Occurrences(ts[0])|, q + 1);
    }
  }

  /** The n cells from a on. */
  ghost function Cells(h: Heap, a: nat, n: nat): (cs: seq<Cell>)
    requires forall x :: a <= x < a + n ==> x in h
    ensures |cs| == n && forall i :: 0 <= i < n ==> cs[i] == h[a + i]
  {
    seq(n, i requires 0 <= i < n => h[a + i])
  }

  lemma ArgsInHeap(h: Heap, a: nat, n: nat, k: nat)
    requires DecodeArgs(h, a, n, k).Some?
    ensures forall x :: a <= x < a + n ==> x in h
  {
    forall x | a <= x < a + n ensures x in h { DecodeArgsAt(h, a, n, k, x - a); }
  }

  lemma {:induction false} ArgsNew(s: LiveCopy, a: nat, ts: seq<Term>, lo: nat, i: nat)
    requires DecodeArgs(s.h, a, |ts|, s.k) == Some(ts) && i < |ts|
    ensures a + i in s.h && Known(s, s.h[a + i]) && ArgOrigins(ts, lo)[i].Arg?
    ensures Decode(s.h, s.h[a + i], s.k) == Some(ArgOrigins(ts, lo)[i].t)
    decreases |ts|
  {
    if i == 0 {
      assert KnownCell(s, a);
    } else {
      ArgsNew(s, a + 1, ts[1..], lo + |Occurrences(ts[0])|, i - 1);
    }
  }

  /** A structure whose functor is at p: functor and arguments are appended. */
  lemma EndStruct(s: LiveCopy, p: nat, j: nat) returns (t: LiveCopy, os: seq<Origin>)
    requires s.at < |s.b| && Found(s, Str(p), j) && p in s.h && s.h[p].Con?
    ensures |os| == s.h[p].n + 1 && forall x :: p <= x < p + |os| ==> x in s.h
    ensures t == Finish(s, Str(s.base + |s.b|), Cells(s.h, p, s.h[p].n + 1), os, s.names) && Advances(s, t)
  {
    assert PendingCell(s, s.at);
    var h, n := s.h, s.h[p].n;
    var args, lo := s.org[s.at].t.args, s.org[s.at].lo;
    DecodeArgsMore(h, p + 1, n, j - 1, s.k);
    ArgsInHeap(h, p + 1, n, s.k);
    os := [Functor(h[p].f, n)] + ArgOrigins(args, lo);
    var bs := Cells(h, p, n + 1);
    StructNew(s, p, args, lo, bs, os);
    t := StructEnds(s, h[p].f, args, lo, bs, os);
  }

  lemma StructEnds(s: LiveCopy, f: nat, args: seq<Term>, lo: nat, bs: seq<Cell>, os: seq<Origin>) returns (t: LiveCopy)
    requires s.at < |s.b| && s.org[s.at] == Arg(Compound(f, args), lo) && args != [] && AllNew(s, bs, os)
    requires os == [Functor(f, |args|)] + ArgOrigins(args, lo)
    ensures t == Finish(s, Str(s.base + |s.b|), bs, os, s.names) && Advances(s, t)
  {
    ArgOriginsCost(args, lo);
    assert os[1..] == ArgOrigins(args, lo);
    var t0 := Finish(s, Str(s.base + |s.b|), bs, os, s.names);
    assert t0.org[|s.b| + 1..|s.b| + 1 + |args|] == ArgOrigins(args, lo);
    ArgOriginsFrom(t0, args, lo, |s.b| + 1);
    t := FinishLive(s, Str(s.base + |s.b|), bs, os, s.names);
  }

  lemma StructNew(s: LiveCopy, p: nat, args: seq<Term>, lo: nat, bs: seq<Cell>, os: seq<Origin>)
    requires p in s.h && s.h[p].Con? && s.h[p].n == |args| > 0 && DecodeArgs(s.h, p + 1, |args|, s.k) == Some(args)
    requires forall x :: p <= x < p + |args| + 1 ==> x in s.h
    requires bs == Cells(s.h, p, |args| + 1)
    requires os == [Functor(s.h[p].f, |args|)] + ArgOrigins(args, lo)
    ensures AllNew(s, bs, os)
  {
    forall i | 0 <= i < |bs| ensures NewOK(s, bs, os, i) {
      if i == 0 {
        assert KnownCell(s, p);
      } else {
        ArgsNew(s, p + 1, args, lo, i - 1);
        assert bs[i] == s.h[p + i];
      }
    }
  }

  /** A float whose header is at p. */
  lemma EndFloat(s: LiveCopy, p: nat, j: nat) returns (t: LiveCopy, os: seq<Origin>)
    requires s.at < |s.b| && Found(s, Str(p), j) && p in s.h && s.h[p].Fvl?
    ensures p + 1 in s.h && p + 2 in s.h && |os| == 3
    ensures t == Finish(s, Str(s.base + |s.b|), [Fvl, s.h[p + 1], s.h[p + 2]], os, s.names) && Advances(s, t)
  {
    assert PendingCell(s, s.at);
    var bs := [Fvl, s.h[p + 1], s.h[p + 2]];
    os := [Header, Raw1(s.h[p + 1]), Raw2(s.h[p + 2])];
    assert os[1..] == [os[1], os[2]] && os[1..][1..] == [os[2]] && os[1..][1..][1..] == [];
    assert Costs(os[1..][1..]) == 1;
    assert forall i :: 0 <= i < 3 ==> NewOK(s, bs, os, i);
    var t0 := Finish(s, Str(s.base + |s.b|), bs, os, s.names);
    assert t0.org[|s.b|..|s.b| + 3] == os;
    t := FinishLive(s, Str(s.base + |s.b|), bs, os, s.names);
  }

  /** The words of a float already copied are passed over. */
  lemma EndHeader(s: LiveCopy) returns (t: LiveCopy)
    requires s.at < |s.b| && s.b[s.at].Fvl?
    ensures t == s.(at := s.at + 3) && Advances(s, t)
  {
    assert PendingCell(s, s.at);
    t := SkipLive(s);
    SkipCosts(s.org[s.at..]);
    assert s.org[s.at..][3..] == t.org[t.at..];
  }

  lemma SkipCosts(os: seq<Origin>)
    requires |os| >= 3 && !os[0].Arg? && !os[1].Arg? && !os[2].Arg?
    ensures Costs(os) == 3 + Costs(os[3..])
  {
    assert os[1..][1..] == os[2..] && os[2..][1..] == os[3..];
  }

  lemma SkipLive(s: LiveCopy) returns (t: LiveCopy)
    requires s.at + 2 < |s.b| && s.org[s.at].Header? && s.org[s.at + 1].Raw1? && s.org[s.at + 2].Raw2?
    ensures t == s.(at := s.at + 3) && Grows(s, t)
  {
    var t0 := s.(at := s.at + 3);
    assert Grows(s, t0);
    forall d | t0.at <= d < |t0.b| ensures PendingCell(t0, d) { assert PendingCell(s, d); }
    forall d | 0 <= d < t0.at ensures DoneCell(t0, d) {
      if d < s.at { assert DoneCell(s, d); DoneKept(s, t0, d); } else { assert PendingCell(s, d); }
    }
    FinishTables(s, t0);
    t := t0;
  }

  /** The copy of root starts with its cell. */
  lemma Begin(h: Heap, k: nat, pnames: seq<char>, base: nat, names: seq<char>, root: Cell,
              t: Term) returns (s: LiveCopy)
    requires Tables(Copy(h, k, pnames, base, names, [], 0, [])) && Decode(h, root, k) == Some(t)
    requires root.Con? ==> root.f < ASCII_SIZE + |pnames|
    ensures s == Copy(h, k, pnames, base, names, [root], 0, [Arg(t, 0)]) && Left(s) == TermSize(t)
  {
    var s0 := Copy(h, k, pnames, base, names, [root], 0, [Arg(t, 0)]);
    var e := Copy(h, k, pnames, base, names, [], 0, []);
    forall x | x in h ensures KnownCell(s0, x) { assert KnownCell(e, x); }
    s := s0;
    assert s.org[0..] == s.org && s.org[1..] == [];
    assert Costs(s.org[1..]) == 0;
  }
}
