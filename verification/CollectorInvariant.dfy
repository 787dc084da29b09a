// The copying collector: roots are copied into a separate block, the copies are scanned in place while
// forwarding marks overwrite the collected area, and the copies are moved back onto the stack.
module CollectorInvariant {
  import opened Terms

  /** v refers to cells that lie wholly below the collecting line. */
  predicate Below(h: Heap, line: nat, v: Cell) {
    match v
    case Ref(a) => a < line
    case Lis(a) => a + 1 < line
    case Str(a) =>
      && a < line && NoChain(h, v)
      && (a in h && h[a].Con? ==> a + h[a].n < line)
      && (a in h && h[a].Fvl? ==> a + 2 < line)
    case _ => true
  }

  /** v refers to a functor directly, if to any. */
  predicate NoChain(h: Heap, v: Cell) {
    v.Str? && v.a in h ==> !h[v.a].Str?
  }

  /** v refers to no block that lies across the collecting line. */
  predicate NoStraddle(h: Heap, line: nat, v: Cell) {
    NoChain(h, v) && (!v.IsCst() && v.a < line ==> Below(h, line, v))
  }

  /** The live cells h of a block whose cells from line on are to be collected; copies live at cb and above. */
  ghost predicate Area(h: Heap, line: nat, cb: nat) {
    forall x {:trigger AreaCell(h, line, cb, x)} :: x in h ==> AreaCell(h, line, cb, x)
  }

  ghost predicate AreaCell(h: Heap, line: nat, cb: nat, x: nat)
    requires x in h
  {
    && (!h[x].IsCst() ==> h[x].a < cb)
    && (x >= line ==> !h[x].Fvl? && NoStraddle(h, line, h[x]))
  }

  /** w is reached from v by following n bound variables of the collected area. */
  ghost predicate Chase(h: Heap, line: nat, v: Cell, n: nat, w: Cell)
    decreases n
  {
    if n == 0 then v == w
    else v.Ref? && line <= v.a && v.a in h && h[v.a] != v && Chase(h, line, h[v.a], n - 1, w)
  }

  lemma {:induction false} ChaseStep(h: Heap, line: nat, v: Cell, n: nat, w: Cell)
    requires Chase(h, line, v, n, w)
    requires w.Ref? && line <= w.a && w.a in h && h[w.a] != w
    ensures Chase(h, line, v, n + 1, h[w.a])
    decreases n
  {
    if n > 0 {
      ChaseStep(h, line, h[v.a], n - 1, w);
    } else {
      assert Chase(h, line, h[v.a], 0, h[w.a]);
    }
  }

  lemma {:induction false} ChaseDecode(h: Heap, line: nat, v: Cell, n: nat, w: Cell, k: nat)
    requires Chase(h, line, v, n, w) && Decode(h, v, k).Some?
    ensures n < k && Decode(h, w, k - n) == Decode(h, v, k)
    decreases n
  {
    if n > 0 { ChaseDecode(h, line, h[v.a], n - 1, w, k - 1); }
  }

  lemma {:induction false} ChaseSound(h: Heap, line: nat, cb: nat, v: Cell, n: nat, w: Cell)
    requires Area(h, line, cb) && Chase(h, line, v, n, w) && NoStraddle(h, line, v)
    ensures NoStraddle(h, line, w)
    decreases n
  {
    if n > 0 { assert AreaCell(h, line, cb, v.a); ChaseSound(h, line, cb, h[v.a], n - 1, w); }
  }

  /** The cells a copy stands for are terms that can be read to depth k, or functors. */
  predicate Good(h: Heap, line: nat, k: nat, v: Cell) {
    (v.IsFunctor() || Decode(h, v, k).Some?) && NoStraddle(h, line, v)
  }

  /** The state of the scan loop. */
  datatype Scan = Scan(
    h: Heap,             // the live cells before the collection
    k: nat,              // a depth at which all of them can be read
    line: nat,           // the collecting line
    cb: nat,             // the address of the copy block
    m: seq<Cell>,        // the block, with forwarding marks
    b: seq<Cell>,        // the copy block up to the free pointer
    at: nat,             // the scan pointer
    orig: seq<Cell>,     // per copied cell: the cell it was copied from, before the collection
    fw: map<nat, nat>,   // per marked cell: the copy its mark refers to
    hops: seq<nat>,      // per scanned copy: the bound variables shunted
    res: seq<Cell>)      // per scanned copy: the cell found behind them

  ghost function MarkedCell(s: Scan, x: nat): Cell
    requires x in s.h
  {
    if x in s.fw then Ref(s.cb + s.fw[x]) else s.h[x]
  }

  /** The block copied from p lies at q of the copy block. */
  ghost predicate BlockAt(s: Scan, p: nat, n: nat, q: nat) {
    q + n < |s.orig| && forall x :: p <= x <= p + n ==> x in s.h && s.orig[q + (x - p)] == s.h[x]
  }

  ghost predicate ForwardOK(s: Scan, x: nat)
    requires x in s.fw && |s.b| == |s.orig|
  {
    var c := s.fw[x];
    && x in s.h && x >= s.line && c < |s.b|
    && (s.h[x].IsFunctor() ==> s.b[c] == s.h[x] && BlockAt(s, x, s.h[x].n, c))
    && (c < s.at ==> if s.h[x] == Ref(x) then s.b[c] == Ref(s.line + c) else s.orig[c] == s.h[x])
    && (c >= s.at ==>
          && s.orig[c] == s.b[c] == s.h[x]
          && (!s.h[x].IsFunctor() ==> c >= 1 && x >= 1 && x - 1 in s.h && s.orig[c - 1] == s.h[x - 1]))
  }

  /** A copy not yet scanned holds the cell it was copied from, or the mark found there. */
  ghost predicate PendingCell(s: Scan, c: nat)
    requires c < |s.b| == |s.orig|
  {
    s.b[c] == s.orig[c] || (!s.orig[c].IsFunctor() &&
    exists x :: x in s.fw && x in s.h && s.h[x] == s.orig[c] && s.fw[x] < c && s.b[c] == Ref(s.cb + s.fw[x]))
  }

  /** The cell f may stand at c of the copy block for w, found behind n bound variables. */
  ghost predicate Outcome(s: Scan, c: nat, f: Cell, n: nat, w: Cell) {
    || ((w.IsCst() || w.a < s.line) && f == w)
    || (w.Ref? && w.a in s.fw && w.a in s.h && s.h[w.a] == w && f == Ref(s.line + s.fw[w.a]))
    || (f.Ref? && s.line <= f.a < s.line + |s.orig| && s.orig[f.a - s.line] == w && (n > 0 || f.a - s.line < c))
    || (w.Lis? && w.a >= s.line && f.Lis? && f.a >= s.line && BlockAt(s, w.a, 1, f.a - s.line))
    || (w.Str? && w.a in s.fw && w.a in s.h && s.h[w.a].IsFunctor() && f == Str(s.line + s.fw[w.a]))
  }

  ghost predicate DoneCell(s: Scan, c: nat)
    requires c < |s.hops| == |s.res| && c < |s.b| == |s.orig|
  {
    Chase(s.h, s.line, s.orig[c], s.hops[c], s.res[c]) && Outcome(s, c, s.b[c], s.hops[c], s.res[c])
  }

  ghost predicate Shape(s: Scan) {
    |s.b| == |s.orig| && s.at == |s.hops| == |s.res| <= |s.b|
  }

  ghost predicate Marks(s: Scan) {
    forall x {:trigger MarkedCell(s, x)} :: x in s.h && x >= s.line ==> x < |s.m| && s.m[x] == MarkedCell(s, x)
  }

  ghost predicate Forwards(s: Scan) requires Shape(s) {
    forall x {:trigger ForwardOK(s, x)} :: x in s.fw ==> ForwardOK(s, x)
  }

  /** The unbound variable x has moved. */
  ghost predicate Moved(s: Scan, x: nat) {
    x in s.fw && x in s.h && s.h[x] == Ref(x)
  }

  /** No two variables have moved to one copy. */
  ghost predicate Homes(s: Scan) {
    forall x, y {:trigger Moved(s, x), Moved(s, y)} :: Moved(s, x) && Moved(s, y) && x != y ==> s.fw[x] != s.fw[y]
  }

  ghost predicate GoodCell(s: Scan, c: nat)
    requires c < |s.orig|
  {
    Good(s.h, s.line, s.k, s.orig[c])
  }

  ghost predicate Goods(s: Scan) {
    forall c {:trigger GoodCell(s, c)} :: 0 <= c < |s.orig| ==> GoodCell(s, c)
  }

  ghost predicate Pendings(s: Scan) requires Shape(s) {
    forall c {:trigger PendingCell(s, c)} :: s.at <= c < |s.b| ==> PendingCell(s, c)
  }

  ghost predicate Dones(s: Scan) requires Shape(s) {
    forall c {:trigger DoneCell(s, c)} :: 0 <= c < s.at ==> DoneCell(s, c)
  }

  ghost predicate Inv(s: Scan) {
    && Shape(s) && Area(s.h, s.line, s.cb)
    && Marks(s) && Forwards(s) && Homes(s) && Goods(s) && Pendings(s) && Dones(s)
  }

  /** A state the scan loop can be in. */
  type LiveScan = s: Scan | Inv(s) ghost witness Scan(map[], 0, 0, 0, [], [], 0, [], map[], [], [])

  /** t continues s: copies are added, marks are set, nothing scanned changes. */
  ghost predicate Later(s: Scan, t: Scan) {
    && Shape(s) && Shape(t)
    && s.h == t.h && s.k == t.k && s.line == t.line && s.cb == t.cb
    && s.orig <= t.orig && s.hops <= t.hops && s.res <= t.res && s.b[..s.at] <= t.b
    && (forall x :: x in s.fw ==> x in t.fw && t.fw[x] == s.fw[x])
  }

  lemma MarksKept(s: Scan, t: Scan)
    requires t.h == s.h && t.line == s.line && t.cb == s.cb && t.m == s.m && t.fw == s.fw && Marks(s) && Homes(s)
    ensures Marks(t) && Homes(t)
  {
    forall x | x in t.h && x >= t.line ensures x < |t.m| && t.m[x] == MarkedCell(t, x) {
      assert MarkedCell(s, x) == MarkedCell(t, x);
    }
    forall x, y | Moved(t, x) && Moved(t, y) && x != y ensures t.fw[x] != t.fw[y] {
      assert Moved(s, x) && Moved(s, y);
    }
  }

  lemma GoodsKept(s: Scan, t: Scan)
    requires t.h == s.h && t.line == s.line && t.k == s.k && t.orig == s.orig && Goods(s)
    ensures Goods(t)
  {
    forall c | 0 <= c < |t.orig| ensures GoodCell(t, c) { assert GoodCell(s, c); }
  }

  lemma BlockKept(s: Scan, t: Scan, p: nat, n: nat, q: nat)
    requires Later(s, t) && BlockAt(s, p, n, q)
    ensures BlockAt(t, p, n, q)
  {
  }

  lemma OutcomeKept(s: Scan, t: Scan, c: nat, f: Cell, n: nat, w: Cell)
    requires Later(s, t) && Outcome(s, c, f, n, w)
    ensures Outcome(t, c, f, n, w)
  {
    if w.Lis? && f.Lis? && f.a >= s.line && BlockAt(s, w.a, 1, f.a - s.line) {
      BlockKept(s, t, w.a, 1, f.a - s.line);
    }
  }

  lemma DoneKept(s: Scan, t: Scan, c: nat)
    requires Later(s, t) && Dones(s) && c < s.at
    ensures DoneCell(t, c)
  {
    assert DoneCell(s, c);
    assert t.b[c] == s.b[..s.at][c];
    OutcomeKept(s, t, c, s.b[c], s.hops[c], s.res[c]);
  }

  lemma PendingKept(s: Scan, t: Scan, c: nat)
    requires Later(s, t) && Pendings(s) && t.at <= c < |s.b| && t.b[c] == s.b[c] && s.at <= c
    ensures PendingCell(t, c)
  {
    assert PendingCell(s, c);
    if s.b[c] != s.orig[c] {
      var y :| y in s.fw && y in s.h && s.h[y] == s.orig[c] && s.fw[y] < c && s.b[c] == Ref(s.cb + s.fw[y]);
      assert y in t.fw && t.fw[y] == s.fw[y];
    }
  }

  lemma ForwardKept(s: Scan, t: Scan, x: nat)
    requires Later(s, t) && Forwards(s) && x in s.fw && |s.b| <= |t.b|
    requires s.fw[x] < s.at || (s.fw[x] >= t.at && s.fw[x] < |s.b| && t.b[s.fw[x]] == s.b[s.fw[x]])
    ensures ForwardOK(t, x)
  {
    assert ForwardOK(s, x);
    var c := s.fw[x];
    if c < s.at { assert t.b[c] == s.b[..s.at][c]; }
    if s.h[x].IsFunctor() { BlockKept(s, t, x, s.h[x].n, c); }
  }

  /** The cells from p to p + n. */
  ghost function Block(h: Heap, p: nat, n: nat): (b: seq<Cell>)
    requires forall x :: p <= x <= p + n ==> x in h
    ensures |b| == n + 1 && forall i :: 0 <= i <= n ==> b[i] == h[p + i]
  {
    seq(n + 1, i requires 0 <= i <= n => h[p + i])
  }

  /** The copies of the cells from p to p + n, appended at the free pointer. */
  ghost function Extend(s: Scan, p: nat, n: nat): Scan
    requires p + n < |s.m| && forall x :: p <= x <= p + n ==> x in s.h
  {
    s.(b := s.b + s.m[p..p + n + 1], orig := s.orig + Block(s.h, p, n))
  }

  /** The cells from p to p + n may be copied. */
  ghost predicate Copyable(s: Scan, p: nat, n: nat) {
    && s.line <= p && p + n < |s.m|
    && forall x :: p <= x <= p + n ==> x in s.h && Good(s.h, s.line, s.k, s.h[x]) && (x in s.fw ==> !s.h[x].IsFunctor())
  }

  lemma ExtendKeepsInv(s: Scan, p: nat, n: nat)
    requires Inv(s) && Copyable(s, p, n)
    ensures Inv(Extend(s, p, n)) && BlockAt(Extend(s, p, n), p, n, |s.b|)
  {
    ExtendBlock(s, p, n);
    ExtendMarks(s, p, n);
    ExtendForwards(s, p, n);
    ExtendCopies(s, p, n);
    ExtendGoods(s, p, n);
  }

  lemma ExtendBlock(s: Scan, p: nat, n: nat)
    requires Shape(s) && p + n < |s.m| && forall x :: p <= x <= p + n ==> x in s.h
    ensures Shape(Extend(s, p, n)) && BlockAt(Extend(s, p, n), p, n, |s.b|)
  {
    forall x | p <= x <= p + n ensures Extend(s, p, n).orig[|s.b| + (x - p)] == s.h[x] { ExtendAt(s, p, n, x); }
  }

  lemma ExtendAt(s: Scan, p: nat, n: nat, x: nat)
    requires Shape(s) && p + n < |s.m| && p <= x <= p + n && forall y :: p <= y <= p + n ==> y in s.h
    ensures Extend(s, p, n).orig[|s.b| + (x - p)] == s.h[x]
  {
    assert Block(s.h, p, n)[x - p] == s.h[x];
  }

  lemma ExtendMarks(s: Scan, p: nat, n: nat)
    requires Marks(s) && Homes(s) && Copyable(s, p, n)
    ensures Marks(Extend(s, p, n)) && Homes(Extend(s, p, n))
  {
    MarksKept(s, Extend(s, p, n));
  }

  lemma ExtendForwards(s: Scan, p: nat, n: nat)
    requires Shape(s) && Forwards(s) && Copyable(s, p, n)
    ensures Forwards(Extend(s, p, n))
  {
    var t := Extend(s, p, n);
    forall x | x in t.fw ensures ForwardOK(t, x) { assert ForwardOK(s, x); ForwardKept(s, t, x); }
  }

  lemma ExtendGoods(s: Scan, p: nat, n: nat)
    requires Shape(s) && Goods(s) && Copyable(s, p, n)
    ensures Goods(Extend(s, p, n))
  {
    var t := Extend(s, p, n);
    forall c | 0 <= c < |t.orig| ensures GoodCell(t, c) {
      if c < |s.orig| { assert GoodCell(s, c); } else { assert t.orig[c] == s.h[p + (c - |s.orig|)]; }
    }
  }

  lemma ExtendCopies(s: Scan, p: nat, n: nat)
    requires Shape(s) && Marks(s) && Forwards(s) && Pendings(s) && Dones(s) && Copyable(s, p, n)
    ensures Pendings(Extend(s, p, n)) && Dones(Extend(s, p, n))
  {
    var t := Extend(s, p, n);
    forall c | t.at <= c < |t.b| ensures PendingCell(t, c) {
      if c < |s.b| { PendingKept(s, t, c); } else { ExtendPending(s, p, n, c); }
    }
    forall c | 0 <= c < t.at ensures DoneCell(t, c) { DoneKept(s, t, c); }
  }

  lemma ExtendPending(s: Scan, p: nat, n: nat, c: nat)
    requires Shape(s) && Marks(s) && Forwards(s) && Copyable(s, p, n)
    requires |s.b| <= c <= |s.b| + n
    ensures PendingCell(Extend(s, p, n), c)
  {
    var x := p + (c - |s.b|);
    assert x in s.h && Extend(s, p, n).b[c] == s.m[x] == MarkedCell(s, x);
    if x in s.fw { assert ForwardOK(s, x); }
  }

  ghost function SetMark(s: Scan, x: nat, c: nat): Scan
    requires x < |s.m|
  {
    s.(fw := s.fw[x := c], m := s.m[x := Ref(s.cb + c)])
  }

  lemma SetMarkBasics(s: Scan, x: nat, c: nat)
    requires Marks(s) && Homes(s) && x in s.h && x < |s.m| && x !in s.fw
    requires forall y {:trigger Moved(s, y)} :: Moved(s, y) ==> s.fw[y] != c
    ensures Marks(SetMark(s, x, c)) && Homes(SetMark(s, x, c))
  {
    var t := SetMark(s, x, c);
    forall y | y in t.h && y >= t.line ensures y < |t.m| && t.m[y] == MarkedCell(t, y) {
      assert s.m[y] == MarkedCell(s, y);
    }
    forall y, z | Moved(t, y) && Moved(t, z) && y != z ensures t.fw[y] != t.fw[z] {
      if y != x { assert Moved(s, y); }
      if z != x { assert Moved(s, z); }
    }
  }

  /** Marks alone change nothing for the copies. */
  lemma CopiesKept(s: Scan, t: Scan)
    requires Later(s, t) && Pendings(s) && Dones(s) && t.b == s.b && t.at == s.at
    ensures Pendings(t) && Dones(t)
  {
    forall d | t.at <= d < |t.b| ensures PendingCell(t, d) { PendingKept(s, t, d); }
    forall d | 0 <= d < t.at ensures DoneCell(t, d) { DoneKept(s, t, d); }
  }

  /** Setting the mark of x to the raw, unscanned copy c of x. */
  lemma MarkKeepsInv(s: Scan, x: nat, c: nat)
    requires Inv(s) && x in s.h && x >= s.line && x !in s.fw && x < |s.m|
    requires s.at <= c < |s.b| && s.orig[c] == s.b[c] == s.h[x]
    requires forall y :: y in s.fw ==> s.fw[y] != c
    requires if s.h[x].IsFunctor() then BlockAt(s, x, s.h[x].n, c)
             else c >= 1 && x >= 1 && x - 1 in s.h && s.orig[c - 1] == s.h[x - 1]
    ensures Inv(SetMark(s, x, c))
  {
    SetMarkBasics(s, x, c);
    GoodsKept(s, SetMark(s, x, c));
    CopiesKept(s, SetMark(s, x, c));
    MarkForwards(s, x, c);
  }

  lemma MarkForwards(s: Scan, x: nat, c: nat)
    requires Shape(s) && Forwards(s) && x in s.h && x >= s.line && x !in s.fw && x < |s.m|
    requires s.at <= c < |s.b| && s.orig[c] == s.b[c] == s.h[x]
    requires if s.h[x].IsFunctor() then BlockAt(s, x, s.h[x].n, c)
             else c >= 1 && x >= 1 && x - 1 in s.h && s.orig[c - 1] == s.h[x - 1]
    ensures Forwards(SetMark(s, x, c))
  {
    var t := SetMark(s, x, c);
    assert Later(s, t);
    forall y | y in t.fw ensures ForwardOK(t, y) {
      if y != x { assert ForwardOK(s, y); ForwardKept(s, t, y); }
      else if s.h[x].IsFunctor() { BlockKept(s, t, x, s.h[x].n, c); }
    }
  }

  ghost function Finish(s: Scan, f: Cell, n: nat, w: Cell): Scan
    requires s.at < |s.b|
  {
    s.(b := s.b[s.at := f], at := s.at + 1, hops := s.hops + [n], res := s.res + [w])
  }

  lemma FinishLater(s: Scan, f: Cell, n: nat, w: Cell)
    requires Shape(s) && s.at < |s.b|
    ensures Later(s, Finish(s, f, n, w))
  {
  }

  lemma FinishForwards(s: Scan, f: Cell, n: nat, w: Cell)
    requires Shape(s) && Forwards(s) && s.at < |s.b|
    requires forall x {:trigger Moved(s, x)} :: Moved(s, x) && s.fw[x] == s.at ==> f == Ref(s.line + s.at)
    requires s.orig[s.at].IsFunctor() ==> f == s.orig[s.at]
    ensures Forwards(Finish(s, f, n, w))
  {
    var t := Finish(s, f, n, w);
    FinishLater(s, f, n, w);
    forall x | x in t.fw ensures ForwardOK(t, x) {
      assert ForwardOK(s, x);
      assert Moved(s, x) <==> s.h[x] == Ref(x);
      if s.fw[x] != s.at { ForwardKept(s, t, x); }
      else if s.h[x].IsFunctor() { BlockKept(s, t, x, s.h[x].n, s.at); }
    }
  }

  /** Scanning one cell: its final contents are f. */
  lemma FinishKeepsInv(s: Scan, f: Cell, n: nat, w: Cell)
    requires Inv(s) && s.at < |s.b|
    requires Chase(s.h, s.line, s.orig[s.at], n, w) && Outcome(s, s.at, f, n, w)
    requires forall x {:trigger Moved(s, x)} :: Moved(s, x) && s.fw[x] == s.at ==> f == Ref(s.line + s.at)
    requires s.orig[s.at].IsFunctor() ==> f == s.orig[s.at]
    ensures Inv(Finish(s, f, n, w))
  {
    MarksKept(s, Finish(s, f, n, w));
    GoodsKept(s, Finish(s, f, n, w));
    FinishForwards(s, f, n, w);
    FinishCopies(s, f, n, w);
  }

  lemma FinishCopies(s: Scan, f: Cell, n: nat, w: Cell)
    requires Shape(s) && Pendings(s) && Dones(s) && s.at < |s.b|
    requires Chase(s.h, s.line, s.orig[s.at], n, w) && Outcome(s, s.at, f, n, w)
    ensures Pendings(Finish(s, f, n, w)) && Dones(Finish(s, f, n, w))
  {
    var t := Finish(s, f, n, w);
    FinishLater(s, f, n, w);
    forall d | t.at <= d < |t.b| ensures PendingCell(t, d) { PendingKept(s, t, d); }
    forall d | 0 <= d < t.at ensures DoneCell(t, d) {
      if d < s.at { DoneKept(s, t, d); } else { OutcomeKept(s, t, d, f, n, w); }
    }
  }

  /** A scan pointer that meets an unmarked unbound variable is the home of no other variable. */
  lemma NotAHome(s: Scan, n: nat, x: nat, y: nat)
    requires Inv(s) && s.at < |s.b| && x !in s.fw
    requires Chase(s.h, s.line, s.orig[s.at], n, Ref(x))
    requires Moved(s, y)
    ensures s.fw[y] != s.at
  {
    assert ForwardOK(s, y);
  }

  ghost function GoHome(s: Scan, n: nat, x: nat): Scan
    requires s.at < |s.b| && x < |s.m|
  {
    Finish(SetMark(s, x, s.at), Ref(s.line + s.at), n, Ref(x))
  }

  lemma HomeForwards(s: Scan, n: nat, x: nat)
    requires Shape(s) && Forwards(s) && s.at < |s.b| && x in s.h && s.line <= x < |s.m| && s.h[x] == Ref(x)
    requires x !in s.fw
    requires forall y {:trigger Moved(s, y)} :: Moved(s, y) ==> s.fw[y] != s.at
    requires !s.orig[s.at].IsFunctor()
    ensures Forwards(GoHome(s, n, x)) && Later(s, GoHome(s, n, x))
  {
    var t := GoHome(s, n, x);
    forall y | y in t.fw ensures ForwardOK(t, y) {
      if y != x {
        assert ForwardOK(s, y);
        if s.fw[y] != s.at { ForwardKept(s, t, y); }
      }
    }
  }

  lemma HomeCopies(s: Scan, n: nat, x: nat)
    requires Shape(s) && Pendings(s) && Dones(s) && s.at < |s.b| && x in s.h && x < |s.m| && s.h[x] == Ref(x)
    requires Chase(s.h, s.line, s.orig[s.at], n, Ref(x)) && Later(s, GoHome(s, n, x))
    ensures Pendings(GoHome(s, n, x)) && Dones(GoHome(s, n, x))
  {
    var t := GoHome(s, n, x);
    forall d | t.at <= d < |t.b| ensures PendingCell(t, d) { PendingKept(s, t, d); }
    forall d | 0 <= d < t.at ensures DoneCell(t, d) {
      if d < s.at { DoneKept(s, t, d); } else { assert t.b[d] == Ref(t.line + t.fw[x]); }
    }
  }

  /** Scanning a reference to an unbound, unmarked variable: the scanned copy becomes the variable. */
  lemma HomeKeepsInv(s: Scan, n: nat, x: nat)
    requires Inv(s) && s.at < |s.b|
    requires x in s.h && s.line <= x < |s.m| && x !in s.fw && s.h[x] == Ref(x)
    requires Chase(s.h, s.line, s.orig[s.at], n, Ref(x))
    ensures Inv(GoHome(s, n, x))
  {
    forall y | Moved(s, y) ensures s.fw[y] != s.at { NotAHome(s, n, x, y); }
    SetMarkBasics(s, x, s.at);
    MarksKept(SetMark(s, x, s.at), GoHome(s, n, x));
    GoodsKept(s, GoHome(s, n, x));
    HomeForwards(s, n, x);
    HomeCopies(s, n, x);
  }
}
