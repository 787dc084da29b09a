// The scan loop of the collector, on the block and the copy block themselves.
module ScanLoop {
  import opened Terms
  import opened CollectorInvariant

  /** The cells a copy of v will need, v's own cell included. */
  ghost function CellSize(h: Heap, k: nat, v: Cell): (n: nat)
    ensures n >= 1
  {
    if !v.IsFunctor() && Decode(h, v, k).Some? then TermSize(Decode(h, v, k).value) else 1
  }

  ghost function Work(h: Heap, k: nat, vs: seq<Cell>): (n: nat)
    ensures n >= |vs|
  {
    if vs == [] then 0 else CellSize(h, k, vs[0]) + Work(h, k, vs[1..])
  }

  lemma {:induction false} WorkAppend(h: Heap, k: nat, vs: seq<Cell>, ws: seq<Cell>)
    ensures Work(h, k, vs + ws) == Work(h, k, vs) + Work(h, k, ws)
  {
    if vs == [] {
      assert vs + ws == ws;
    } else {
      assert (vs + ws)[1..] == vs[1..] + ws;
      WorkAppend(h, k, vs[1..], ws);
    }
  }

  /** What is still to be scanned. */
  ghost function Left(s: Scan): nat
    requires Shape(s)
  {
    Work(s.h, s.k, s.orig[s.at..])
  }

  /** One cell has been scanned: t follows s, and less is left. */
  ghost predicate Advances(s: Scan, t: Scan) {
    && Shape(s) && Shape(t)
    && t.h == s.h && t.k == s.k && t.line == s.line && t.cb == s.cb && s.orig <= t.orig && |t.m| == |s.m|
    && t.at == s.at + 1 && Left(t) < Left(s)
    && (forall x :: 0 <= x < |s.m| && !(x in s.h && x >= s.line) ==> t.m[x] == s.m[x])
  }

  lemma WorkLeft(s: Scan, ws: seq<Cell>)
    requires Shape(s) && s.at < |s.orig| && CellSize(s.h, s.k, s.orig[s.at]) > Work(s.h, s.k, ws)
    ensures Work(s.h, s.k, (s.orig + ws)[s.at + 1..]) < Left(s)
  {
    assert (s.orig + ws)[s.at + 1..] == s.orig[s.at..][1..] + ws;
    WorkAppend(s.h, s.k, s.orig[s.at..][1..], ws);
  }

  lemma WorkOfPair(h: Heap, line: nat, k: nat, v: Cell, n: nat, p: nat)
    requires Chase(h, line, v, n, Lis(p)) && Decode(h, v, k).Some?
    ensures p in h && p + 1 in h && Decode(h, h[p], k).Some? && Decode(h, h[p + 1], k).Some?
    ensures CellSize(h, k, v) == 1 + Work(h, k, [h[p], h[p + 1]])
  {
    ChaseDecode(h, line, v, n, Lis(p), k);
    DecodeMore(h, h[p], k - n - 1, k);
    DecodeMore(h, h[p + 1], k - n - 1, k);
    assert [h[p], h[p + 1]][1..] == [h[p + 1]];
    assert Work(h, k, [h[p + 1]]) == CellSize(h, k, h[p + 1]) + Work(h, k, [h[p + 1]][1..]);
  }

  lemma {:induction false} WorkOfArgs(h: Heap, k: nat, a: nat, n: nat)
    requires DecodeArgs(h, a, n, k).Some?
    ensures forall x :: a <= x < a + n ==> x in h && Decode(h, h[x], k).Some?
    ensures Work(h, k,
                 seq(n, i requires 0 <= i < n && a + i in h => h[a + i])) == ArgsSize(DecodeArgs(h, a, n, k).value)
    decreases n
  {
    if n > 0 {
      WorkOfArgs(h, k, a + 1, n - 1);
      var cells := seq(n, i requires 0 <= i < n && a + i in h => h[a + i]);
      assert cells[1..] == seq(n - 1, i requires 0 <= i < n - 1 && a + 1 + i in h => h[a + 1 + i]);
      var first := Decode(h, h[a], k).value;
      assert DecodeArgs(h, a, n, k).value[1..] == DecodeArgs(h, a + 1, n - 1, k).value;
    }
  }

  lemma WorkOfStruct(h: Heap, line: nat, k: nat, v: Cell, n: nat, p: nat)
    requires Chase(h, line, v, n, Str(p)) && Decode(h, v, k).Some? && NoChain(h, Str(p))
    requires p in h ==> !h[p].Fvl?
    ensures p in h && h[p].IsFunctor()
    ensures forall x :: p < x <= p + h[p].n ==> x in h && Decode(h, h[x], k).Some?
    ensures CellSize(h, k, v) == 1 + Work(h, k, Block(h, p, h[p].n))
  {
    ChaseDecode(h, line, v, n, Str(p), k);
    DecodeArgsMore(h, p + 1, h[p].n, k - n - 1, k);
    WorkOfArgs(h, k, p + 1, h[p].n);
    WorkOfBlock(h, k, p, h[p].n);
  }

  lemma WorkOfBlock(h: Heap, k: nat, p: nat, n: nat)
    requires p in h && h[p].IsFunctor() && DecodeArgs(h, p + 1, n, k).Some?
    requires forall x :: p <= x <= p + n ==> x in h
    requires Work(h, k, seq(n, i requires 0 <= i < n && p + 1 + i in h => h[p + 1 + i]))
             == ArgsSize(DecodeArgs(h, p + 1, n, k).value)
    ensures Work(h, k, Block(h, p, n)) == 1 + ArgsSize(DecodeArgs(h, p + 1, n, k).value)
  {
    assert Block(h, p, n)[1..] == seq(n, i requires 0 <= i < n && p + 1 + i in h => h[p + 1 + i]);
  }

  lemma FinishAdvances(s: Scan, f: Cell, n: nat, w: Cell)
    requires Shape(s) && s.at < |s.b|
    ensures Advances(s, Finish(s, f, n, w))
  {
    WorkLeft(s, []);
    assert s.orig + [] == s.orig;
  }

  lemma AtMark(s: LiveScan, x: nat)
    requires x in s.h && x >= s.line
    ensures x < |s.m| && s.m[x] == MarkedCell(s, x)
    ensures x in s.fw ==> x < |s.m| && ForwardOK(s, x)
  {
    assert MarkedCell(s, x) == MarkedCell(s, x);
    if x in s.fw { assert ForwardOK(s, x); }
  }

  /** The address of a reference being shunted is a live cell, and not one of the copy block. */
  lemma ChasedRef(s: LiveScan, n: nat, w: Cell)
    requires s.at < |s.b| && Apart(s)
    requires Chase(s.h, s.line, s.orig[s.at], n, w) && w.Ref?
    ensures w.a in s.h && w.a < s.cb && n < s.k
    ensures w.a >= s.line ==> w.a < |s.m| && s.m[w.a] == MarkedCell(s, w.a)
    ensures !s.orig[s.at].IsFunctor()
  {
    assert GoodCell(s, s.at);
    ChaseDecode(s.h, s.line, s.orig[s.at], n, w, s.k);
    if w.a >= s.line { AtMark(s, w.a); }
  }

  /** If the copy being scanned is the new place of an unbound variable, the chase stays at that variable. */
  lemma HomeIsSelf(s: LiveScan, n: nat, w: Cell, x: nat)
    requires s.at < |s.b| && Chase(s.h, s.line, s.orig[s.at], n, w)
    requires Moved(s, x) && s.fw[x] == s.at
    ensures n == 0 && w == Ref(x) && x >= s.line && s.b[s.at] == s.orig[s.at]
  {
    assert ForwardOK(s, x);
  }

  /** root stands for w, found behind n bound variables; from is the cell whose mark it is, if it is one. */
  ghost predicate Tracks(s: Scan, root: Cell, from: Option<nat>, n: nat, w: Cell)
    requires Shape(s) && s.at < |s.b|
  {
    && Chase(s.h, s.line, s.orig[s.at], n, w)
    && match from
       case None => root == w
       case Some(x) =>
         && x in s.fw && x in s.h && root == Ref(s.cb + s.fw[x]) && !s.orig[s.at].IsFunctor()
         && if s.h[x] == Ref(x) then w == Ref(x)
            else w == s.h[x] && (n == 0 ==> s.fw[x] < s.at && s.b[s.at] != s.orig[s.at])
  }

  /** What is found in the cell about to be scanned. */
  lemma TracksStart(s: LiveScan) returns (from: Option<nat>)
    requires s.at < |s.b|
    ensures Tracks(s, s.b[s.at], from, 0, s.orig[s.at])
  {
    from := None;
    assert PendingCell(s, s.at);
    if s.b[s.at] != s.orig[s.at] {
      var x :| x in s.fw && x in s.h && s.h[x] == s.orig[s.at] && s.fw[x] < s.at && s.b[s.at] == Ref(s.cb + s.fw[x]);
      from := Some(x);
    }
  }

  /** Which of the tests on a reference can succeed. */
  lemma TracksRef(s: LiveScan, root: Cell, from: Option<nat>, n: nat, w: Cell)
    requires s.at < |s.b| && Apart(s) && Tracks(s, root, from, n, w) && root.Ref?
    ensures from.Some? <==> s.cb <= root.a < s.cb + |s.b|
    ensures from.None? && root.a >= s.line ==> root.a in s.h && root.a < |s.m| && s.m[root.a] == MarkedCell(s, root.a)
    ensures from.None? && s.line <= root.a && s.m[root.a] == root ==> root.a !in s.fw && s.h[root.a] == root
    ensures from.None? ==> n < s.k
  {
    if from.Some? { assert ForwardOK(s, from.value); } else { ChasedRef(s, n, w); }
  }

  lemma TracksStep(s: LiveScan, n: nat, w: Cell)
    requires s.at < |s.b| && Apart(s)
    requires Tracks(s, w, None, n, w) && w.Ref? && s.line <= w.a && w.a in s.h && w.a < |s.m|
    ensures if s.h[w.a] != w then Tracks(s, s.m[w.a], if w.a in s.fw then Some(w.a) else None, n + 1, s.h[w.a])
            else w.a in s.fw ==> Tracks(s, s.m[w.a], Some(w.a), n, w)
  {
    ChasedRef(s, n, w);
    if s.h[w.a] != w { ChaseStep(s.h, s.line, s.orig[s.at], n, w); }
  }

  /** Constants and whatever refers below the line stay as they are. */
  lemma EndSame(s: LiveScan, n: nat, w: Cell) returns (t: LiveScan)
    requires s.at < |s.b| && Apart(s)
    requires Chase(s.h, s.line, s.orig[s.at], n, w) && (w.IsCst() || w.a < s.line)
    ensures t.b == s.b[s.at := w] && t.m == s.m && Advances(s, t)
  {
    forall x | Moved(s, x) && s.fw[x] == s.at ensures false { HomeIsSelf(s, n, w, x); }
    FinishKeepsInv(s, w, n, w);
    FinishAdvances(s, w, n, w);
    t := Finish(s, w, n, w);
  }

  lemma EndMark(s: LiveScan, root: Cell, from: Option<nat>, n: nat, w: Cell) returns (t: LiveScan)
    requires s.at < |s.b| && Tracks(s, root, from, n, w) && root.Ref? && root.a >= s.cb && from.Some?
    ensures t.b == s.b[s.at := Ref(s.line + (root.a - s.cb))] && t.m == s.m && Advances(s, t)
  {
    var f := Ref(s.line + (root.a - s.cb));
    assert ForwardOK(s, from.value);
    forall y | Moved(s, y) && s.fw[y] == s.at ensures f == Ref(s.line + s.at) {
      HomeIsSelf(s, n, w, y);
    }
    FinishKeepsInv(s, f, n, w);
    FinishAdvances(s, f, n, w);
    t := Finish(s, f, n, w);
  }

  lemma EndHome(s: LiveScan, n: nat, x: nat) returns (t: LiveScan)
    requires s.at < |s.b| && x in s.h && s.line <= x < |s.m| && x !in s.fw && s.h[x] == Ref(x)
    requires Chase(s.h, s.line, s.orig[s.at], n, Ref(x))
    ensures t.b == s.b[s.at := Ref(s.line + s.at)] && t.m == s.m[x := Ref(s.cb + s.at)] && Advances(s, t)
  {
    HomeKeepsInv(s, n, x);
    FinishAdvances(SetMark(s, x, s.at), Ref(s.line + s.at), n, Ref(x));
    t := GoHome(s, n, x);
  }

  /** The copy block lies above the block being collected. */
  ghost predicate Apart(s: Scan) {
    s.line <= |s.m| <= s.cb
  }

  /** The registers and memory of the loop agree with s, and the copy block is large enough. */
  ghost predicate Holds(mem: array<Cell>, buf: array<Cell>, scanp: nat, freep: nat, s: Scan)
    requires Shape(s)
    reads mem, buf
  {
    && Apart(s) && mem != buf && s.m == mem[..] && freep <= buf.Length && s.b == buf[..freep] && s.at == scanp
    && scanp + Left(s) <= buf.Length
  }

  /** The shunting of references: stops at a term, an old cell, a copied cell, or an unbound variable. */
  method Shunt(mem: array<Cell>, buf: array<Cell>, scanp: nat, freep: nat, line: nat, cb: nat, ghost s: LiveScan)
    returns (root: Cell, ghost from: Option<nat>, ghost n: nat, ghost w: Cell)
    requires Holds(mem, buf, scanp, freep, s) && s.line == line && s.cb == cb && scanp < freep
    ensures Tracks(s, root, from, n, w)
    ensures root.Ref? ==> root.a < line || cb <= root.a < cb + freep || (root.a < mem.Length && mem[root.a] == root)
  {
    root, n, w := buf[scanp], 0, s.orig[scanp];
    from := TracksStart(s);
    while root.Ref?
      invariant Tracks(s, root, from, n, w)
      decreases if from.Some? then 0 else 1, s.k - n
    {
      TracksRef(s, root, from, n, w);
      if root.a < line || cb <= root.a < cb + freep || mem[root.a] == root { return; }
      TracksStep(s, n, w);
      var x := root.a;
      root := mem[x];
      if s.h[x] != Ref(x) { w, n := s.h[x], n + 1; }
      if x in s.fw { from := Some(x); }
    }
  }

  method SetCell(mem: array<Cell>, buf: array<Cell>, scanp: nat, freep: nat, f: Cell, ghost s: LiveScan,
                 ghost t: LiveScan)
    requires Holds(mem, buf, scanp, freep, s) && scanp < freep
    requires t.b == s.b[s.at := f] && t.m == s.m && Advances(s, t)
    modifies buf
    ensures Holds(mem, buf, t.at, freep, t)
  {
    buf[scanp] := f;
    assert buf[..freep] == t.b;
  }

  method SetHome(mem: array<Cell>, buf: array<Cell>, scanp: nat, freep: nat, line: nat, cb: nat, x: nat,
                 ghost s: LiveScan, ghost t: LiveScan)
    requires Holds(mem, buf, scanp, freep, s) && s.line == line && s.cb == cb && scanp < freep && x < |s.m|
    requires t.b == s.b[s.at := Ref(s.line + s.at)] && t.m == s.m[x := Ref(s.cb + s.at)] && Advances(s, t)
    modifies mem, buf
    ensures Holds(mem, buf, t.at, freep, t)
  {
    buf[scanp] := Ref(line + scanp);
    assert buf[..freep] == t.b;
    mem[x] := Ref(cb + scanp);
    assert mem[..] == t.m;
  }

  /** The three ways in which the scanned cell becomes a reference. */
  method Settle(mem: array<Cell>, buf: array<Cell>, scanp: nat, freep: nat, line: nat, cb: nat, root: Cell,
                ghost s: LiveScan, ghost from: Option<nat>, ghost n: nat, ghost w: Cell) returns (ghost t: LiveScan)
    requires Holds(mem, buf, scanp, freep, s) && s.line == line && s.cb == cb && scanp < freep
    requires Tracks(s, root, from, n, w) && root.Ref?
    requires root.a < line || cb <= root.a < cb + freep || (root.a < mem.Length && mem[root.a] == root)
    modifies mem, buf
    ensures Holds(mem, buf, t.at, freep, t) && Advances(s, t)
  {
    TracksRef(s, root, from, n, w);
    if root.a < line {
      t := EndSame(s, n, w);
      SetCell(mem, buf, scanp, freep, root, s, t);
    } else if cb <= root.a < cb + freep {
      t := EndMark(s, root, from, n, w);
      SetCell(mem, buf, scanp, freep, Ref(line + (root.a - cb)), s, t);
    } else {
      t := EndHome(s, n, root.a);
      SetHome(mem, buf, scanp, freep, line, cb, root.a, s, t);
    }
  }

  /** What is known of the pair a scanned cell refers to. */
  lemma PairFound(s: LiveScan, n: nat, w: Cell)
    requires s.at < |s.b| && Apart(s) && Chase(s.h, s.line, s.orig[s.at], n, w) && w.Lis? && w.a >= s.line
    ensures w.a in s.h && w.a + 1 in s.h && w.a + 1 < |s.m|
    ensures Good(s.h, s.line, s.k, s.h[w.a]) && Good(s.h, s.line, s.k, s.h[w.a + 1])
    ensures !s.h[w.a].IsFunctor() && !s.h[w.a + 1].IsFunctor() && !s.orig[s.at].IsFunctor()
    ensures CellSize(s.h, s.k, s.orig[s.at]) == 1 + Work(s.h, s.k, [s.h[w.a], s.h[w.a + 1]])
    ensures s.m[w.a + 1] == MarkedCell(s, w.a + 1)
    ensures w.a + 1 in s.fw <==> s.m[w.a + 1].Ref? && s.cb <= s.m[w.a + 1].a < s.cb + |s.b|
  {
    assert GoodCell(s, s.at);
    WorkOfPair(s.h, s.line, s.k, s.orig[s.at], n, w.a);
    assert AreaCell(s.h, s.line, s.cb, w.a) && AreaCell(s.h, s.line, s.cb, w.a + 1);
    AtMark(s, w.a + 1);
  }

  lemma NoHome(s: LiveScan, n: nat, w: Cell)
    requires s.at < |s.b| && Chase(s.h, s.line, s.orig[s.at], n, w) && !w.Ref?
    ensures forall x {:trigger Moved(s, x)} :: Moved(s, x) ==> s.fw[x] != s.at
  {
    forall x | Moved(s, x) && s.fw[x] == s.at ensures false { HomeIsSelf(s, n, w, x); }
  }

  /** The tail of the pair is copied and still to be scanned: the copy is shared. */
  lemma EndSharedPair(s: LiveScan, n: nat, w: Cell) returns (t: LiveScan)
    requires s.at < |s.b| && Apart(s) && Chase(s.h, s.line, s.orig[s.at], n, w) && w.Lis? && w.a >= s.line
    requires w.a + 1 in s.fw && s.fw[w.a + 1] > s.at
    ensures s.fw[w.a + 1] >= 1
    ensures t.b == s.b[s.at := Lis(s.line + s.fw[w.a + 1] - 1)] && t.m == s.m && Advances(s, t)
  {
    PairFound(s, n, w);
    NoHome(s, n, w);
    assert ForwardOK(s, w.a + 1);
    var f := Lis(s.line + s.fw[w.a + 1] - 1);
    assert BlockAt(s, w.a, 1, f.a - s.line);
    FinishKeepsInv(s, f, n, w);
    FinishAdvances(s, f, n, w);
    t := Finish(s, f, n, w);
  }

  /** u is s with copies added and marks set. */
  ghost predicate Grown(s: Scan, u: Scan) {
    && u.h == s.h && u.k == s.k && u.line == s.line && u.cb == s.cb && u.at == s.at
    && s.orig <= u.orig && s.b <= u.b && |u.b| == |u.orig| && u.hops == s.hops && u.res == s.res && |u.m| == |s.m|
    && (forall x :: 0 <= x < |s.m| && !(x in s.h && x >= s.line) ==> u.m[x] == s.m[x])
  }

  lemma GrownAdvances(s: LiveScan, u: LiveScan, ws: seq<Cell>, f: Cell, n: nat, w: Cell)
    requires Grown(s, u) && s.at < |s.b| && u.orig == s.orig + ws
    requires CellSize(s.h, s.k, s.orig[s.at]) > Work(s.h, s.k, ws)
    ensures Advances(s, Finish(u, f, n, w))
  {
    WorkLeft(s, ws);
  }

  /** The cells from p to p + n are copied to the free pointer. */
  lemma Extended(s: LiveScan, p: nat, n: nat) returns (u: LiveScan)
    requires Copyable(s, p, n)
    ensures Grown(s, u) && u.m == s.m && u.fw == s.fw && u.b == s.b + s.m[p..p + n + 1]
    ensures u.orig == s.orig + Block(s.h, p, n) && BlockAt(u, p, n, |s.b|)
  {
    ExtendKeepsInv(s, p, n);
    u := Extend(s, p, n);
  }

  /** The cell x is marked with its raw copy c. */
  lemma MarkSet(s: LiveScan, x: nat, c: nat) returns (u: LiveScan)
    requires x in s.h && s.line <= x < |s.m| && x !in s.fw
    requires s.at <= c < |s.b| && s.orig[c] == s.b[c] == s.h[x]
    requires forall y :: y in s.fw ==> s.fw[y] != c
    requires if s.h[x].IsFunctor() then BlockAt(s, x, s.h[x].n, c)
             else c >= 1 && x >= 1 && x - 1 in s.h && s.orig[c - 1] == s.h[x - 1]
    ensures Grown(s, u) && u.b == s.b && u.orig == s.orig && u.fw == s.fw[x := c] && u.m == s.m[x := Ref(s.cb + c)]
  {
    MarkKeepsInv(s, x, c);
    u := SetMark(s, x, c);
  }

  /** The copy of a pair at the free pointer, with the tail marked unless it already was. */
  lemma PairCopied(s: LiveScan, p: nat) returns (u: LiveScan)
    requires p >= s.line && p in s.h && p + 1 in s.h && p + 1 < |s.m|
    requires Good(s.h, s.line, s.k, s.h[p]) && Good(s.h, s.line, s.k, s.h[p + 1])
    requires !s.h[p].IsFunctor() && !s.h[p + 1].IsFunctor()
    ensures Grown(s, u) && u.orig == s.orig + [s.h[p], s.h[p + 1]]
    ensures u.b == s.b + [s.m[p], s.m[p + 1]]
    ensures u.m == if p + 1 in s.fw then s.m else s.m[p + 1 := Ref(s.cb + (|s.b| + 1))]
    ensures forall x :: x in u.fw && u.fw[x] < |s.b| ==> x in s.fw && s.fw[x] == u.fw[x]
  {
    var v := Extended(s, p, 1);
    TwoCells(s.h, s.m, p);
    if p + 1 in s.fw { u := v; } else { u := TailMarked(s, v, p); }
  }

  lemma TwoCells(h: Heap, m: seq<Cell>, p: nat)
    requires p in h && p + 1 in h && p + 1 < |m|
    ensures Block(h, p, 1) == [h[p], h[p + 1]] && m[p..p + 2] == [m[p], m[p + 1]]
  {
  }

  lemma PairAt(s: Scan, u: Scan, p: nat)
    requires p in s.h && p + 1 in s.h && u.h == s.h && |s.b| == |s.orig| && u.orig == s.orig + [s.h[p], s.h[p + 1]]
    ensures BlockAt(u, p, 1, |s.b|)
  {
  }

  lemma TailMarked(s: LiveScan, u: LiveScan, p: nat) returns (v: LiveScan)
    requires p >= s.line && p in s.h && p + 1 in s.h && p + 1 < |s.m| && p + 1 !in s.fw && !s.h[p + 1].IsFunctor()
    requires Grown(s, u) && u.m == s.m && u.fw == s.fw && u.b == s.b + [s.m[p], s.m[p + 1]]
    requires u.orig == s.orig + [s.h[p], s.h[p + 1]]
    ensures Grown(u, v) && v.b == u.b && v.orig == u.orig && v.fw == s.fw[p + 1 := |s.b| + 1]
    ensures v.m == s.m[p + 1 := Ref(s.cb + (|s.b| + 1))]
  {
    AtMark(s, p + 1);
    FreshCopy(s, |s.b| + 1);
    v := MarkSet(u, p + 1, |s.b| + 1);
  }

  lemma FreshCopy(s: LiveScan, c: nat)
    requires c >= |s.b|
    ensures forall y :: y in s.fw ==> s.fw[y] != c
  {
    forall y | y in s.fw ensures s.fw[y] != c { assert ForwardOK(s, y); }
  }

  lemma EndPair(s: LiveScan, n: nat, w: Cell) returns (t: LiveScan)
    requires s.at < |s.b| && Apart(s) && Chase(s.h, s.line, s.orig[s.at], n, w) && w.Lis? && w.a >= s.line
    ensures w.a + 1 < |s.m| && Advances(s, t)
    ensures t.b == (s.b + [s.m[w.a], s.m[w.a + 1]])[s.at := Lis(s.line + |s.b|)]
    ensures t.m == if w.a + 1 in s.fw then s.m else s.m[w.a + 1 := Ref(s.cb + (|s.b| + 1))]
  {
    PairFound(s, n, w);
    var u := PairCopied(s, w.a);
    var f := Lis(s.line + |s.b|);
    assert u.orig[u.at] == s.orig[s.at] && u.b[u.at] == s.b[s.at];
    GrownAdvances(s, u, [s.h[w.a], s.h[w.a + 1]], f, n, w);
    PairAt(s, u, w.a);
    NoHome(u, n, w);
    FinishKeepsInv(u, f, n, w);
    t := Finish(u, f, n, w);
  }

  lemma AllGood(s: LiveScan, p: nat, n: nat)
    requires p >= s.line && p in s.h && s.h[p].IsFunctor()
    requires forall x :: p < x <= p + n ==> x in s.h && Decode(s.h, s.h[x], s.k).Some?
    ensures forall x :: p <= x <= p + n ==> x in s.h && Good(s.h, s.line, s.k, s.h[x])
  {
    forall x | p <= x <= p + n ensures x in s.h && Good(s.h, s.line, s.k, s.h[x]) {
      assert AreaCell(s.h, s.line, s.cb, x);
    }
  }

  /** What is known of the structure a scanned cell refers to. */
  lemma StructFound(s: LiveScan, n: nat, w: Cell)
    requires s.at < |s.b| && Apart(s) && Chase(s.h, s.line, s.orig[s.at], n, w) && w.Str? && w.a >= s.line
    ensures w.a in s.h && s.h[w.a].IsFunctor() && w.a + s.h[w.a].n < |s.m| && !s.orig[s.at].IsFunctor()
    ensures forall x :: w.a <= x <= w.a + s.h[w.a].n ==> x in s.h && Good(s.h, s.line, s.k, s.h[x])
    ensures forall x :: w.a < x <= w.a + s.h[w.a].n ==> !s.h[x].IsFunctor()
    ensures CellSize(s.h, s.k, s.orig[s.at]) == 1 + Work(s.h, s.k, Block(s.h, w.a, s.h[w.a].n))
    ensures s.m[w.a] == MarkedCell(s, w.a)
    ensures w.a in s.fw <==> s.m[w.a].Ref? && s.cb <= s.m[w.a].a < s.cb + |s.b|
  {
    assert GoodCell(s, s.at);
    ChaseSound(s.h, s.line, s.cb, s.orig[s.at], n, w);
    if w.a in s.h { assert AreaCell(s.h, s.line, s.cb, w.a); }
    WorkOfStruct(s.h, s.line, s.k, s.orig[s.at], n, w.a);
    AtMark(s, w.a + s.h[w.a].n);
    AtMark(s, w.a);
    AllGood(s, w.a, s.h[w.a].n);
  }

  /** The structure is copied: the copy is shared. */
  lemma EndSharedStruct(s: LiveScan, n: nat, w: Cell) returns (t: LiveScan)
    requires s.at < |s.b| && Apart(s) && Chase(s.h, s.line, s.orig[s.at], n, w) && w.Str? && w.a >= s.line
    requires w.a in s.fw
    ensures t.b == s.b[s.at := Str(s.line + s.fw[w.a])] && t.m == s.m && Advances(s, t)
  {
    StructFound(s, n, w);
    NoHome(s, n, w);
    var f := Str(s.line + s.fw[w.a]);
    FinishKeepsInv(s, f, n, w);
    FinishAdvances(s, f, n, w);
    t := Finish(s, f, n, w);
  }

  lemma EndStruct(s: LiveScan, n: nat, w: Cell) returns (t: LiveScan)
    requires s.at < |s.b| && Apart(s) && Chase(s.h, s.line, s.orig[s.at], n, w) && w.Str? && w.a >= s.line
    requires w.a !in s.fw
    ensures w.a < |s.m| && s.m[w.a].IsFunctor() && w.a + s.m[w.a].n < |s.m| && Advances(s, t)
    ensures t.b == (s.b + s.m[w.a..w.a + s.m[w.a].n + 1])[s.at := Str(s.line + |s.b|)]
    ensures t.m == s.m[w.a := Ref(s.cb + |s.b|)]
  {
    StructFound(s, n, w);
    var u := StructCopied(s, w.a);
    var f := Str(s.line + |s.b|);
    assert u.orig[u.at] == s.orig[s.at] && u.b[u.at] == s.b[s.at];
    GrownAdvances(s, u, Block(s.h, w.a, s.h[w.a].n), f, n, w);
    NoHome(u, n, w);
    FinishKeepsInv(u, f, n, w);
    t := Finish(u, f, n, w);
  }

  lemma StructCopied(s: LiveScan, p: nat) returns (u: LiveScan)
    requires p >= s.line && p in s.h && s.h[p].IsFunctor() && p + s.h[p].n < |s.m| && p !in s.fw
    requires forall x :: p <= x <= p + s.h[p].n ==> x in s.h && Good(s.h, s.line, s.k, s.h[x])
    requires forall x :: p < x <= p + s.h[p].n ==> !s.h[x].IsFunctor()
    ensures Grown(s, u) && u.orig == s.orig + Block(s.h, p, s.h[p].n) && u.fw == s.fw[p := |s.b|]
    ensures u.b == s.b + s.m[p..p + s.h[p].n + 1] && u.m == s.m[p := Ref(s.cb + |s.b|)]
  {
    u := Extended(s, p, s.h[p].n);
    assert s.m[p] == MarkedCell(s, p) == u.b[|s.b|] && u.orig[|s.b|] == s.h[p];
    FreshCopy(s, |s.b|);
    u := MarkSet(u, p, |s.b|);
  }

  /** What is left bounds the copies made. */
  lemma Fits(s: Scan, t: Scan, room: nat)
    requires Advances(s, t) && s.at + Left(s) <= room
    ensures |t.b| <= room && t.at + Left(t) <= room
  {
  }

  /** A pair: share the copy if its tail is still to be scanned, otherwise copy it. */
  method ScanPair(mem: array<Cell>, buf: array<Cell>, scanp: nat, freep: nat, line: nat, cb: nat, p: nat,
                  ghost s: LiveScan, ghost n: nat) returns (freep': nat, ghost t: LiveScan)
    requires Holds(mem, buf, scanp, freep, s) && s.line == line && s.cb == cb && scanp < freep && p >= line
    requires Chase(s.h, s.line, s.orig[scanp], n, Lis(p))
    modifies mem, buf
    ensures Holds(mem, buf, t.at, freep', t) && Advances(s, t)
  {
    PairFound(s, n, Lis(p));
    var ax := mem[p + 1];
    freep' := freep;
    if ax.Ref? && cb <= ax.a < cb + freep && ax.a - cb > scanp {
      t := EndSharedPair(s, n, Lis(p));
      SetCell(mem, buf, scanp, freep, Lis(line + (ax.a - cb) - 1), s, t);
    } else {
      freep', t := CopyPair(mem, buf, scanp, freep, line, cb, p, s, n);
    }
  }

  method CopyPair(mem: array<Cell>, buf: array<Cell>, scanp: nat, freep: nat, line: nat, cb: nat, p: nat,
                  ghost s: LiveScan, ghost n: nat) returns (freep': nat, ghost t: LiveScan)
    requires Holds(mem, buf, scanp, freep, s) && s.line == line && s.cb == cb && scanp < freep && p >= line
    requires Chase(s.h, s.line, s.orig[scanp], n, Lis(p))
    modifies mem, buf
    ensures Holds(mem, buf, t.at, freep', t) && Advances(s, t)
  {
    PairFound(s, n, Lis(p));
    var ax := mem[p + 1];
    var mark := !(ax.Ref? && cb <= ax.a < cb + freep);
    assert mark <==> p + 1 !in s.fw;
    t := EndPair(s, n, Lis(p));
    Fits(s, t, buf.Length);
    ghost var m, b := mem[..], buf[..freep];
    assert m == s.m && b == s.b;
    MakePair(mem, buf, scanp, freep, line, cb, p, mark);
    freep' := freep + 2;
  }

  /** Copies the pair at p; marks its tail if told to. */
  method MakePair(mem: array<Cell>, buf: array<Cell>, scanp: nat, freep: nat, line: nat, cb: nat, p: nat, mark: bool)
    requires mem != buf && scanp < freep && freep + 1 < buf.Length && p + 1 < mem.Length
    modifies mem, buf
    ensures buf[..freep + 2] == old((buf[..freep] + [mem[p], mem[p + 1]])[scanp := Lis(line + freep)])
    ensures mem[..] == if mark then old(mem[..])[p + 1 := Ref(cb + (freep + 1))] else old(mem[..])
  {
    var ax := mem[p + 1];
    buf[scanp] := Lis(line + freep);
    buf[freep] := mem[p];
    if mark { mem[p + 1] := Ref(cb + (freep + 1)); }
    buf[freep + 1] := ax;
  }

  /** A structure: share its copy or make one. */
  method ScanStruct(mem: array<Cell>, buf: array<Cell>, scanp: nat, freep: nat, line: nat, cb: nat, p: nat,
                    ghost s: LiveScan, ghost n: nat) returns (freep': nat, ghost t: LiveScan)
    requires Holds(mem, buf, scanp, freep, s) && s.line == line && s.cb == cb && scanp < freep && p >= line
    requires Chase(s.h, s.line, s.orig[scanp], n, Str(p))
    modifies mem, buf
    ensures Holds(mem, buf, t.at, freep', t) && Advances(s, t)
  {
    StructFound(s, n, Str(p));
    var ax := mem[p];
    freep' := freep;
    if ax.Ref? && cb <= ax.a < cb + freep {
      t := EndSharedStruct(s, n, Str(p));
      SetCell(mem, buf, scanp, freep, Str(line + (ax.a - cb)), s, t);
    } else {
      freep', t := CopyStruct(mem, buf, scanp, freep, line, cb, p, s, n);
    }
  }

  method CopyStruct(mem: array<Cell>, buf: array<Cell>, scanp: nat, freep: nat, line: nat, cb: nat, p: nat,
                    ghost s: LiveScan, ghost n: nat) returns (freep': nat, ghost t: LiveScan)
    requires Holds(mem, buf, scanp, freep, s) && s.line == line && s.cb == cb && scanp < freep && p >= line
    requires Chase(s.h, s.line, s.orig[scanp], n, Str(p)) && p !in s.fw
    modifies mem, buf
    ensures Holds(mem, buf, t.at, freep', t) && Advances(s, t)
  {
    t := EndStruct(s, n, Str(p));
    Fits(s, t, buf.Length);
    var ax := mem[p];
    MakeStruct(mem, buf, scanp, freep, line, cb, p, ax.n);
    freep' := freep + 1 + ax.n;
  }

  /** Copies the structure at p, whose functor has n arguments, and marks it. */
  method MakeStruct(mem: array<Cell>, buf: array<Cell>, scanp: nat, freep: nat, line: nat, cb: nat, p: nat, n: nat)
    requires mem != buf && scanp < freep && freep + n < buf.Length && p + n < mem.Length
    modifies mem, buf
    ensures buf[..freep + 1 + n] == old((buf[..freep] + mem[p..p + n + 1])[scanp := Str(line + freep)])
    ensures mem[..] == old(mem[..])[p := Ref(cb + freep)]
  {
    var ax := mem[p];
    assert mem[p..p + n + 1] == [ax] + mem[p + 1..p + 1 + n];
    mem[p] := Ref(cb + freep);
    buf[scanp] := Str(line + freep);
    buf[freep] := ax;
    CopyCells(mem, buf, p + 1, freep + 1, n);
  }

  /** Copies n cells from p on to the free pointer. */
  method CopyCells(mem: array<Cell>, buf: array<Cell>, p: nat, freep: nat, n: nat)
    requires mem != buf && p + n <= mem.Length && freep + n <= buf.Length
    modifies buf
    ensures buf[..freep + n] == old(buf[..freep]) + mem[p..p + n]
  {
    var bx := 0;
    while bx < n
      invariant bx <= n && buf[..freep + bx] == old(buf[..freep]) + mem[p..p + bx]
    {
      buf[freep + bx] := mem[p + bx];
      bx := bx + 1;
    }
  }

  /** The scan: when it ends every copied cell has its final contents. */
  method ScanCopies(mem: array<Cell>, buf: array<Cell>, free: nat, line: nat, cb: nat, ghost s0: LiveScan)
    returns (freep: nat, ghost s: LiveScan)
    requires Holds(mem, buf, 0, free, s0) && s0.line == line && s0.cb == cb
    modifies mem, buf
    ensures Holds(mem, buf, freep, freep, s)
    ensures s.h == s0.h && s.k == s0.k && s.line == line && s.cb == cb && s0.orig <= s.orig && |s.m| == |s0.m|
    ensures freep <= Left(s0)
    ensures forall x :: 0 <= x < |s.m| && !(x in s.h && x >= s.line) ==> s.m[x] == s0.m[x]
  {
    var scanp := 0;
    freep, s := free, s0;
    while scanp < freep
      invariant Holds(mem, buf, scanp, freep, s) && scanp + Left(s) <= Left(s0)
      invariant s.h == s0.h && s.k == s0.k && s.line == line && s.cb == cb && s0.orig <= s.orig && |s.m| == |s0.m|
      invariant forall x :: 0 <= x < |s.m| && !(x in s.h && x >= s.line) ==> s.m[x] == s0.m[x]
      decreases Left(s)
    {
      var root;
      ghost var from, n, w;
      root, from, n, w := Shunt(mem, buf, scanp, freep, line, cb, s);
      if root.Ref? {
        s := Settle(mem, buf, scanp, freep, line, cb, root, s, from, n, w);
      } else if root.IsCst() || root.a < line {
        ghost var t := EndSame(s, n, root);
        SetCell(mem, buf, scanp, freep, root, s, t);
        s := t;
      } else if root.Lis? {
        freep, s := ScanPair(mem, buf, scanp, freep, line, cb, root.a, s, n);
      } else {
        freep, s := ScanStruct(mem, buf, scanp, freep, line, cb, root.a, s, n);
      }
      scanp := scanp + 1;
    }
  }
}
