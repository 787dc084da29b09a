// do_collection: arguments and trailed roots are copied, the copies are scanned, and everything moves back
// to the collecting line.
module Collector {
  import opened Terms
  import opened CollectorInvariant
  import opened CollectorMeaning
  import opened ScanLoop
  import opened TrailCount
  import opened TrailRoots

  /** The entries of the trail from its top to af. */
  ghost function Entered(m: seq<Cell>, tt: nat, af: nat): seq<Cell>
    requires tt <= af < |m|
  {
    m[tt + 1..af + 1]
  }

  /** A live cell below the line: a bound root, or one that refers to nothing collected. */
  ghost predicate OldCellOK(h: Heap, k: nat, line: nat, es: seq<Cell>, x: nat)
    requires x in h
  {
    if Ref(x) in es then
      h[x] != Ref(x) && Decode(h, h[x], k).Some? && NoStraddle(h, line, h[x])
    else
      Below(h, line, h[x]) && (h[x].Fvl? ==> Ref(x + 1) !in es && Ref(x + 2) !in es)
  }

  /** The i-th of the nl arguments on top of the stack. */
  function Argument(m: seq<Cell>, st: nat, nl: nat, i: nat): Cell
    requires i < nl <= st + 1 <= |m|
  {
    m[st + 1 - nl + i]
  }

  /** The nl cells on top of the stack. */
  ghost function TopCells(m: seq<Cell>, st: nat, nl: nat): (r: seq<Cell>)
    requires nl <= st + 1 <= |m|
    ensures |r| == nl
  {
    m[st + 1 - nl..st + 1]
  }

  ghost predicate ArgumentOK(h: Heap, k: nat, line: nat, m: seq<Cell>, st: nat, nl: nat, i: nat)
    requires i < nl <= st + 1 <= |m|
  {
    Decode(h, Argument(m, st, nl, i), k).Some? && NoStraddle(h, line, Argument(m, st, nl, i))
  }

  /** The block m may be collected above line: h are its live cells, all terms in question can be read to depth k. */
  ghost predicate Collectable(h: Heap, k: nat, m: seq<Cell>, line: nat, prevp: nat, cb: nat,
                              st: nat, nl: nat, tt: nat, af: nat) {
    && st < tt <= af < |m| <= cb && nl <= st + 1 && prevp <= line <= st + 1
    && line >= 1 && m[af] == Str(line - 1)
    && Entries(m, st, tt, af) && Distinct(m, line, tt, af)
    && Area(h, line, cb)
    && (forall x {:trigger x in h} :: x in h ==> x <= st && m[x] == h[x])
    && (forall x {:trigger OldCellOK(h, k, line, Entered(m, tt, af), x)} ::
          x in h && x < line ==> OldCellOK(h, k, line, Entered(m, tt, af), x))
    && (forall x: nat {:trigger Ref(x)} :: x < line && Ref(x) in Entered(m, tt, af) ==> x in h)
    && (forall i {:trigger ArgumentOK(h, k, line, m, st, nl, i)} :: 0 <= i < nl ==>
        ArgumentOK(h, k, line, m, st, nl, i))
  }

  /** The cells the copies can need at most: the unfolded sizes of all arguments and outer roots. */
  ghost function Demand(h: Heap, k: nat, m: seq<Cell>, line: nat, st: nat, nl: nat, tt: nat, af: nat): nat
    requires tt <= af < |m| && nl <= st + 1 <= |m|
  {
    Work(h, k, m[st + 1 - nl..st + 1]) + RootWork(h, k, line, Entered(m, tt, af))
  }

  /** When the trail is done, the entries examined are those it held. */
  lemma SeenAreEntered(t: LiveTrail)
    requires Counted(t) && t.top == t.sp
    ensures multiset(t.seen) == multiset(Entered(t.m0, t.tt, t.af))
    ensures forall e :: e in t.seen <==> e in Entered(t.m0, t.tt, t.af)
  {
    var es := Entered(t.m0, t.tt, t.af);
    forall e ensures multiset(t.seen)[e] == multiset(es)[e] {
      assert CountedCell(t, e);
      CountIsMultiplicity(t.seen, 0, |t.seen|, e);
      assert t.seen[0..|t.seen|] == t.seen;
      CountIsMultiplicity(t.m0, t.tt + 1, t.af + 1, e);
    }
    forall e ensures e in t.seen <==> e in es {
      assert e in t.seen <==> e in multiset(t.seen);
      assert e in es <==> e in multiset(es);
    }
  }

  /** vs are the cells of the roots rs. */
  ghost predicate RootCells(h: Heap, rs: seq<nat>, vs: seq<Cell>) {
    |vs| == |rs| && forall j {:trigger RootCell(h, rs, vs, j)} :: 0 <= j < |vs| ==> RootCell(h, rs, vs, j)
  }

  ghost predicate RootCell(h: Heap, rs: seq<nat>, vs: seq<Cell>, j: nat)
    requires j < |vs| == |rs|
  {
    rs[j] in h && vs[j] == h[rs[j]]
  }

  lemma {:induction false} WorkOfRoots(h: Heap, k: nat, line: nat, seen: seq<Cell>, vs: seq<Cell>)
    requires RootCells(h, Outer(seen, line), vs)
    ensures Work(h, k, vs) == RootWork(h, k, line, seen)
    decreases |seen|
  {
    if seen != [] {
      var n := |seen| - 1;
      var e := seen[n];
      assert seen == seen[..n] + [e];
      OuterAppend(seen[..n], e, line);
      RootWorkAppend(h, k, line, seen[..n], [e]);
      assert RootWork(h, k, line, [e]) == RootCost(h, k, line, e) + RootWork(h, k, line, [e][1..]);
      if IsOuter(e, line) {
        var m := |vs| - 1;
        var rs := Outer(seen[..n], line);
        RootCellsInit(h, rs, e.a, vs);
        WorkOfRoots(h, k, line, seen[..n], vs[..m]);
        assert vs == vs[..m] + [vs[m]];
        WorkAppend(h, k, vs[..m], [vs[m]]);
        assert Work(h, k, [vs[m]]) == CellSize(h, k, vs[m]) + Work(h, k, [vs[m]][1..]);
      } else {
        WorkOfRoots(h, k, line, seen[..n], vs);
      }
    }
  }

  lemma RootCellsInit(h: Heap, rs: seq<nat>, r: nat, vs: seq<Cell>)
    requires RootCells(h, rs + [r], vs)
    ensures RootCells(h, rs, vs[..|rs|]) && r in h && vs[|rs|] == h[r]
  {
    assert RootCell(h, rs + [r], vs, |rs|);
    var ws := vs[..|rs|];
    forall j | 0 <= j < |ws| ensures RootCell(h, rs, ws, j) { assert RootCell(h, rs + [r], vs, j); }
  }

  /** The scan that starts after the arguments and the outer roots have been copied. */
  ghost function Start(h: Heap, k: nat, cb: nat, t: Trail): Scan {
    Scan(h, k, t.line, cb, t.m, t.b, 0, t.b, map[], [], [])
  }

  ghost predicate Starts(h: Heap, k: nat, cb: nat, t: LiveTrail) {
    && Collectable(h, k, t.m0, t.line, t.prevp, cb, t.st, t.nl, t.tt, t.af)
    && Counted(t) && t.top == t.sp
    && t.b[..t.nl] == t.m0[t.st + 1 - t.nl..t.st + 1]
  }

  /** The j-th root copied. */
  lemma {:induction false} RootCopied(h: Heap, k: nat, cb: nat, t: LiveTrail, j: nat)
    requires Starts(h, k, cb, t) && j < |Outer(t.seen, t.line)|
    ensures var r := Outer(t.seen, t.line)[j];
            && r in h && r < t.line && Ref(r) in Entered(t.m0, t.tt, t.af)
            && t.nl + j < |t.b| && t.b[t.nl + j] == h[r] && t.m[r] == Ref(t.line + t.nl + j)
            && h[r] != Ref(r) && Good(h, t.line, k, h[r]) && !h[r].IsFunctor() && !h[r].Fvl?
  {
    var rs := Outer(t.seen, t.line);
    OuterMembers(t.seen, t.line);
    SeenAreEntered(t);
    assert rs[j] in rs && Ref(rs[j]) in Entered(t.m0, t.tt, t.af);
    assert RootAt(t.m0, t.m, t.b, t.line, t.nl, rs, j);
    assert OldCellOK(h, k, t.line, Entered(t.m0, t.tt, t.af), rs[j]);
  }

  lemma {:induction false} StartMarks(h: Heap, k: nat, cb: nat, t: LiveTrail, x: nat)
    requires Starts(h, k, cb, t) && x in h && x >= t.line
    ensures x < |t.m| && t.m[x] == h[x]
  {
    OuterMembers(t.seen, t.line);
    assert RootOrSame(t.m0, t.m, Outer(t.seen, t.line), x);
  }

  lemma {:induction false} StartArgument(h: Heap, k: nat, cb: nat, t: LiveTrail, c: nat)
    requires Starts(h, k, cb, t) && c < t.nl <= |t.b|
    ensures Good(h, t.line, k, t.b[c])
  {
    assert ArgumentOK(h, k, t.line, t.m0, t.st, t.nl, c);
    assert t.b[c] == t.b[..t.nl][c];
  }

  lemma {:induction false} StartGood(h: Heap, k: nat, cb: nat, t: LiveTrail, c: nat)
    requires Starts(h, k, cb, t) && c < |t.b|
    ensures GoodCell(Start(h, k, cb, t), c)
  {
    if c < t.nl { StartArgument(h, k, cb, t, c); } else { RootCopied(h, k, cb, t, c - t.nl); }
  }

  lemma {:induction false} StartLive(h: Heap, k: nat, cb: nat, t: LiveTrail) returns (s: LiveScan)
    requires Starts(h, k, cb, t)
    ensures s == Start(h, k, cb, t)
  {
    s := StartAll(h, k, cb, t);
  }

  lemma {:induction false} StartAll(h: Heap, k: nat, cb: nat, t: LiveTrail) returns (s: Scan)
    requires Starts(h, k, cb, t)
    ensures s == Start(h, k, cb, t) && Inv(s)
  {
    s := Start(h, k, cb, t);
    forall x | x in h && x >= t.line ensures x < |s.m| && s.m[x] == MarkedCell(s, x) { StartMarks(h, k, cb, t, x); }
    forall c | 0 <= c < |s.orig| ensures GoodCell(s, c) { StartGood(h, k, cb, t, c); }
    assert Marks(s) && Goods(s);
  }

  lemma {:induction false} StartLeft(h: Heap, k: nat, cb: nat, t: LiveTrail)
    requires Starts(h, k, cb, t)
    ensures Left(Start(h, k, cb, t)) == Demand(h, k, t.m0, t.line, t.st, t.nl, t.tt, t.af)
  {
    StartWork(h, k, cb, t);
    assert t.b[0..] == t.b;
    SeenAreEntered(t);
    RootWorkPermuted(h, k, t.line, t.seen, Entered(t.m0, t.tt, t.af));
  }

  /** The work is that of the arguments and of the roots examined. */
  lemma {:induction false} StartWork(h: Heap, k: nat, cb: nat, t: LiveTrail)
    requires Starts(h, k, cb, t)
    ensures t.nl <= |t.b| && Work(h, k, t.b) == Work(h, k, t.b[..t.nl]) + RootWork(h, k, t.line, t.seen)
  {
    var vs, rs := t.b[t.nl..], Outer(t.seen, t.line);
    assert t.b == t.b[..t.nl] + vs;
    WorkAppend(h, k, t.b[..t.nl], vs);
    forall j | 0 <= j < |vs| ensures RootCell(h, rs, vs, j) { RootCopied(h, k, cb, t, j); }
    WorkOfRoots(h, k, t.line, t.seen, vs);
  }

  /** The heap after the collection: the live cells below the line and the n copies from the line on. */
  ghost function NewHeap(h: Heap, line: nat, n: nat, m: seq<Cell>): Heap {
    map x | 0 <= x < |m| && ((x in h && x < line) || line <= x < line + n) :: m[x]
  }

  ghost function IndexIn(rs: seq<nat>, x: nat): (j: nat)
    requires x in rs
    ensures j < |rs| && rs[j] == x
  {
    if rs[0] == x then 0 else 1 + IndexIn(rs[1..], x)
  }

  /** Where the unbound variables of the collected area have gone. */
  ghost function Renaming(s: Scan): map<nat, nat> {
    map x | x in s.fw && Moved(s, x) :: s.line + s.fw[x]
  }

  /** The copy of each outer root. */
  ghost function RootMap(t: Trail): map<nat, nat> {
    map x | x in Outer(t.seen, t.line) :: t.nl + IndexIn(Outer(t.seen, t.line), x)
  }

  /** s is the scan that began after t, finished, and m the block with the copies moved back. */
  ghost predicate Finished(h: Heap, k: nat, cb: nat, t: LiveTrail, s: LiveScan, m: seq<Cell>) {
    && Starts(h, k, cb, t) && s.at == |s.b| && s.h == h && s.k == k && s.line == t.line && t.b <= s.orig
    && |s.m| == |m| == |t.m| && t.line + |s.b| <= |m|
    && (forall x {:trigger m[x]} :: 0 <= x < t.line ==> m[x] == t.m[x])
    && (forall x {:trigger m[x]} :: t.line <= x < t.line + |s.b| ==> m[x] == s.b[x - t.line])
  }

  /** A cell below the line that is no outer root is as it was, and refers below the line. */
  lemma NoRootKept(h: Heap, k: nat, cb: nat, t: LiveTrail, x: nat)
    requires Starts(h, k, cb, t) && x in h && x < t.line && x !in Outer(t.seen, t.line)
    ensures x < |t.m| && t.m[x] == h[x] && Below(h, t.line, h[x])
    ensures h[x].Fvl? ==> x + 1 !in Outer(t.seen, t.line) && x + 2 !in Outer(t.seen, t.line)
  {
    OuterMembers(t.seen, t.line);
    SeenAreEntered(t);
    assert RootOrSame(t.m0, t.m, Outer(t.seen, t.line), x);
    assert OldCellOK(h, k, t.line, Entered(t.m0, t.tt, t.af), x);
  }

  lemma OldCellMoved(h: Heap, k: nat, cb: nat, t: LiveTrail, s: LiveScan, m: seq<Cell>, x: nat)
    requires Finished(h, k, cb, t, s, m) && x in h && x < t.line
    ensures OldCell(Moving(h, t, s, m), x)
  {
    var rs := Outer(t.seen, t.line);
    if x in rs {
      RootMoved(h, k, cb, t, s, x);
    } else {
      NoRootKept(h, k, cb, t, x);
    }
  }

  /** An outer root refers to its copy. */
  lemma RootMoved(h: Heap, k: nat, cb: nat, t: LiveTrail, s: LiveScan, x: nat)
    requires Starts(h, k, cb, t) && t.b <= s.orig && x in Outer(t.seen, t.line)
    ensures x in RootMap(t) && RootMap(t)[x] < |s.b| == |s.orig| && x in h && s.orig[RootMap(t)[x]] == h[x]
    ensures x < |t.m| && t.m[x] == Ref(t.line + RootMap(t)[x])
    ensures !h[x].IsFunctor() && !h[x].Fvl? && h[x] != Ref(x)
  {
    var j := IndexIn(Outer(t.seen, t.line), x);
    RootCopied(h, k, cb, t, j);
    assert s.orig[t.nl + j] == t.b[t.nl + j];
  }

  ghost function Moving(h: Heap, t: Trail, s: Scan, m: seq<Cell>): Move {
    Move(s, RootMap(t), Renaming(s), NewHeap(h, t.line, |s.b|, m))
  }

  lemma MovingVars(h: Heap, t: Trail, s: LiveScan, m: seq<Cell>)
    ensures forall x {:trigger MovedTo(Moving(h, t, s, m), x)} :: Moved(s, x) ==> MovedTo(Moving(h, t, s, m), x)
    ensures forall x {:trigger x in Renaming(s)} :: x in Renaming(s) ==> x >= s.line
  {
    forall x | x in Renaming(s) ensures x >= s.line { assert ForwardOK(s, x); }
  }

  lemma MovingNew(h: Heap, k: nat, cb: nat, t: LiveTrail, s: LiveScan, m: seq<Cell>, c: nat)
    requires Finished(h, k, cb, t, s, m) && c < |s.b|
    ensures NewCell(Moving(h, t, s, m), c)
  {
    assert m[t.line + c] == s.b[c];
  }

  lemma MoveLive(h: Heap, k: nat, cb: nat, t: LiveTrail, s: LiveScan, m: seq<Cell>) returns (v: LiveMove)
    requires Finished(h, k, cb, t, s, m)
    ensures v == Moving(h, t, s, m)
  {
    MovingVars(h, t, s, m);
    MovingOld(h, k, cb, t, s, m);
    forall c | 0 <= c < |s.b| ensures NewCell(Moving(h, t, s, m), c) { MovingNew(h, k, cb, t, s, m, c); }
    v := Moving(h, t, s, m);
  }

  lemma MovingOld(h: Heap, k: nat, cb: nat, t: LiveTrail, s: LiveScan, m: seq<Cell>)
    requires Finished(h, k, cb, t, s, m)
    ensures forall x {:trigger OldCell(Moving(h, t, s, m), x)} :: x in h && x < t.line ==>
      OldCell(Moving(h, t, s, m), x)
  {
    forall x | x in h && x < t.line ensures OldCell(Moving(h, t, s, m), x) { OldCellMoved(h, k, cb, t, s, m, x); }
  }

  /** r renames the variables of the collected area injectively to new addresses from lo up to hi. */
  ghost predicate RenamesInto(r: map<nat, nat>, h: Heap, lo: nat, hi: nat) {
    && (forall x {:trigger r[x]} :: x in r ==> x in h && x >= lo && h[x] == Ref(x) && lo <= r[x] < hi)
    && (forall x, y {:trigger r[x], r[y]} :: x in r && y in r && x != y ==> r[x] != r[y])
  }

  lemma RenamingInjective(s: LiveScan)
    requires s.at == |s.b|
    ensures RenamesInto(Renaming(s), s.h, s.line, s.line + |s.b|)
  {
    var r := Renaming(s);
    forall x | x in r ensures x >= s.line && s.line <= r[x] < s.line + |s.b| { assert ForwardOK(s, x); }
    forall x, y | x in r && y in r && x != y ensures r[x] != r[y] { assert Moved(s, x) && Moved(s, y); }
  }

  /** Whatever refers below the line denotes the same term in both heaps, up to the renaming r. */
  ghost predicate OldKept(h: Heap, p: Heap, line: nat, r: map<nat, nat>) {
    forall c, u {:trigger Denotes(h, c, u)} :: Below(h, line, c) && Denotes(h, c, u) ==> Denotes(p, c, Rename(u, r))
  }

  /** So does each argument, old and new. */
  ghost predicate ArgumentsKept(h: Heap, p: Heap, r: map<nat, nat>, old0: seq<Cell>, new1: seq<Cell>) {
    && |old0| == |new1|
    && forall i, u {:trigger Denotes(h, old0[i], u)} ::
         0 <= i < |old0| && Denotes(h, old0[i], u) ==> Denotes(p, new1[i], Rename(u, r))
  }

  /** Nothing that was moved refers above top. */
  ghost predicate Compact(p: Heap, line: nat, top: nat) {
    forall x {:trigger p[x]} :: line <= x < top ==> x in p && Inside(p, line, top, p[x])
  }

  lemma Preserved(v: LiveMove, nl: nat)
    requires nl <= |v.s.b|
    ensures OldKept(v.s.h, v.p, v.s.line, v.r)
    ensures ArgumentsKept(v.s.h, v.p, v.r, v.s.orig[..nl], v.s.b[..nl])
    ensures Compact(v.p, v.s.line, v.s.line + |v.s.b|)
  {
    forall c, u | Below(v.s.h, v.s.line, c) && Denotes(v.s.h, c, u) ensures Denotes(v.p, c, Rename(u, v.r)) {
      var k :| Decode(v.s.h, c, k) == Some(u);
      var g := OldMeans(v, c, k);
    }
    var os, ns := v.s.orig[..nl], v.s.b[..nl];
    forall i, u | 0 <= i < nl && Denotes(v.s.h, os[i], u) ensures Denotes(v.p, ns[i], Rename(u, v.r)) {
      var k :| Decode(v.s.h, os[i], k) == Some(u);
      var g := CopyMeans(v, i, k);
    }
    forall x | v.s.line <= x < v.s.line + |v.s.b|
      ensures x in v.p && Inside(v.p, v.s.line, v.s.line + |v.s.b|, v.p[x])
    {
      assert NewCell(v, x - v.s.line);
      NoDeadSpace(v, x - v.s.line);
    }
  }

  /** The nl arguments go to the bottom of the copy block. */
  method CopyArguments(mem: array<Cell>, buf: array<Cell>, st: nat, nl: nat)
    requires mem != buf && nl <= st + 1 <= mem.Length && nl <= buf.Length
    modifies buf
    ensures buf[..nl] == mem[st + 1 - nl..st + 1]
  {
    var ax := 0;
    while ax < nl
      invariant ax <= nl && buf[..ax] == mem[st + 1 - nl..st + 1 - nl + ax]
    {
      buf[ax] := mem[st + 1 - nl + ax];
      ax := ax + 1;
    }
  }

  /** The block m with the cells b written from at on. */
  ghost function Written(m: seq<Cell>, at: nat, b: seq<Cell>): (r: seq<Cell>)
    requires at + |b| <= |m|
  {
    m[..at] + b + m[at + |b|..]
  }

  lemma WrittenTwice(m0: seq<Cell>, m1: seq<Cell>, m2: seq<Cell>, at: nat, b: seq<Cell>, nl: nat)
    requires nl <= |b| && at + |b| + nl <= |m0|
    requires m1 == Written(m0, at, b) && m2 == Written(m1, at + |b|, m1[at..at + nl])
    ensures m2 == Written(m0, at, b + b[..nl])
  {
    assert m1[at..at + nl] == b[..nl];
    assert m1[..at + |b|] == m0[..at] + b;
    assert m1[at + |b| + nl..] == m0[at + |b| + nl..];
  }

  /** The n copies go to the collecting line. */
  method MoveCopies(mem: array<Cell>, buf: array<Cell>, line: nat, n: nat)
    requires mem != buf && n <= buf.Length && line + n <= mem.Length
    modifies mem
    ensures mem[..] == Written(old(mem[..]), line, buf[..n])
  {
    var rp := 0;
    while rp < n
      invariant rp <= n
      invariant forall x {:trigger mem[x]} :: 0 <= x < line || line + rp <= x < mem.Length ==> mem[x] == old(mem[x])
      invariant forall x {:trigger mem[x]} :: line <= x < line + rp ==> mem[x] == buf[x - line]
    {
      mem[line + rp] := buf[rp];
      rp := rp + 1;
    }
  }

  /** The first nl cells from line on, the arguments, are mirrored at the new top. */
  method MirrorArguments(mem: array<Cell>, line: nat, top: nat, nl: nat)
    requires line + nl <= top && top + nl <= mem.Length
    modifies mem
    ensures mem[..] == Written(old(mem[..]), top, old(mem[..])[line..line + nl])
  {
    var rp := 0;
    while rp < nl
      invariant rp <= nl
      invariant forall x {:trigger mem[x]} :: 0 <= x < top || top + rp <= x < mem.Length ==> mem[x] == old(mem[x])
      invariant forall x {:trigger mem[x]} :: top <= x < top + rp ==> mem[x] == old(mem[line + (x - top)])
    {
      mem[top + rp] := mem[line + rp];
      rp := rp + 1;
    }
  }

  /** The n copies move back, and the arguments, the first nl of them, are mirrored on top. */
  method MoveBack(mem: array<Cell>, buf: array<Cell>, line: nat, n: nat, nl: nat)
    requires mem != buf && nl <= n <= buf.Length && line + n + nl <= mem.Length
    modifies mem
    ensures mem[..] == Written(old(mem[..]), line, buf[..n] + buf[..n][..nl])
  {
    ghost var m0, b := mem[..], buf[..n];
    MoveCopies(mem, buf, line, n);
    ghost var m1 := mem[..];
    MirrorArguments(mem, line, line + n, nl);
    WrittenTwice(m0, m1, mem[..], line, b, nl);
  }

  /** The stack after the collection: the copies p from the line on, then the nl arguments once more. */
  ghost predicate Stacked(m: seq<Cell>, h: Heap, p: Heap, line: nat, st: nat, nl: nat) {
    && line + 2 * nl <= st + 1 <= |m|
    && (forall x {:trigger p[x]} :: x in p ==> x < st + 1 - nl && p[x] == m[x] && (x < line ==> x in h))
    && m[st + 1 - nl..st + 1] == m[line..line + nl]
  }

  /** The trail after the collection: packed above its new top are the roots of the previous generation, in the
      order they were examined, and on top of them the new generation line.  Of the cells outside the collected
      area only the roots have changed, and refer to copies. */
  ghost predicate Trailed(m0: seq<Cell>, m: seq<Cell>, line: nat, prevp: nat, tt0: nat, tt: nat, af: nat, st: nat,
                          seen: seq<Cell>)
  {
    && tt0 <= tt < af < |m0| == |m| && multiset(seen) == multiset(Entered(m0, tt0, af))
    && m[tt + 1] == Str(st) && Packed(m, tt + 1, af, Kept(seen, prevp))
    && (forall x {:trigger m[x]} :: af < x < |m| ==> m[x] == m0[x])
    && (forall x: nat {:trigger m[x]} :: x < line <= |m| ==>
          if Ref(x) in seen then m[x].Ref? && line <= m[x].a <= st else m[x] == m0[x])
  }

  /** t and s are the two phases of a collection that left the block m, before the new generation line. */
  ghost predicate Phases(h: Heap, k: nat, cb: nat, t: LiveTrail, s: LiveScan, m: seq<Cell>) {
    && Finished(h, k, cb, t, s, m) && t.nl <= |s.b| <= Demand(h, k, t.m0, t.line, t.st, t.nl, t.tt, t.af)
    && t.line + Demand(h, k, t.m0, t.line, t.st, t.nl, t.tt, t.af) + t.nl <= t.tt
    && (forall x {:trigger m[x]} :: t.line + |s.b| <= x < t.line + |s.b| + t.nl ==> m[x] == s.b[x - t.line - |s.b|])
    && (forall x {:trigger m[x]} :: t.tt <= x < |m| ==> m[x] == t.m[x])
  }

  lemma {:induction false} PhasesStack(h: Heap, k: nat, cb: nat, t: LiveTrail, s: LiveScan, m: seq<Cell>, m': seq<Cell>,
                                       st: nat)
    requires Phases(h, k, cb, t, s, m) && st + 1 == t.line + |s.b| + t.nl
    requires |m'| == |m| && forall x {:trigger m'[x]} :: 0 <= x < t.tt ==> m'[x] == m[x]
    ensures Stacked(m', h, NewHeap(h, t.line, |s.b|, m), t.line, st, t.nl)
  {
    var top := t.line + |s.b|;
    SlicesAgree(m', top, t.line, t.nl, s.b);
  }

  lemma SlicesAgree(m: seq<Cell>, lo: nat, hi: nat, n: nat, b: seq<Cell>)
    requires lo + n <= |m| && hi + n <= |m| && n <= |b|
    requires forall x {:trigger m[x]} :: lo <= x < lo + n ==> m[x] == b[x - lo]
    requires forall x {:trigger m[x]} :: hi <= x < hi + n ==> m[x] == b[x - hi]
    ensures m[lo..lo + n] == m[hi..hi + n]
  {
    var a, a' := m[lo..lo + n], m[hi..hi + n];
    assert forall i {:trigger a[i]} :: 0 <= i < n ==> a[i] == a'[i];
  }

  /** One entry at least, the old generation line, has left the trail. */
  lemma LineDropped(h: Heap, k: nat, cb: nat, t: LiveTrail)
    requires Starts(h, k, cb, t) && t.tt < t.af
    ensures t.tt < t.top
  {
    SeenAreEntered(t);
    var es := Entered(t.m0, t.tt, t.af);
    assert t.m0[t.af] == es[t.af - t.tt - 1];
    assert t.m0[t.af] in t.seen && t.m0[t.af].Str?;
    KeptMembers(t.seen, t.prevp);
  }

  lemma {:induction false} PhasesTrail(h: Heap, k: nat, cb: nat, t: LiveTrail, s: LiveScan, m: seq<Cell>, m': seq<Cell>,
                                       st: nat)
    requires Phases(h, k, cb, t, s, m) && t.tt < t.top && m' == m[t.top := Str(st)] && st + 1 == t.line + |s.b| + t.nl
    ensures Trailed(t.m0, m', t.line, t.prevp, t.tt, t.top - 1, t.af, st, t.seen)
  {
    SeenAreEntered(t);
    OuterMembers(t.seen, t.line);
    var kept := Kept(t.seen, t.prevp);
    forall j | 0 <= j < |kept| ensures KeptAt(m', t.af, kept, j) { assert KeptAt(t.m, t.af, kept, j); }
    forall x | t.af < x < |m'| ensures m'[x] == t.m0[x] { assert Same(t.m0, t.m, x); }
    forall x: nat | x < t.line
      ensures if Ref(x) in t.seen then m'[x].Ref? && t.line <= m'[x].a <= st else m'[x] == t.m0[x]
    {
      assert RootOrSame(t.m0, t.m, Outer(t.seen, t.line), x);
      if Ref(x) in t.seen { RootMoved(h, k, cb, t, s, x); }
    }
  }

  /** What every term denoted before it denotes afterwards. */
  ghost predicate MeaningKept(h: Heap, p: Heap, r: map<nat, nat>, line: nat, top: nat, args0: seq<Cell>,
                              args: seq<Cell>) {
    && RenamesInto(r, h, line, top) && Compact(p, line, top)
    && OldKept(h, p, line, r) && ArgumentsKept(h, p, r, args0, args)
  }

  lemma MoveMeaning(v: LiveMove, nl: nat, args0: seq<Cell>, args: seq<Cell>)
    requires nl <= |v.s.b| && args0 == v.s.orig[..nl] && args == v.s.b[..nl]
    requires RenamesInto(v.r, v.s.h, v.s.line, v.s.line + |v.s.b|)
    ensures MeaningKept(v.s.h, v.p, v.r, v.s.line, v.s.line + |v.s.b|, args0, args)
  {
    Preserved(v, nl);
  }

  lemma SlicesMoved(b0: seq<Cell>, orig: seq<Cell>, b: seq<Cell>, m: seq<Cell>, top: nat, n: nat)
    requires n <= |b0| && n <= |b| && b0 <= orig && top + n <= |m|
    requires forall x {:trigger m[x]} :: top <= x < top + n ==> m[x] == b[x - top]
    ensures orig[..n] == b0[..n] && m[top..top + n] == b[..n]
  {
  }

  /** The arguments before, and their copies on top. */
  lemma {:induction false} ArgumentsMoved(h: Heap, k: nat, cb: nat, t: LiveTrail, s: LiveScan, m: seq<Cell>,
                                          m': seq<Cell>, st: nat)
    requires Phases(h, k, cb, t, s, m) && st + 1 == t.line + |s.b| + t.nl
    requires |m'| == |m| && forall x {:trigger m'[x]} :: 0 <= x < t.tt ==> m'[x] == m[x]
    ensures t.nl <= t.st + 1 <= |t.m0| && t.nl <= |s.orig| && t.nl <= |s.b| && t.nl <= st + 1 <= |m'|
    ensures TopCells(t.m0, t.st, t.nl) == s.orig[..t.nl] && TopCells(m', st, t.nl) == s.b[..t.nl]
  {
    SlicesMoved(t.b, s.orig, s.b, m', st + 1 - t.nl, t.nl);
  }

  lemma {:induction false} PhasesMeaning(h: Heap, k: nat, cb: nat, t: LiveTrail, s: LiveScan, m: seq<Cell>,
                                         m': seq<Cell>, st: nat)
    returns (p: Heap, r: map<nat, nat>)
    requires Phases(h, k, cb, t, s, m) && st + 1 == t.line + |s.b| + t.nl
    requires |m'| == |m| && forall x {:trigger m'[x]} :: 0 <= x < t.tt ==> m'[x] == m[x]
    requires t.nl <= t.st + 1 <= |t.m0| && t.nl <= st + 1 <= |m'|
    ensures p == NewHeap(h, t.line, |s.b|, m)
    ensures MeaningKept(h, p, r, t.line, st + 1 - t.nl, TopCells(t.m0, t.st, t.nl), TopCells(m', st, t.nl))
  {
    var v := MoveLive(h, k, cb, t, s, m);
    p, r := v.p, v.r;
    RenamingInjective(s);
    ArgumentsMoved(h, k, cb, t, s, m, m', st);
    MoveMeaning(v, t.nl, TopCells(t.m0, t.st, t.nl), TopCells(m', st, t.nl));
  }

  /** Arguments and outer roots go to the copy block. */
  method PhaseRoots(mem: array<Cell>, buf: array<Cell>, line: nat, prevp: nat, cb: nat, st: nat, nl: nat, tt: nat,
                    af: nat, ghost h: Heap, ghost k: nat)
    returns (top: nat, freep: nat, ghost t: LiveTrail)
    requires mem != buf && Collectable(h, k, mem[..], line, prevp, cb, st, nl, tt, af)
    requires Demand(h, k, mem[..], line, st, nl, tt, af) <= buf.Length
    modifies mem, buf
    ensures nl <= freep <= buf.Length && Starts(h, k, cb, t)
    ensures t == Trail(old(mem[..]), mem[..], buf[..freep], line, prevp, st, nl, tt, af, top, top, t.seen)
  {
    WorkAtLeast(h, k, line, Entered(mem[..], tt, af));
    CopyArguments(mem, buf, st, nl);
    ghost var args := buf[..nl];
    top, freep, t := CopyRoots(mem, buf, line, prevp, st, tt, af, nl);
    assert t.b[..nl] == args;
  }

  /** The copies are scanned and moved back. */
  method PhaseScan(mem: array<Cell>, buf: array<Cell>, line: nat, cb: nat, nl: nat, freep: nat,
                   ghost h: Heap, ghost k: nat, ghost t: LiveTrail)
    returns (n: nat, ghost s: LiveScan)
    requires mem != buf && Starts(h, k, cb, t) && t.line == line && t.nl == nl
    requires nl <= freep <= buf.Length && t.m == mem[..] && t.b == buf[..freep]
    requires Demand(h, k, t.m0, line, t.st, nl, t.tt, t.af) <= buf.Length
    requires line + Demand(h, k, t.m0, line, t.st, nl, t.tt, t.af) + nl <= t.tt
    modifies mem, buf
    ensures n == |s.b| && Phases(h, k, cb, t, s, mem[..])
  {
    ghost var s0 := StartLive(h, k, cb, t);
    StartLeft(h, k, cb, t);
    n, s := ScanCopies(mem, buf, freep, line, cb, s0);
    ScanRoom(s);
    MoveBack(mem, buf, line, n, nl);
    PhasesJoin(h, k, cb, t, s, mem[..]);
  }

  lemma ScanRoom(s: LiveScan)
    ensures |s.b| == |s.orig|
  {
  }

  lemma WrittenParts(m0: seq<Cell>, m: seq<Cell>, at: nat, b: seq<Cell>, n: nat)
    requires n <= |b| && at + |b| + n <= |m0| && m == Written(m0, at, b + b[..n])
    ensures |m| == |m0| && forall x {:trigger m[x]} :: 0 <= x < |m| ==>
      m[x] == if at <= x < at + |b| then b[x - at] else if at + |b| <= x < at + |b| + n then b[x - at - |b|] else m0[x]
  {
  }

  lemma {:induction false} PhasesJoin(h: Heap, k: nat, cb: nat, t: LiveTrail, s: LiveScan, m: seq<Cell>)
    requires Starts(h, k, cb, t) && s.at == |s.b| && s.h == h && s.k == k && s.line == t.line && t.b <= s.orig
    requires |s.m| == |m| == |t.m| && t.nl <= |s.b| <= Demand(h, k, t.m0, t.line, t.st, t.nl, t.tt, t.af)
    requires t.line + Demand(h, k, t.m0, t.line, t.st, t.nl, t.tt, t.af) + t.nl <= t.tt
    requires forall x :: 0 <= x < |s.m| && !(x in s.h && x >= s.line) ==> s.m[x] == t.m[x]
    requires m == Written(s.m, t.line, s.b + s.b[..t.nl])
    ensures Phases(h, k, cb, t, s, m)
  {
    WrittenParts(s.m, m, t.line, s.b, t.nl);
    forall x | 0 <= x < |m| && (x < t.line || t.tt <= x) ensures m[x] == t.m[x] { assert m[x] == s.m[x]; }
  }

  /** The block m with its registers is ready for a collection into a copy block of the given room: the unfolded
      sizes of all roots fit there, and fit below the trail together with the mirrored arguments. */
  ghost predicate Ready(h: Heap, k: nat, m: seq<Cell>, line: nat, prevp: nat, cb: nat,
                        st: nat, nl: nat, tt: nat, af: nat, room: nat) {
    && Collectable(h, k, m, line, prevp, cb, st, nl, tt, af) && tt < af
    && Demand(h, k, m, line, st, nl, tt, af) <= room
    && line + Demand(h, k, m, line, st, nl, tt, af) + nl <= tt
  }

  /** The collection turned the block m0 into m, with the stack top st1 and the trail top tt1; p are the live cells
      afterwards, r renames the variables that moved, and seen are the trail entries in the order of examination. */
  ghost predicate Collected(h: Heap, m0: seq<Cell>, m: seq<Cell>, line: nat, prevp: nat, st: nat, nl: nat, tt: nat,
                            af: nat, st1: nat, tt1: nat, p: Heap, r: map<nat, nat>, seen: seq<Cell>) {
    && Stacked(m, h, p, line, st1, nl) && st1 < tt1 && nl <= st + 1 <= |m0|
    && MeaningKept(h, p, r, line, st1 + 1 - nl, TopCells(m0, st, nl), TopCells(m, st1, nl))
    && Trailed(m0, m, line, prevp, tt, tt1, af, st1, seen)
  }

  lemma {:induction false} Concluded(h: Heap, k: nat, cb: nat, t: LiveTrail, s: LiveScan, m: seq<Cell>, m': seq<Cell>,
                                     st: nat)
    returns (p: Heap, r: map<nat, nat>)
    requires Phases(h, k, cb, t, s, m) && st + 1 == t.line + |s.b| + t.nl
    requires t.tt < t.top && m' == m[t.top := Str(st)]
    ensures Collected(h, t.m0, m', t.line, t.prevp, t.st, t.nl, t.tt, t.af, st, t.top - 1, p, r, t.seen)
  {
    p, r := PhasesMeaning(h, k, cb, t, s, m, m', st);
    PhasesStack(h, k, cb, t, s, m, m', st);
    PhasesTrail(h, k, cb, t, s, m, m', st);
  }

  /** The new generation line. */
  method Renew(mem: array<Cell>, top: nat, rp: nat, ghost h: Heap, ghost k: nat, ghost cb: nat, ghost t: LiveTrail,
               ghost s: LiveScan)
    returns (ghost p: Heap, ghost r: map<nat, nat>)
    requires Phases(h, k, cb, t, s, mem[..]) && t.tt < t.af && top == t.top && rp + 1 == t.line + |s.b| + t.nl
    modifies mem
    ensures top > 0 && Collected(h, t.m0, mem[..], t.line, t.prevp, t.st, t.nl, t.tt, t.af, rp, top - 1, p, r, t.seen)
  {
    ghost var m := mem[..];
    LineDropped(h, k, cb, t);
    mem[top] := Str(rp);
    p, r := Concluded(h, k, cb, t, s, m, mem[..], rp);
  }

  /** The copies are scanned and moved back, and the new generation line is set: the new stack top. */
  method Finish(mem: array<Cell>, buf: array<Cell>, top: nat, line: nat, cb: nat, nl: nat, freep: nat,
                ghost h: Heap, ghost k: nat, ghost t: LiveTrail)
    returns (rp: nat, ghost p: Heap, ghost r: map<nat, nat>)
    requires mem != buf && Starts(h, k, cb, t) && t.line == line && t.nl == nl && t.top == top && t.tt < t.af
    requires nl <= freep <= buf.Length && t.m == mem[..] && t.b == buf[..freep]
    requires Demand(h, k, t.m0, line, t.st, nl, t.tt, t.af) <= buf.Length
    requires line + Demand(h, k, t.m0, line, t.st, nl, t.tt, t.af) + nl <= t.tt
    modifies mem, buf
    ensures top > 0 && Collected(h, t.m0, mem[..], line, t.prevp, t.st, nl, t.tt, t.af, rp, top - 1, p, r, t.seen)
  {
    var n;
    ghost var s;
    n, s := PhaseScan(mem, buf, line, cb, nl, freep, h, k, t);
    rp := line + n + nl - 1;
    p, r := Renew(mem, top, rp, h, k, cb, t, s);
  }

  /** The collection: the new stack top, the new top of the trail, and what the block means now. */
  method Collect(mem: array<Cell>, buf: array<Cell>, line: nat, prevp: nat, cb: nat, st: nat, nl: nat, tt: nat, af: nat,
                 ghost h: Heap, ghost k: nat)
    returns (rp: nat, top: nat, ghost p: Heap, ghost r: map<nat, nat>, ghost seen: seq<Cell>)
    requires mem != buf && Ready(h, k, mem[..], line, prevp, cb, st, nl, tt, af, buf.Length)
    modifies mem, buf
    ensures Collected(h, old(mem[..]), mem[..], line, prevp, st, nl, tt, af, rp, top, p, r, seen)
  {
    var freep;
    ghost var t;
    top, freep, t := PhaseRoots(mem, buf, line, prevp, cb, st, nl, tt, af, h, k);
    rp, p, r := Finish(mem, buf, top, line, cb, nl, freep, h, k, t);
    top, seen := top - 1, t.seen;
  }

  /** Roots from the line on are passed over before they are compared with prevp. */
  function Bound(prevp: nat, line: nat): nat {
    if prevp <= line then prevp else line
  }

  /** Between the new generation line, in the slot tt + 1, and the bottom af of the root stack, there are on the trail
      of m exactly the cells that were on the trail of m0, are below prevp and not above the old line g. */
  ghost predicate RootsKept(m0: seq<Cell>, m: seq<Cell>, g: nat, prevp: nat, tt0: nat, tt: nat, af: nat) {
    && tt0 <= af < |m0| && tt < af < |m|
    && forall x: nat {:trigger Ref(x)} ::
        Ref(x) in m[tt + 2..af + 1] <==> x < prevp && x <= g && Ref(x) in m0[tt0 + 1..af + 1]
  }

  /** Of the trail entries that are cells, those below prevp and below the line are left under the new line. */
  lemma RootsLeft(m0: seq<Cell>, m: seq<Cell>, line: nat, prevp: nat, tt0: nat, tt: nat, af: nat, st: nat,
                  seen: seq<Cell>)
    requires Trailed(m0, m, line, Bound(prevp, line), tt0, tt, af, st, seen)
    requires line > 0
    ensures RootsKept(m0, m, line - 1, prevp, tt0, tt, af)
  {
    forall x: nat {:trigger Ref(x)} | true
      ensures Ref(x) in m[tt + 2..af + 1] <==> x < prevp && x < line && Ref(x) in m0[tt0 + 1..af + 1]
    {
      RootLeft(m0, m, line, Bound(prevp, line), tt0, tt, af, st, seen, x);
    }
  }

  lemma RootLeft(m0: seq<Cell>, m: seq<Cell>, line: nat, prevp: nat, tt0: nat, tt: nat, af: nat, st: nat,
                 seen: seq<Cell>, x: nat)
    requires Trailed(m0, m, line, prevp, tt0, tt, af, st, seen)
    ensures Ref(x) in m[tt + 2..af + 1] <==> x < prevp && Ref(x) in m0[tt0 + 1..af + 1]
  {
    var kept, es := Kept(seen, prevp), m[tt + 2..af + 1];
    KeptMembers(seen, prevp);
    assert Ref(x) in seen <==> Ref(x) in multiset(seen);
    assert Ref(x) in Entered(m0, tt0, af) <==> Ref(x) in multiset(Entered(m0, tt0, af));
    if Ref(x) in es {
      var i :| 0 <= i < |es| && es[i] == Ref(x);
      assert KeptAt(m, af, kept, af - tt - 2 - i) && kept[af - tt - 2 - i] in kept;
    }
    if Ref(x) in kept {
      var j :| 0 <= j < |kept| && kept[j] == Ref(x);
      assert KeptAt(m, af, kept, j) && es[af - j - tt - 2] == Ref(x);
    }
  }

  /** The control block of an imago, as far as the collector uses it.  mem runs from stack_base to block_ceiling. */
  class Icb {
    var mem: array<Cell>
    var st: nat           // stack top
    var tt: nat           // next free slot of the trail, which grows downwards
    var gl: nat           // generation line
    var af: nat           // bottom of the root stack: the slot of the generation line to collect from
    var nl: nat           // number of arguments on top of the stack
    var collections: nat

    /** The new stack top, which is the new generation line, and the new top of the trail. */
    method Install(rp: nat, top: nat)
      modifies `gl, `st, `tt, `collections
      ensures gl == st == rp && tt == top && collections == old(collections) + 1
    {
      gl, st, tt := rp, rp, top;
      collections := collections + 1;
    }

    /** Collects the area above the generation line at af.  h are the live cells, readable to depth k; prevp bounds
        the roots to be retained, and cb is the address of the copy block buf.  p are the live cells afterwards,
        r renames the variables that moved, and seen are the trail entries in the order they were examined. */
    method DoCollection(buf: array<Cell>, cb: nat, prevp: nat, ghost h: Heap, ghost k: nat)
      returns (ghost p: Heap, ghost r: map<nat, nat>, ghost seen: seq<Cell>)
      requires mem != buf && af < mem.Length && mem[af].Str?
      requires Ready(h, k, mem[..], mem[af].a + 1, Bound(prevp, mem[af].a + 1), cb, st, nl, tt, af, buf.Length)
      modifies this, mem, buf
      ensures mem == old(mem) && nl == old(nl) && af == old(af) && collections == old(collections) + 1 && gl == st
      ensures Collected(h, old(mem[..]), mem[..], old(mem[af].a) + 1, Bound(prevp, old(mem[af].a) + 1), old(st), nl,
                        old(tt), af, st, tt, p, r, seen)
      ensures RootsKept(old(mem[..]), mem[..], old(mem[af].a), prevp, old(tt), tt, af)
    {
      ghost var m0 := mem[..];
      var line, rp, top := mem[af].a + 1, 0, 0;
      var bound := Bound(prevp, line);
      rp, top, p, r, seen := Collect(mem, buf, line, bound, cb, st, nl, tt, af, h, k);
      ghost var m, st0, tt0 := mem[..], st, tt;
      RootsLeft(m0, m, line, prevp, tt0, top, af, rp, seen);
      Install(rp, top);
      assert Collected(h, m0, m, line, bound, st0, nl, tt0, af, st, tt, p, r, seen);
    }
  }
}
