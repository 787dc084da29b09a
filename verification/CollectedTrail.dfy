// The trail after a collection, as the remembered set for the collections to come.
module CollectedTrail {
  import opened Terms
  import opened ChoiceState
  import opened CollectorInvariant
  import opened CollectorMeaning
  import opened TrailRoots
  import opened Collector

  /** For the generation line in slot i of the trail: of the live cells h that are not above the line, those that refer
      above it are on the trail above i. */
  ghost predicate Remembers(m: seq<Cell>, h: Heap, tt: nat, i: nat) {
    && i < |m| && m[i].Str?
    && forall x: nat {:trigger RemembersCell(m, tt, i, m[i].a, x)} :: x in h && x <= m[i].a ==>
        RemembersCell(m, tt, i, m[i].a, x)
  }

  ghost predicate RemembersCell(m: seq<Cell>, tt: nat, i: nat, g: nat, x: nat) {
    x < |m| && !m[x].IsCst() && m[x].a > g ==> InTrail(m, tt, i, x)
  }

  /** The trail keeps what the line in slot i needs: each root that is not above the line is kept, being below prevp, or
      on the trail below af as well. */
  ghost predicate RootsRetained(m: seq<Cell>, prevp: nat, tt: nat, af: nat, i: nat)
    requires tt <= af < i < |m| && m[i].Str?
  {
    forall x: nat {:trigger Ref(x)} :: x <= m[i].a && Ref(x) in Entered(m, tt, af) ==> x < prevp || InTrail(m, af, i, x)
  }

  /** An older generation line has all it needs after a collection with prevp if and only if its roots are retained:
      Icb.DoCollection leaves the blocks m0 and m so. */
  lemma OlderLines(h: Heap, k: nat, m0: seq<Cell>, m: seq<Cell>, line: nat, prevp: nat, cb: nat, st: nat, nl: nat,
                   tt: nat, af: nat, st1: nat, tt1: nat, p: Heap, r: map<nat, nat>, seen: seq<Cell>, i: nat)
    requires Collectable(h, k, m0, line, Bound(prevp, line), cb, st, nl, tt, af)
    requires Collected(h, m0, m, line, Bound(prevp, line), st, nl, tt, af, st1, tt1, p, r, seen)
    requires af < i < |m0| && m0[i].Str? && m0[i].a < line && Remembers(m0, h, tt, i)
    ensures Remembers(m, h, tt1, i) <==> RootsRetained(m0, prevp, tt, af, i)
  {
    var b := Bound(prevp, line);
    SeenMembers(m0, m, line, b, tt, tt1, af, st1, seen);
    if RootsRetained(m0, prevp, tt, af, i) {
      assert RootsRetained(m0, b, tt, af, i);
      forall x: nat | x in h && x <= m[i].a ensures RemembersCell(m, tt1, i, m[i].a, x) {
        assert RemembersCell(m0, tt, i, m0[i].a, x);
        StillRemembered(m0, m, line, b, tt, tt1, af, st1, seen, i, x);
      }
    }
    if Remembers(m, h, tt1, i) {
      forall x: nat | x <= m0[i].a && Ref(x) in Entered(m0, tt, af) ensures x < prevp || InTrail(m0, af, i, x) {
        assert x in h && RemembersCell(m, tt1, i, m[i].a, x);
        WasRetained(m0, m, line, b, tt, tt1, af, st1, seen, i, x);
      }
    }
  }

  lemma SeenMembers(m0: seq<Cell>, m: seq<Cell>, line: nat, prevp: nat, tt: nat, tt1: nat, af: nat, st1: nat,
                    seen: seq<Cell>)
    requires Trailed(m0, m, line, prevp, tt, tt1, af, st1, seen)
    ensures forall e :: e in seen <==> e in Entered(m0, tt, af)
    ensures forall e :: e in TrailRoots.Kept(seen, prevp) <==> e in seen && IsOuter(e, prevp)
  {
    KeptMembers(seen, prevp);
    forall e ensures e in seen <==> e in Entered(m0, tt, af) {
      assert e in seen <==> e in multiset(seen);
      assert e in Entered(m0, tt, af) <==> e in multiset(Entered(m0, tt, af));
    }
  }

  lemma StillRemembered(m0: seq<Cell>, m: seq<Cell>, line: nat, prevp: nat, tt: nat, tt1: nat, af: nat, st1: nat,
                        seen: seq<Cell>, i: nat, x: nat)
    requires Trailed(m0, m, line, prevp, tt, tt1, af, st1, seen) && line <= |m| && af < i < |m| && m0[i].Str?
    requires x <= m0[i].a < line
    requires RootsRetained(m0, prevp, tt, af, i) && RemembersCell(m0, tt, i, m0[i].a, x)
    ensures RemembersCell(m, tt1, i, m[i].a, x)
  {
    SeenMembers(m0, m, line, prevp, tt, tt1, af, st1, seen);
    if Ref(x) in seen {
      if x < prevp {
        var kept := TrailRoots.Kept(seen, prevp);
        var j :| 0 <= j < |kept| && kept[j] == Ref(x);
        assert KeptAt(m, af, kept, j);
        assert m[af - j] == Ref(x);
      } else {
        var j :| af < j <= i && j < |m0| && m0[j] == Ref(x);
        assert m[j] == Ref(x);
      }
    } else if InTrail(m0, tt, i, x) {
      var j :| tt < j <= i && j < |m0| && m0[j] == Ref(x);
      assert m[j] == Ref(x);
    }
  }

  lemma WasRetained(m0: seq<Cell>, m: seq<Cell>, line: nat, prevp: nat, tt: nat, tt1: nat, af: nat, st1: nat,
                    seen: seq<Cell>, i: nat, x: nat)
    requires Trailed(m0, m, line, prevp, tt, tt1, af, st1, seen) && line <= |m| && af < i < |m| && m0[i].Str?
    requires x <= m0[i].a < line
    requires Ref(x) in Entered(m0, tt, af) && RemembersCell(m, tt1, i, m[i].a, x)
    ensures x < prevp || InTrail(m0, af, i, x)
  {
    SeenMembers(m0, m, line, prevp, tt, tt1, af, st1, seen);
    var j :| tt1 < j <= i && j < |m| && m[j] == Ref(x);
    if j > af {
      assert m0[j] == Ref(x);
    } else {
      var kept := TrailRoots.Kept(seen, prevp);
      assert KeptAt(m, af, kept, af - j);
      assert kept[af - j] in kept;
    }
  }

  /** The new generation line needs nothing on the trail: no live cell refers above it. */
  lemma NewLine(h: Heap, k: nat, m0: seq<Cell>, m: seq<Cell>, line: nat, prevp: nat, cb: nat, st: nat, nl: nat, tt: nat,
                af: nat, st1: nat, tt1: nat, p: Heap, r: map<nat, nat>, seen: seq<Cell>)
    requires Collectable(h, k, m0, line, prevp, cb, st, nl, tt, af)
    requires Collected(h, m0, m, line, prevp, st, nl, tt, af, st1, tt1, p, r, seen)
    ensures m[tt1 + 1] == Str(st1)
    ensures forall x {:trigger p[x]} :: x in p ==> p[x].IsCst() || p[x].a <= st1
    ensures Remembers(m, p, tt1, tt1 + 1)
  {
    SeenMembers(m0, m, line, prevp, tt, tt1, af, st1, seen);
    forall x | x in p ensures p[x].IsCst() || p[x].a <= st1 {
      if x < line {
        if Ref(x) !in seen { assert OldCellOK(h, k, line, Entered(m0, tt, af), x); }
      } else {
        assert Inside(p, line, st1 + 1 - nl, p[x]);
      }
    }
    forall x: nat | x in p && x <= st1 ensures RemembersCell(m, tt1, tt1 + 1, st1, x) { assert p[x] == m[x]; }
  }

  /** The choice frame f, of which the trail top when it was made lies at or below af, can be resumed: each cell below
      it holds what it held then, or the trail says that it was unbound; and the trail says so of no other cell. */
  ghost predicate Resumable(m: seq<Cell>, tt: nat, f: Frame) {
    && |f.snap| <= |m| && f.tt < |m|
    && (forall x: nat {:trigger ResumableAt(m, tt, f, x)} :: ResumableAt(m, tt, f, x))
    && forall i {:trigger m[i]} :: tt < i <= f.tt && m[i].Ref? && m[i].a < |f.snap| ==>
        f.snap[m[i].a] == m[i] || m[i].a in f.stored
  }

  ghost predicate ResumableAt(m: seq<Cell>, tt: nat, f: Frame, x: nat) {
    x < |f.snap| && x < |m| ==> ChoiceState.Kept(m, tt, f, x)
  }

  /** So it is with every choice point of the engine that has not been cut. */
  lemma LivePoints(s: Live, k: nat)
    requires k < |s.frames|
    ensures Resumable(s.m, s.tt, s.frames[k])
  {
    var f := s.frames[k];
    assert FrameOK(s, k);
    FrameBelow(s, k);
    forall x: nat ensures ResumableAt(s.m, s.tt, f, x) { assert CellKept(s, k, x); }
    forall i | s.tt < i <= f.tt && s.m[i].Ref? && s.m[i].a < |f.snap|
      ensures f.snap[s.m[i].a] == s.m[i] || s.m[i].a in f.stored
    {
      assert SlotSound(s, k, i);
    }
  }

  /** The trail keeps what f needs. */
  ghost predicate PointRetained(m: seq<Cell>, prevp: nat, tt: nat, af: nat, f: Frame)
    requires tt <= af < |m|
  {
    forall x: nat {:trigger Ref(x)} :: x < |f.snap| && x !in f.stored && Ref(x) in Entered(m, tt, af) ==>
      x < prevp || InTrail(m, af, f.tt, x)
  }

  lemma TrailAfter(m0: seq<Cell>, m: seq<Cell>, line: nat, prevp: nat, tt: nat, tt1: nat, af: nat, st1: nat,
                   seen: seq<Cell>, top: nat, x: nat)
    requires Trailed(m0, m, line, prevp, tt, tt1, af, st1, seen) && af <= top < |m|
    ensures InTrail(m, tt1, top, x) <==> (Ref(x) in seen && x < prevp) || InTrail(m0, af, top, x)
  {
    SeenMembers(m0, m, line, prevp, tt, tt1, af, st1, seen);
    var kept := TrailRoots.Kept(seen, prevp);
    if InTrail(m, tt1, top, x) {
      var j :| tt1 < j <= top && j < |m| && m[j] == Ref(x);
      if j > af { assert m0[j] == Ref(x); } else { assert KeptAt(m, af, kept, af - j) && kept[af - j] in kept; }
    }
    if Ref(x) in seen && x < prevp {
      var j :| 0 <= j < |kept| && kept[j] == Ref(x);
      assert KeptAt(m, af, kept, j) && m[af - j] == Ref(x);
    }
    if InTrail(m0, af, top, x) {
      var j :| af < j <= top && j < |m0| && m0[j] == Ref(x);
      assert m[j] == Ref(x);
    }
  }

  /** And an older choice point can be resumed after it if and only if its roots are retained. */
  lemma OlderPoints(m0: seq<Cell>, m: seq<Cell>, line: nat, prevp: nat, tt: nat, tt1: nat, af: nat, st1: nat,
                    seen: seq<Cell>, f: Frame)
    requires Trailed(m0, m, line, Bound(prevp, line), tt, tt1, af, st1, seen) && line <= |m|
    requires af <= f.tt && |f.snap| <= line && Resumable(m0, tt, f)
    ensures Resumable(m, tt1, f) <==> PointRetained(m0, prevp, tt, af, f)
  {
    var b := Bound(prevp, line);
    SeenMembers(m0, m, line, b, tt, tt1, af, st1, seen);
    forall x: nat | x < |f.snap|
      ensures ResumableAt(m, tt1, f, x) <==>
        Ref(x) in seen && x !in f.stored ==> x < prevp || InTrail(m0, af, f.tt, x)
    {
      CellAfter(m0, m, line, b, tt, tt1, af, st1, seen, f, x);
    }
    forall i | tt1 < i <= f.tt && m[i].Ref? && m[i].a < |f.snap| ensures f.snap[m[i].a] == m[i] || m[i].a in f.stored {
      EntryAfter(m0, m, line, b, tt, tt1, af, st1, seen, f, i);
    }
    if Resumable(m, tt1, f) {
      forall x: nat | x < |f.snap| && x !in f.stored && Ref(x) in Entered(m0, tt, af)
        ensures x < prevp || InTrail(m0, af, f.tt, x)
      {
        assert ResumableAt(m, tt1, f, x);
      }
    }
  }

  lemma EntryAfter(m0: seq<Cell>, m: seq<Cell>, line: nat, prevp: nat, tt: nat, tt1: nat, af: nat, st1: nat,
                   seen: seq<Cell>, f: Frame, i: nat)
    requires Trailed(m0, m, line, prevp, tt, tt1, af, st1, seen) && af <= f.tt && Resumable(m0, tt, f)
    requires tt1 < i <= f.tt && m[i].Ref? && m[i].a < |f.snap|
    ensures f.snap[m[i].a] == m[i] || m[i].a in f.stored
  {
    SeenMembers(m0, m, line, prevp, tt, tt1, af, st1, seen);
    if i > af {
      assert m0[i] == m[i];
    } else {
      var kept := TrailRoots.Kept(seen, prevp);
      assert KeptAt(m, af, kept, af - i) && kept[af - i] in kept;
      var j :| 0 <= j < |Entered(m0, tt, af)| && Entered(m0, tt, af)[j] == m[i];
      assert m0[tt + 1 + j] == m[i];
    }
  }

  lemma NotEntered(m: seq<Cell>, tt: nat, af: nat, top: nat, x: nat)
    requires tt <= af <= top < |m| && Ref(x) !in Entered(m, tt, af)
    ensures InTrail(m, tt, top, x) <==> InTrail(m, af, top, x)
  {
    if InTrail(m, tt, top, x) {
      var i :| tt < i <= top && m[i] == Ref(x);
      assert forall j {:trigger m[j]} :: tt < j <= af ==> m[j] == Entered(m, tt, af)[j - tt - 1];
      assert i > af;
    }
  }

  lemma CellAfter(m0: seq<Cell>, m: seq<Cell>, line: nat, prevp: nat, tt: nat, tt1: nat, af: nat, st1: nat,
                  seen: seq<Cell>, f: Frame, x: nat)
    requires Trailed(m0, m, line, prevp, tt, tt1, af, st1, seen) && line <= |m|
    requires af <= f.tt && |f.snap| <= line && Resumable(m0, tt, f) && x < |f.snap|
    ensures ResumableAt(m, tt1, f, x) <==>
      Ref(x) in seen && x !in f.stored ==> x < prevp || InTrail(m0, af, f.tt, x)
  {
    SeenMembers(m0, m, line, prevp, tt, tt1, af, st1, seen);
    TrailAfter(m0, m, line, prevp, tt, tt1, af, st1, seen, f.tt, x);
    assert ResumableAt(m0, tt, f, x);
    if Ref(x) in seen {
      var j :| 0 <= j < |Entered(m0, tt, af)| && Entered(m0, tt, af)[j] == Ref(x);
      assert m0[tt + 1 + j] == Ref(x);
    } else {
      NotEntered(m0, tt, af, f.tt, x);
    }
  }
}
