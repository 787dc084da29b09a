// The trail as a remembered set: for every generation line on it, what the collector takes for granted.  A live cell
// that is not above the line and refers above it has an entry on the trail above that of the line.
module RememberedSet {
  import opened Terms
  import opened ChoiceState

  ghost predicate RefersAbove(c: Cell, g: nat) {
    !c.IsCst() && c.a > g
  }

  /** The entry i of the trail, if it is a generation line, and the live cell x. */
  ghost predicate RememberedAt(s: Machine, live: set<nat>, i: nat, x: nat) {
    s.tt < i < |s.m| && s.m[i].Str? && x in live && x < |s.m| && x <= s.m[i].a && RefersAbove(s.m[x], s.m[i].a) ==>
      InTrail(s.m, s.tt, i, x)
  }

  /** A generation line is not above the present one, nor above that of an older choice frame; those made since a choice
      frame are not below it. */
  ghost predicate LineOK(s: Machine, i: nat) {
    s.tt < i < |s.m| && s.m[i].Str? ==>
      && s.m[i].a <= s.gl
      && forall k {:trigger s.frames[k]} :: 0 <= k < |s.frames| ==>
           if i > s.frames[k].tt then s.m[i].a <= s.frames[k].gl else s.m[i].a >= s.frames[k].at
  }

  /** A live cell lies on the stack but in no choice frame, and refers to live cells. */
  ghost predicate LiveCell(s: Machine, live: set<nat>, x: nat) {
    x in live ==>
      && x <= s.st && x < |s.m| && (!s.m[x].IsCst() ==> s.m[x].a in live)
      && forall k {:trigger s.frames[k]} :: 0 <= k < |s.frames| ==> !(s.frames[k].at - 6 <= x <= s.frames[k].at)
  }

  /** The generation line of a choice frame is on the trail, and its arguments are live. */
  ghost predicate FrameLine(s: Machine, live: set<nat>, k: nat) {
    k < |s.frames| ==>
      && s.tt < s.frames[k].tt < |s.m| && s.m[s.frames[k].tt] == Str(s.frames[k].at)
      && (k > 0 ==> s.frames[k].tt < s.frames[k - 1].tt)
      && ArgumentsLive(s.frames[k], live)
  }

  ghost predicate ArgumentsLive(f: Frame, live: set<nat>) {
    forall x: nat {:trigger x in live} :: f.at - 6 - f.n <= x < f.at - 6 ==> x in live
  }

  ghost predicate Remembering(s: Machine, live: set<nat>) {
    && (forall i: nat, x: nat {:trigger RememberedAt(s, live, i, x)} :: RememberedAt(s, live, i, x))
    && (forall i: nat {:trigger LineOK(s, i)} :: LineOK(s, i))
    && (forall x: nat {:trigger LiveCell(s, live, x)} :: LiveCell(s, live, x))
    && (forall k: nat {:trigger FrameLine(s, live, k)} :: FrameLine(s, live, k))
  }

  /** What the collector finds: of the live cells up to a generation line, those that are not on the trail between its
      top and the line's entry refer to nothing above the line. */
  lemma NothingMissed(s: Live, live: set<nat>, i: nat, x: nat)
    requires Remembering(s, live) && s.tt < i < |s.m| && s.m[i].Str? && x in live && x <= s.m[i].a
    ensures x < |s.m| && (Ref(x) in s.m[s.tt + 1..i + 1] || !RefersAbove(s.m[x], s.m[i].a))
  {
    assert LiveCell(s, live, x) && RememberedAt(s, live, i, x);
    if InTrail(s.m, s.tt, i, x) {
      var j :| s.tt < j <= i && j < |s.m| && s.m[j] == Ref(x);
      assert s.m[s.tt + 1..i + 1][j - s.tt - 1] == Ref(x);
    }
  }

  /** The live variable x has been bound to v, and trailed if it had to be. */
  ghost predicate Bound(s: Machine, t: Machine, x: nat, v: Cell) {
    && x < s.tt < |s.m|
    && t == if MustTrail(x, v, s.gl, s.bb) then s.(m := s.m[x := v][s.tt := Ref(x)], tt := s.tt - 1)
            else s.(m := s.m[x := v])
  }

  lemma BoundAt(s: Live, live: set<nat>, t: Live, x: nat, v: Cell, i: nat, y: nat)
    requires Remembering(s, live) && Bound(s, t, x, v)
    ensures RememberedAt(t, live, i, y)
  {
    assert RememberedAt(s, live, i, y) && LineOK(s, i);
    if t.tt < i < |t.m| && t.m[i].Str? && y in live && y < |t.m| && y <= t.m[i].a && RefersAbove(t.m[y], t.m[i].a) {
      assert LiveCell(s, live, y);
      if y == x {
        assert t.m[s.tt] == Ref(x);
      } else {
        var j :| s.tt < j <= i && j < |s.m| && s.m[j] == Ref(y);
        assert t.m[j] == Ref(y);
      }
    }
  }

  /** Binding keeps the remembered set, whichever way it is trailed. */
  lemma BindRemembers(s: Live, live: set<nat>, t: Live, x: nat, v: Cell)
    requires Remembering(s, live) && Bound(s, t, x, v) && x in live && x <= s.st && (!v.IsCst() ==> v.a in live)
    ensures Remembering(t, live)
  {
    forall i: nat, y: nat ensures RememberedAt(t, live, i, y) { BoundAt(s, live, t, x, v, i, y); }
    forall i: nat ensures LineOK(t, i) { assert LineOK(s, i); }
    forall y: nat ensures LiveCell(t, live, y) { assert LiveCell(s, live, y); }
    forall k: nat ensures FrameLine(t, live, k) { assert FrameLine(s, live, k); }
  }

  /** A cell is pushed. */
  lemma PutRemembers(s: Live, live: set<nat>, t: Live, v: Cell)
    requires Remembering(s, live) && s.st + 1 < s.tt && t == s.(m := s.m[s.st + 1 := v], st := s.st + 1)
    requires !v.IsCst() ==> v.a in live + {t.st}
    ensures Remembering(t, live + {t.st})
  {
    forall i: nat, y: nat ensures RememberedAt(t, live + {t.st}, i, y) { PutAt(s, live, t, v, i, y); }
    forall i: nat ensures LineOK(t, i) { assert LineOK(s, i); }
    forall y: nat ensures LiveCell(t, live + {t.st}, y) {
      assert LiveCell(s, live, y);
      forall k | 0 <= k < |s.frames| ensures s.frames[k].at <= s.st { FrameBelow(s, k); }
    }
    forall k: nat ensures FrameLine(t, live + {t.st}, k) { assert FrameLine(s, live, k); }
  }

  lemma PutAt(s: Live, live: set<nat>, t: Live, v: Cell, i: nat, y: nat)
    requires Remembering(s, live) && s.st + 1 < s.tt && t == s.(m := s.m[s.st + 1 := v], st := s.st + 1)
    ensures RememberedAt(t, live + {t.st}, i, y)
  {
    assert RememberedAt(s, live, i, y) && LineOK(s, i);
    if s.tt < i < |s.m| && s.m[i].Str? && y in live && InTrail(s.m, s.tt, i, y) {
      var j :| s.tt < j <= i && j < |s.m| && s.m[j] == Ref(y);
      assert t.m[j] == Ref(y);
    }
    assert y in live ==> LiveCell(s, live, y);
  }

  /** The cell x and what it is to refer to lie on one side of every generation line. */
  ghost predicate OneSided(s: Machine, x: nat, v: Cell) {
    forall i {:trigger s.m[i]} :: s.tt < i < |s.m| && s.m[i].Str? && x <= s.m[i].a ==> !RefersAbove(v, s.m[i].a)
  }

  /** A cell of an environment is stored into. */
  lemma StoreRemembers(s: Live, live: set<nat>, t: Live, x: nat, v: Cell)
    requires Remembering(s, live) && x <= s.st && Clear(s.frames, |s.frames|, x) && OneSided(s, x, v)
    requires t == s.(m := s.m[x := v], frames := StoredTo(s.frames, x)) && (!v.IsCst() ==> v.a in live + {x})
    ensures Remembering(t, live + {x})
  {
    forall i: nat, y: nat ensures RememberedAt(t, live + {x}, i, y) { StoreAt(s, live, t, x, v, i, y); }
    forall i: nat ensures LineOK(t, i) { assert LineOK(s, i); }
    forall y: nat ensures LiveCell(t, live + {x}, y) {
      assert LiveCell(s, live, y);
      forall k | 0 <= k < |s.frames| ensures !(s.frames[k].at - 6 <= x <= s.frames[k].at) {
        assert !IsField(s.frames, k, x);
      }
    }
    forall k: nat ensures FrameLine(t, live + {x}, k) { assert FrameLine(s, live, k); }
  }

  lemma StoreAt(s: Live, live: set<nat>, t: Live, x: nat, v: Cell, i: nat, y: nat)
    requires Remembering(s, live) && x <= s.st && OneSided(s, x, v)
    requires t == s.(m := s.m[x := v], frames := StoredTo(s.frames, x))
    ensures RememberedAt(t, live + {x}, i, y)
  {
    assert RememberedAt(s, live, i, y);
    if y != x && s.tt < i < |s.m| && InTrail(s.m, s.tt, i, y) {
      var j :| s.tt < j <= i && j < |s.m| && s.m[j] == Ref(y);
      assert t.m[j] == Ref(y);
    }
  }

  /** A choice frame f has been made on top of the stack, and its generation line. */
  ghost predicate Tried(s: Machine, t: Machine, f: Frame) {
    && f.at == s.st + CHOICE_SIZE && s.st < s.tt < |s.m| == |t.m| && f.tt == s.tt && f.gl == s.gl
    && t == Machine(t.m, f.at, s.tt - 1, f.at, f.at, s.frames + [f])
    && t.m[..s.st + 1] == s.m[..s.st + 1] && t.m[s.tt] == Str(f.at) && t.m[s.tt + 1..] == s.m[s.tt + 1..]
  }

  lemma TriedCells(s: Live, t: Live, f: Frame, x: nat)
    requires Tried(s, t, f) && x < |s.m| && (x <= s.st || x > s.tt)
    ensures t.m[x] == s.m[x]
  {
    if x <= s.st {
      assert t.m[..s.st + 1][x] == s.m[..s.st + 1][x];
    } else {
      assert t.m[s.tt + 1..][x - s.tt - 1] == s.m[s.tt + 1..][x - s.tt - 1];
    }
  }

  lemma TryAt(s: Live, live: set<nat>, t: Live, f: Frame, i: nat, y: nat)
    requires Remembering(s, live) && Tried(s, t, f)
    ensures RememberedAt(t, live, i, y)
  {
    assert RememberedAt(s, live, i, y) && LiveCell(s, live, y);
    if y in live {
      TriedCells(s, t, f, y);
      if !s.m[y].IsCst() { assert LiveCell(s, live, s.m[y].a); }
      if s.tt < i < |s.m| {
        TriedCells(s, t, f, i);
        if InTrail(s.m, s.tt, i, y) {
          var j :| s.tt < j <= i && j < |s.m| && s.m[j] == Ref(y);
          TriedCells(s, t, f, j);
          assert t.m[j] == Ref(y);
        }
      }
    }
  }

  lemma TryLine(s: Live, live: set<nat>, t: Live, f: Frame, i: nat)
    requires Remembering(s, live) && Tried(s, t, f)
    ensures LineOK(t, i)
  {
    assert LineOK(s, i);
    if s.tt < i < |s.m| { TriedCells(s, t, f, i); }
    forall k | 0 <= k < |s.frames|
      ensures s.tt < s.frames[k].tt && s.frames[k].at <= s.st && t.frames[k] == s.frames[k]
    {
      assert FrameLine(s, live, k);
      FrameBelow(s, k);
    }
  }

  lemma TryFrame(s: Live, live: set<nat>, t: Live, f: Frame, k: nat)
    requires Remembering(s, live) && Tried(s, t, f) && ArgumentsLive(f, live)
    ensures FrameLine(t, live, k)
  {
    assert FrameLine(s, live, k);
    if k < |s.frames| { TriedCells(s, t, f, s.frames[k].tt); }
    if k > 0 { assert FrameLine(s, live, k - 1); }
  }

  /** TRY, without the arguments, which are pushed again. */
  lemma TryRemembers(s: Live, live: set<nat>, t: Live, f: Frame)
    requires Remembering(s, live) && Tried(s, t, f) && ArgumentsLive(f, live)
    ensures Remembering(t, live)
  {
    forall i: nat, y: nat ensures RememberedAt(t, live, i, y) { TryAt(s, live, t, f, i, y); }
    forall i: nat ensures LineOK(t, i) { TryLine(s, live, t, f, i); }
    forall y: nat ensures LiveCell(t, live, y) {
      assert LiveCell(s, live, y);
      if y in live { TriedCells(s, t, f, y); }
    }
    forall k: nat ensures FrameLine(t, live, k) { TryFrame(s, live, t, f, k); }
  }

  /** The newest frame f has been resumed: the trail is unwound, and the caller's continuation restored. */
  ghost predicate Unwinding(s: Machine, m: seq<Cell>, f: Frame) {
    && s.frames != [] && f == s.frames[|s.frames| - 1] && 1 <= f.cf <= f.at - 6 && 6 <= f.at <= |m| == |s.m|
    && s.tt <= f.tt < |s.m|
    && m[f.cf - 1].Int?
    && (forall x {:trigger m[x]} :: 0 <= x < f.at - 6 && x != f.cf - 1 ==> m[x] == Unwound(s.m, s.tt, f.tt, x))
    && (forall x {:trigger m[x]} :: f.tt < x < |m| ==> m[x] == s.m[x])
  }

  /** The live cells below the frame at b. */
  ghost function Below(live: set<nat>, b: nat): (r: set<nat>)
    ensures forall x: nat {:trigger x in r} :: x in r <==> x in live && x < b
  {
    set x | x in live && x < b
  }

  /** What is live below the frame lies below its fields, and refers to no cell above them. */
  lemma UnwoundLive(s: Live, live: set<nat>, m: seq<Cell>, f: Frame, y: nat)
    requires Remembering(s, live) && Unwinding(s, m, f) && y in live && y < f.at
    ensures y < f.at - 6 && (!m[y].IsCst() ==> m[y].a in live && m[y].a < f.at - 6)
  {
    var n := |s.frames| - 1;
    assert LiveCell(s, live, y) && FrameLine(s, live, n) && RememberedAt(s, live, f.tt, y);
    if y != f.cf - 1 && !m[y].IsCst() {
      if !InTrail(s.m, s.tt, f.tt, y) { assert LiveCell(s, live, s.m[y].a); }
    }
  }

  /** Generation lines older than the frame still have all they need on the trail. */
  lemma UnwoundAt(s: Live, live: set<nat>, m: seq<Cell>, f: Frame, i: nat, y: nat)
    requires Remembering(s, live) && Unwinding(s, m, f) && y in live && y < f.at - 6
    requires f.tt < i < |m| && m[i].Str? && y <= m[i].a && RefersAbove(m[y], m[i].a)
    ensures InTrail(m, f.tt, i, y)
  {
    assert RememberedAt(s, live, i, y);
    assert m[i] == s.m[i] && y != f.cf - 1;
    if InTrail(s.m, s.tt, f.tt, y) {
    } else {
      var j :| s.tt < j <= i && j < |s.m| && s.m[j] == Ref(y);
      assert j > f.tt && m[j] == Ref(y);
    }
  }

  /** RETRY, without the arguments: the frame has its next alternative, and its generation line is on the trail again.
      */
  ghost predicate RetriedTo(s: Machine, t: Machine, f: Frame, alt: int) {
    && Unwinding(s, t.m, f) && 0 < f.tt && t.m[f.tt] == Str(f.at)
    && t == Machine(t.m, f.at, f.tt - 1, f.at, f.at, s.frames[..|s.frames| - 1] + [f.(alt := alt)])
  }

  lemma RetryAt(s: Live, live: set<nat>, t: Live, f: Frame, alt: int, i: nat, y: nat)
    requires Remembering(s, live) && RetriedTo(s, t, f, alt)
    ensures RememberedAt(t, Below(live, f.at), i, y)
  {
    if y in live && y < f.at {
      UnwoundLive(s, live, t.m, f, y);
      if f.tt < i < |t.m| && t.m[i].Str? && y <= t.m[i].a && RefersAbove(t.m[y], t.m[i].a) {
        UnwoundAt(s, live, t.m, f, i, y);
        var j :| f.tt < j <= i && j < |t.m| && t.m[j] == Ref(y);
      }
    }
  }

  lemma RetryLine(s: Live, live: set<nat>, t: Live, f: Frame, alt: int, i: nat)
    requires Remembering(s, live) && RetriedTo(s, t, f, alt)
    ensures LineOK(t, i)
  {
    var n := |s.frames| - 1;
    assert LineOK(s, i) && FrameOK(s, n) && FrameLine(s, live, n);
    forall k | 0 <= k < n ensures t.frames[k] == s.frames[k] && f.tt < s.frames[k].tt && s.frames[k].at <= f.at {
      FramesOrdered(s, k, n);
      LinesOrdered(s, live, k, n);
    }
  }

  lemma {:induction false} LinesOrdered(s: Live, live: set<nat>, k: nat, n: nat)
    requires Remembering(s, live) && k < n < |s.frames|
    ensures s.frames[n].tt < s.frames[k].tt
  {
    assert FrameLine(s, live, n);
    if k < n - 1 { LinesOrdered(s, live, k, n - 1); }
  }

  lemma RetryFrame(s: Live, live: set<nat>, t: Live, f: Frame, alt: int, k: nat)
    requires Remembering(s, live) && RetriedTo(s, t, f, alt)
    ensures FrameLine(t, Below(live, f.at), k)
  {
    var n := |s.frames| - 1;
    assert FrameLine(s, live, k);
    if k < n { LinesOrdered(s, live, k, n); FramesOrdered(s, k, n); }
    if 0 < k <= n { assert t.frames[k - 1] == s.frames[k - 1]; }
  }

  lemma RetryRemembers(s: Live, live: set<nat>, t: Live, f: Frame, alt: int)
    requires Remembering(s, live) && RetriedTo(s, t, f, alt)
    ensures Remembering(t, Below(live, f.at))
  {
    var below := Below(live, f.at);
    forall i: nat, y: nat ensures RememberedAt(t, below, i, y) { RetryAt(s, live, t, f, alt, i, y); }
    forall i: nat ensures LineOK(t, i) { RetryLine(s, live, t, f, alt, i); }
    forall y: nat ensures LiveCell(t, below, y) {
      assert LiveCell(s, live, y);
      if y in below { UnwoundLive(s, live, t.m, f, y); }
    }
    forall k: nat ensures FrameLine(t, below, k) { RetryFrame(s, live, t, f, alt, k); }
  }

  /** TRUST. */
  ghost predicate TrustedTo(s: Machine, t: Machine, f: Frame) {
    && Unwinding(s, t.m, f) && f.at >= CHOICE_SIZE
    && t == Machine(t.m, f.at - CHOICE_SIZE, f.tt, f.prev, f.gl, s.frames[..|s.frames| - 1])
  }

  lemma TrustAt(s: Live, live: set<nat>, t: Live, f: Frame, i: nat, y: nat)
    requires Remembering(s, live) && TrustedTo(s, t, f)
    ensures RememberedAt(t, Below(live, f.at), i, y)
  {
    if y in live && y < f.at {
      UnwoundLive(s, live, t.m, f, y);
      if f.tt < i < |t.m| && t.m[i].Str? && y <= t.m[i].a && RefersAbove(t.m[y], t.m[i].a) {
        UnwoundAt(s, live, t.m, f, i, y);
      }
    }
  }

  lemma TrustRemembers(s: Live, live: set<nat>, t: Live, f: Frame)
    requires Remembering(s, live) && TrustedTo(s, t, f)
    ensures Remembering(t, Below(live, f.at))
  {
    var below, n := Below(live, f.at), |s.frames| - 1;
    forall i: nat, y: nat ensures RememberedAt(t, below, i, y) { TrustAt(s, live, t, f, i, y); }
    forall i: nat ensures LineOK(t, i) { assert LineOK(s, i) && s.frames[n] == f; }
    forall y: nat ensures LiveCell(t, below, y) {
      assert LiveCell(s, live, y);
      if y in below { UnwoundLive(s, live, t.m, f, y); }
    }
    forall k: nat ensures FrameLine(t, below, k) {
      assert FrameLine(s, live, k);
      if k < n { LinesOrdered(s, live, k, n); FramesOrdered(s, k, n); }
    }
  }

  /** NECKCUT: the trail since the newest frame has been filtered. */
  ghost predicate NeckCutTo(s: Machine, t: Machine, j: nat) {
    && j < |s.frames| && var f := s.frames[|s.frames| - 1];
    && Filtered(s.m, t.m, s.tt, t.tt, f.tt, f.gl)
    && t == Machine(t.m, s.st, t.tt, Before(s.frames, j), f.gl, s.frames[..j])
  }

  /** Lines below that of the newest frame are older. */
  lemma NotAmongNewer(s: Live, live: set<nat>, e: Cell)
    requires Remembering(s, live) && s.frames != [] && e.Str? && e.a < s.frames[|s.frames| - 1].gl
    ensures !Among(s.m, s.tt, s.frames[|s.frames| - 1].tt, e)
  {
    var n := |s.frames| - 1;
    assert FrameOK(s, n);
    forall i | s.tt < i <= s.frames[n].tt && i < |s.m| ensures s.m[i] != e { assert LineOK(s, i); }
  }

  /** No generation line made since the frame survives the filter. */
  lemma CutLine(s: Live, live: set<nat>, t: Live, j: nat, i: nat)
    requires Remembering(s, live) && NeckCutTo(s, t, j) && t.tt < i < |t.m| && t.m[i].Str?
    ensures i > s.frames[|s.frames| - 1].tt && s.m[i] == t.m[i]
  {
    var n := |s.frames| - 1;
    var f := s.frames[n];
    assert FrameOK(s, n);
    if NotAbove(t.m[i], f.gl) { NotAmongNewer(s, live, t.m[i]); }
  }

  lemma CutAt(s: Live, live: set<nat>, t: Live, j: nat, i: nat, y: nat)
    requires Remembering(s, live) && NeckCutTo(s, t, j)
    ensures RememberedAt(t, live, i, y)
  {
    var f := s.frames[|s.frames| - 1];
    assert LiveCell(s, live, y) && RememberedAt(s, live, i, y) && LineOK(s, i) && FrameOK(s, |s.frames| - 1);
    if t.tt < i < |t.m| && t.m[i].Str? && y in live && y <= t.m[i].a {
      CutLine(s, live, t, j, i);
      assert s.frames[|s.frames| - 1] == f;
      if InTrail(s.m, s.tt, i, y) { FilteredTrail(s.m, t.m, s.tt, t.tt, f.tt, f.gl, i, y); }
    }
  }

  lemma NeckCutRemembers(s: Live, live: set<nat>, t: Live, j: nat)
    requires Remembering(s, live) && NeckCutTo(s, t, j)
    ensures Remembering(t, live)
  {
    var n := |s.frames| - 1;
    forall i: nat, y: nat ensures RememberedAt(t, live, i, y) { CutAt(s, live, t, j, i, y); }
    forall i: nat ensures LineOK(t, i) {
      if t.tt < i < |t.m| && t.m[i].Str? { CutLine(s, live, t, j, i); assert LineOK(s, i) && s.frames[n].gl == t.gl; }
    }
    forall y: nat ensures LiveCell(t, live, y) { assert LiveCell(s, live, y) && FrameOK(s, n); FrameBelow(s, n); }
    forall k: nat ensures FrameLine(t, live, k) {
      assert FrameLine(s, live, k);
      if k < j { LinesOrdered(s, live, k, n); }
    }
  }

  /** DEEPCUT. */
  lemma DeepCutRemembers(s: Live, live: set<nat>, t: Live, j: nat)
    requires Remembering(s, live) && j <= |s.frames| && t == s.(frames := s.frames[..j], bb := Before(s.frames, j))
    ensures Remembering(t, live)
  {
    forall i: nat, y: nat ensures RememberedAt(t, live, i, y) { assert RememberedAt(s, live, i, y); }
    forall i: nat ensures LineOK(t, i) { assert LineOK(s, i); }
    forall y: nat ensures LiveCell(t, live, y) { assert LiveCell(s, live, y); }
    forall k: nat ensures FrameLine(t, live, k) { assert FrameLine(s, live, k); }
  }

  /** GETFLOAT trails as if a float were a constant: the variable x, bound to a float above all generation lines, goes
      on the trail below the choice point only. */
  ghost predicate FloatBound(s: Machine, t: Machine, x: nat, v: Cell) {
    && x < s.tt < |s.m| && v.Str? && v.a > s.gl
    && t == if x < s.bb then s.(m := s.m[x := v][s.tt := Ref(x)], tt := s.tt - 1) else s.(m := s.m[x := v])
  }

  /** No generation line lies above x but those that x is on the trail for anyway. */
  ghost predicate Covered(s: Machine, x: nat) {
    forall i {:trigger s.m[i]} :: s.tt < i < |s.m| && s.m[i].Str? && x <= s.m[i].a ==> InTrail(s.m, s.tt, i, x)
  }

  /** Then the remembered set is kept if and only if x lies below the choice point, or is covered, as it is when it lies
      above the present generation line. */
  lemma FloatRemembersExactly(s: Live, live: set<nat>, t: Live, x: nat, v: Cell)
    requires Remembering(s, live) && FloatBound(s, t, x, v) && x in live && s.m[x] == Ref(x) && v.a in live
    ensures Remembering(t, live) <==> x < s.bb || Covered(s, x)
    ensures x > s.gl ==> Covered(s, x)
  {
    forall i | s.tt < i < |s.m| && s.m[i].Str? ensures s.m[i].a <= s.gl { assert LineOK(s, i); }
    if x < s.bb {
      BindRemembers(s, live, t, x, v);
    } else if Covered(s, x) {
      forall i: nat, y: nat ensures RememberedAt(t, live, i, y) { FloatAt(s, live, t, x, v, i, y); }
      forall i: nat ensures LineOK(t, i) { assert LineOK(s, i); }
      forall y: nat ensures LiveCell(t, live, y) { assert LiveCell(s, live, y); }
      forall k: nat ensures FrameLine(t, live, k) { assert FrameLine(s, live, k); }
    } else {
      var i :| s.tt < i < |s.m| && s.m[i].Str? && x <= s.m[i].a && !InTrail(s.m, s.tt, i, x);
      FloatForgotten(s, live, t, x, v, i);
    }
  }

  lemma FloatAt(s: Live, live: set<nat>, t: Live, x: nat, v: Cell, i: nat, y: nat)
    requires Remembering(s, live) && FloatBound(s, t, x, v) && x >= s.bb && Covered(s, x) && s.m[x] == Ref(x)
    ensures RememberedAt(t, live, i, y)
  {
    assert RememberedAt(s, live, i, y);
    if s.tt < i < |s.m| && t.m[i].Str? && y in live && y < |s.m| && y <= t.m[i].a && InTrail(s.m, s.tt, i, y) {
      var j :| s.tt < j <= i && j < |s.m| && s.m[j] == Ref(y);
      assert t.m[j] == Ref(y);
    }
  }

  lemma FloatForgotten(s: Live, live: set<nat>, t: Live, x: nat, v: Cell, i: nat)
    requires Remembering(s, live) && FloatBound(s, t, x, v) && x in live && x >= s.bb
    requires s.tt < i < |s.m| && s.m[i].Str? && x <= s.m[i].a && !InTrail(s.m, s.tt, i, x)
    ensures !Remembering(t, live)
  {
    assert LineOK(s, i);
    assert forall j {:trigger t.m[j]} :: t.tt < j <= i && t.m[j] == Ref(x) ==> s.m[j] == Ref(x);
    assert !RememberedAt(t, live, i, x);
  }

  /** SETFLOAT: the cell x refers to a float above all generation lines, and is on the trail if it is not above them. */
  ghost predicate FloatStored(s: Machine, t: Machine, x: nat, v: Cell) {
    && x < s.tt < |s.m|
    && if x <= s.gl then t == s.(m := s.m[x := v][s.tt := Ref(x)], frames := StoredTo(s.frames, x), tt := s.tt - 1)
       else t == s.(m := s.m[x := v], frames := StoredTo(s.frames, x))
  }

  lemma FloatStoreAt(s: Live, live: set<nat>, t: Live, x: nat, v: Cell, i: nat, y: nat)
    requires Remembering(s, live) && FloatStored(s, t, x, v)
    ensures RememberedAt(t, live + {x}, i, y)
  {
    assert RememberedAt(s, live, i, y) && LineOK(s, i);
    if s.tt < i < |s.m| && t.m[i].Str? && y in live + {x}
       && y < |s.m| && y <= t.m[i].a && RefersAbove(t.m[y], t.m[i].a) {
      if y == x {
        assert t.m[s.tt] == Ref(x);
      } else {
        var j :| s.tt < j <= i && j < |s.m| && s.m[j] == Ref(y);
        assert t.m[j] == Ref(y);
      }
    }
  }

  lemma FloatStoreRemembers(s: Live, live: set<nat>, t: Live, x: nat, v: Cell)
    requires Remembering(s, live) && FloatStored(s, t, x, v) && x <= s.st && Clear(s.frames, |s.frames|, x)
    requires !v.IsCst() ==> v.a in live
    ensures Remembering(t, live + {x})
  {
    forall i: nat, y: nat ensures RememberedAt(t, live + {x}, i, y) { FloatStoreAt(s, live, t, x, v, i, y); }
    forall i: nat ensures LineOK(t, i) { assert LineOK(s, i); }
    forall y: nat ensures LiveCell(t, live + {x}, y) {
      assert LiveCell(s, live, y);
      forall k | 0 <= k < |s.frames| ensures !(s.frames[k].at - 6 <= x <= s.frames[k].at) {
        assert !IsField(s.frames, k, x);
      }
    }
    forall k: nat ensures FrameLine(t, live + {x}, k) { assert FrameLine(s, live, k); }
  }

  /** The cells from lo up to hi. */
  ghost function Cells(lo: nat, hi: nat): (r: set<nat>)
    ensures forall x: nat {:trigger x in r} :: x in r <==> lo <= x < hi
  {
    set x: nat | lo <= x < hi && Between(lo, x, hi)
  }

  ghost predicate Between(lo: nat, x: nat, hi: nat) {
    lo <= x < hi
  }

  /** Cells that were there already become the top of the stack. */
  lemma RaiseRemembers(s: Live, live: set<nat>, t: Live)
    requires Remembering(s, live) && s.st <= t.st && t == s.(st := t.st)
    requires forall x {:trigger s.m[x]} :: s.st < x <= t.st && !s.m[x].IsCst() ==> s.m[x].a in live
    ensures Remembering(t, live + Cells(s.st + 1, t.st + 1))
  {
    var more := live + Cells(s.st + 1, t.st + 1);
    forall i: nat, y: nat ensures RememberedAt(t, more, i, y) { assert RememberedAt(s, live, i, y) && LineOK(s, i); }
    forall i: nat ensures LineOK(t, i) { assert LineOK(s, i); }
    forall y: nat ensures LiveCell(t, more, y) {
      assert LiveCell(s, live, y);
      forall k | 0 <= k < |s.frames| ensures s.frames[k].at <= s.st { FrameBelow(s, k); }
    }
    forall k: nat ensures FrameLine(t, more, k) { assert FrameLine(s, live, k); }
  }

  /** What has been restored below the frame is what unwinding the trail leaves there. */
  lemma ResumedUnwinds(s: Live, m: seq<Cell>, f: Frame, x: nat)
    requires s.frames != [] && f == s.frames[|s.frames| - 1] && |m| == |s.m| && x < |f.snap| && x != f.cf - 1
    requires Resumed(s.m, s.tt, m, f)
    ensures m[x] == Unwound(s.m, s.tt, f.tt, x)
  {
    var k := |s.frames| - 1;
    assert FrameOK(s, k) && CellKept(s, k, x);
    if x !in f.stored && InTrail(s.m, s.tt, f.tt, x) {
      var i :| s.tt < i <= f.tt && i < |s.m| && s.m[i] == Ref(x);
      assert SlotSound(s, k, i);
    }
  }

  /** A float has been pushed. */
  lemma FloatPushed(s: Live, live: set<nat>, w1: int, w2: int) returns (p: Live)
    requires Remembering(s, live) && s.st + 3 < s.tt
    ensures p == s.(m := s.m[s.st + 1 := Fvl][s.st + 2 := Raw(w1)][s.st + 3 := Raw(w2)], st := s.st + 3)
    ensures Remembering(p, live + Cells(s.st + 1, s.st + 4))
  {
    var p1 := Set(s, s.st + 1, Fvl, s.st + 1, s.gl);
    PutRemembers(s, live, p1, Fvl);
    var p2 := Set(p1, s.st + 2, Raw(w1), s.st + 2, s.gl);
    PutRemembers(p1, live + {s.st + 1}, p2, Raw(w1));
    p := Set(p2, s.st + 3, Raw(w2), s.st + 3, s.gl);
    PutRemembers(p2, live + {s.st + 1} + {s.st + 2}, p, Raw(w2));
    assert live + {s.st + 1} + {s.st + 2} + {s.st + 3} == live + Cells(s.st + 1, s.st + 4);
  }

  /** The arguments stand above the choice frame again. */
  lemma MirrorRemembers(s: Live, live: set<nat>, t: Live, n: nat)
    requires Remembering(s, live) && s.frames != [] && s.st == s.bb && t == s.(st := s.bb + n)
    requires MirroredAgain(s.m, s.bb, n)
    requires n <= s.frames[|s.frames| - 1].n
    ensures Remembering(t, live + Cells(s.bb + 1, s.bb + n + 1))
  {
    forall x | s.st < x <= t.st && !s.m[x].IsCst() ensures s.m[x].a in live { MirroredIsLive(s, live, n, x); }
    RaiseRemembers(s, live, t);
  }

  /** A mirrored argument refers to what the argument does. */
  lemma MirroredIsLive(s: Live, live: set<nat>, n: nat, x: nat)
    requires Remembering(s, live) && s.frames != [] && s.st == s.bb && MirroredAgain(s.m, s.bb, n)
    requires n <= s.frames[|s.frames| - 1].n && s.st < x <= s.st + n && !s.m[x].IsCst()
    ensures s.m[x].a in live
  {
    assert FrameLine(s, live, |s.frames| - 1);
    var y := x - n - CHOICE_SIZE;
    assert LiveCell(s, live, y) && s.m[x] == s.m[y];
    assert y in live;
  }

  /** The state t with the stack cut down to the choice frame. */
  lemma AtFrame(t: Live) returns (s: Live)
    requires t.bb <= t.gl && t.gl == t.bb
    ensures s == t.(st := t.bb)
  {
    assert t.frames[..|t.frames|] == t.frames;
    s := CutTo(t, |t.frames|, t.bb, t.gl);
  }
}
