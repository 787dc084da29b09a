// The engine with the cells that are live: in every run of its instructions the trail remains a remembered set for all
// generation lines on it.
module Generations {
  import opened Terms
  import opened ChoiceState
  import opened ChoicePoints
  import opened RememberedSet
  import opened CollectorInvariant

  class Recorder {
    const e: Engine
    ghost var live: set<nat>

    ghost predicate Valid()
      reads this, e, e.mem
    {
      e.Valid() && Remembering(e.Now(), live)
    }

    /** A new imago has no live cells. */
    constructor (size: nat)
      requires size >= 4
      ensures Valid() && fresh(e) && fresh(e.mem) && live == {} && e.mem.Length == size && e.frames == []
      ensures e.st == e.bb == e.gl == e.b0 == e.cf == STACK_BASE && e.tt == size - 2
      ensures e.mem[size - 1] == Str(STACK_BASE)
    {
      e := new Engine(size);
      live := {};
      new;
      StartRemembers(e.Now());
    }

    lemma StartRemembers(s: Machine)
      requires s.frames == [] && s.tt + 2 == |s.m| && s.m[s.tt + 1] == Str(s.gl)
      ensures Remembering(s, {})
    {
    }

    method Bind(x: nat, v: Cell)
      requires Valid() && x in live && x <= e.st < e.tt - 1 && e.mem[x] == Ref(x) && (!v.IsCst() ==> v.a in live)
      modifies this, e, e.mem
      ensures Valid() && e.mem == old(e.mem) && live == old(live)
    {
      ghost var s: Live := e.Now();
      e.Bind(x, v);
      ghost var t: Live := e.Now();
      assert Bound(s, t, x, v);
      BindRemembers(s, live, t, x, v);
    }

    method Put(v: Cell)
      requires Valid() && e.st + 1 < e.tt && (!v.IsCst() ==> v.a in live + {e.st + 1})
      modifies this, e, e.mem
      ensures Valid() && e.mem == old(e.mem) && live == old(live) + {e.st}
    {
      ghost var s: Live := e.Now();
      e.Put(v);
      ghost var t: Live := e.Now();
      assert t == s.(m := s.m[s.st + 1 := v], st := s.st + 1);
      PutRemembers(s, live, t, v);
      live := live + {e.st};
    }

    /** A cell of the environment refers to cells on the same side of all generation lines. */
    method SetCell(n: nat, v: Cell)
      requires Valid() && 0 <= e.af - n <= e.st && Clear(e.frames, |e.frames|, e.af - n)
      requires OneSided(e.Now(), e.af - n, v) && (!v.IsCst() ==> v.a in live + {e.af - n})
      modifies `live, e.mem, e`frames
      ensures Valid() && live == old(live) + {e.af - n}
      ensures e.mem[..] == old(e.mem[..])[e.af - n := v] && e.frames == StoredTo(old(e.frames), e.af - n)
    {
      ghost var s: Live := e.Now();
      e.SetCell(n, v);
      ghost var t: Live := e.Now();
      StoreRemembers(s, live, t, e.af - n, v);
      live := live + {e.af - n};
      assert e.Now() == t;
    }

    /** CALL: a continuation refers to no cell. */
    method Call(next: int)
      requires Valid() && 1 <= e.af <= e.st && Clear(e.frames, |e.frames|, e.af - 1)
      modifies `live, e.mem, e`cf, e`af, e`frames
      ensures Valid() && live == old(live) + {e.cf - 1} && e.cf == old(e.af) && e.af == e.st
      ensures e.mem[..] == old(e.mem[..])[e.cf - 1 := Int(next)] && e.frames == StoredTo(old(e.frames), e.cf - 1)
    {
      ghost var s: Live := e.Now();
      e.Call(next);
      StoreRemembers(s, live, e.Now(), e.cf - 1, Int(next));
      live := live + {e.cf - 1};
    }

    /** SETFLOAT. */
    method SetFloat(n: nat, w1: int, w2: int)
      requires Valid() && 0 <= e.af - n <= e.st && Clear(e.frames, |e.frames|, e.af - n) && e.st + 3 < e.tt - 1
      modifies this, e, e.mem
      ensures Valid() && e.mem == old(e.mem) && live == old(live) + Cells(old(e.st) + 1, old(e.st) + 4) + {e.af - n}
    {
      ghost var s: Live := e.Now();
      e.SetFloat(n, w1, w2);
      ghost var t: Live := e.Now();
      SetFloatDone(s, live, t, e.af - n, w1, w2);
      live := live + Cells(s.st + 1, s.st + 4) + {e.af - n};
      assert Remembering(t, live) && e.Now() == t;
    }

    lemma SetFloatDone(s: Live, live: set<nat>, t: Live, x: nat, w1: int, w2: int)
      requires Remembering(s, live) && x <= s.st && s.st + 3 < s.tt - 1 && Clear(s.frames, |s.frames|, x)
      requires t == FloatSet(s, x, w1, w2)
      ensures Remembering(t, live + Cells(s.st + 1, s.st + 4) + {x})
    {
      var p := FloatPushed(s, live, w1, w2);
      var v, more := Str(s.st + 1), live + Cells(s.st + 1, s.st + 4);
      assert t.m == if x <= s.gl then p.m[x := v][s.tt := Ref(x)] else p.m[x := v];
      FloatStoreRemembers(p, more, t, x, v);
    }

    /** NECKCUT, as long as it goes back to a choice point. */
    method NeckCut()
      requires Valid()
      modifies this, e, e.mem
      ensures Valid() <==> old(e.bb) <= e.b0 || !e.dead
      ensures e.mem == old(e.mem) && live == old(live)
    {
      ghost var s: Live := e.Now();
      e.NeckCut();
      if s.bb > e.b0 && !e.dead {
        assert e.frames == s.frames[..|e.frames|];
        NeckCutRemembers(s, live, e.Now(), |e.frames|);
      } else if s.bb <= e.b0 {
        assert e.Now() == s;
      }
    }

    /** TRY: the n arguments are live. */
    method Try(n: nat, alt: int)
      requires Valid() && e.st + CHOICE_SIZE + n < e.tt - 1
      requires STACK_BASE <= e.cf && e.cf + n <= e.st && e.mem[e.cf - 1].Int?
      requires Clear(e.frames, |e.frames|, e.cf - 1)
      requires forall x: nat {:trigger x in live} :: e.st - n < x <= e.st ==> x in live
      modifies `live, e.mem, e`st, e`bb, e`gl, e`tt, e`af, e`frames, e`saved
      ensures Valid() && live == old(live) + Cells(old(e.st) + CHOICE_SIZE + 1, old(e.st) + CHOICE_SIZE + n + 1)
      ensures Tries(old(e.Now()), e.Now(), SavedFrame(old(e.Now()), e.cf, e.b0, e.dead, n, alt))
    {
      ghost var s: Live, f := e.Now(), SavedFrame(e.Now(), e.cf, e.b0, e.dead, n, alt);
      e.Try(n, alt);
      ghost var t: Live := e.Now();
      TryDone(s, live, t, f);
      live := live + Cells(f.at + 1, f.at + f.n + 1);
      assert Remembering(t, live) && e.Now() == t;
    }

    lemma TryDone(s: Live, live: set<nat>, t: Live, f: Frame)
      requires Remembering(s, live) && Tries(s, t, f) && f.tt == s.tt && f.gl == s.gl
      requires forall x: nat {:trigger x in live} :: s.st - f.n < x <= s.st ==> x in live
      ensures Remembering(t, live + Cells(f.at + 1, f.at + f.n + 1))
    {
      var u := AtFrame(t);
      TriedBefore(s, live, t, f);
      TryRemembers(s, live, u, f);
      MirrorRemembers(u, live, t, f.n);
    }

    lemma TriedBefore(s: Live, live: set<nat>, t: Machine, f: Frame)
      requires Tries(s, t, f) && f.tt == s.tt && f.gl == s.gl
      requires forall x: nat {:trigger x in live} :: s.st - f.n < x <= s.st ==> x in live
      ensures Tried(s, t.(st := f.at), f) && ArgumentsLive(f, live) && MirroredAgain(t.m, f.at, f.n)
    {
      TriedMirrored(s, t.(st := f.at), f.n);
    }

    lemma TriedMirrored(s: Machine, u: Machine, n: nat)
      requires n <= s.st < |s.m| == |u.m| && u.bb == s.st + CHOICE_SIZE && u.bb + n < |u.m|
      requires u.m[..s.st + 1] == s.m[..s.st + 1] && u.m[u.bb + 1..u.bb + 1 + n] == s.m[s.st + 1 - n..s.st + 1]
      ensures MirroredAgain(u.m, u.bb, n)
    {
      forall x | u.bb < x <= u.bb + n ensures u.m[x] == u.m[x - n - CHOICE_SIZE] {
        assert u.m[x] == u.m[u.bb + 1..u.bb + 1 + n][x - u.bb - 1] == s.m[s.st + 1 - n..s.st + 1][x - u.bb - 1];
        assert u.m[..s.st + 1][x - n - CHOICE_SIZE] == s.m[..s.st + 1][x - n - CHOICE_SIZE];
      }
    }

    /** RETRY: what lies above the choice frame is dead. */
    method Retry(n: nat, alt: int)
      requires Valid() && e.frames != [] && n <= e.frames[|e.frames| - 1].n
      requires n + CHOICE_SIZE <= e.bb && e.bb + n < e.frames[|e.frames| - 1].tt - 1
      modifies this, e, e.mem
      ensures Valid() && e.mem == old(e.mem)
      ensures live == RememberedSet.Below(old(live), old(e.bb)) + Cells(old(e.bb) + 1, old(e.bb) + n + 1)
    {
      ghost var s: Live := e.Now();
      e.RetryNewest(n, alt);
      RetryDone(s, live, e.Now(), n, alt);
      live := RememberedSet.Below(live, s.bb) + Cells(s.bb + 1, s.bb + n + 1);
    }

    lemma RetryDone(s: Live, live: set<nat>, t: Live, n: nat, alt: int)
      requires Remembering(s, live) && Retries(s, t, n, alt) && n <= s.frames[|s.frames| - 1].n
      ensures Remembering(t, RememberedSet.Below(live, s.bb) + Cells(s.bb + 1, s.bb + n + 1))
    {
      var u := RetryUnmirrored(s, live, t, n, alt);
      MirrorRemembers(u, RememberedSet.Below(live, s.bb), t, n);
    }

    lemma RetryUnmirrored(s: Live, live: set<nat>, t: Live, n: nat, alt: int) returns (u: Live)
      requires Remembering(s, live) && Retries(s, t, n, alt)
      ensures u == t.(st := t.bb) && Remembering(u, RememberedSet.Below(live, s.bb))
    {
      var f := s.frames[|s.frames| - 1];
      u := AtFrame(t);
      Unwinds(s, u.m, f, alt);
      RetryRemembers(s, live, u, f, alt);
    }

    lemma Unwinds(s: Live, m: seq<Cell>, f: Frame, alt: int)
      requires s.frames != [] && f == s.frames[|s.frames| - 1] && 0 < f.tt < |s.m| == |m|
      requires Resumed(s.m, s.tt, m, f.(alt := alt)) && m[f.tt + 1..] == s.m[f.tt + 1..]
      ensures Unwinding(s, m, f)
    {
      assert FrameOK(s, |s.frames| - 1);
      assert Resumed(s.m, s.tt, m, f);
      forall x | 0 <= x < f.at - 6 && x != f.cf - 1 ensures m[x] == Unwound(s.m, s.tt, f.tt, x) {
        ResumedUnwinds(s, m, f, x);
      }
      forall x | f.tt < x < |m| ensures m[x] == s.m[x] {
        assert m[f.tt + 1..][x - f.tt - 1] == s.m[f.tt + 1..][x - f.tt - 1];
      }
    }

    /** TRUST. */
    method Trust()
      requires Valid() && e.frames != []
      modifies this, e, e.mem
      ensures Valid() && e.mem == old(e.mem) && live == RememberedSet.Below(old(live), old(e.bb))
    {
      ghost var s: Live := e.Now();
      e.TrustNewest();
      TrustDone(s, live, e.Now());
      live := RememberedSet.Below(live, s.bb);
    }

    lemma TrustDone(s: Live, live: set<nat>, t: Live)
      requires Remembering(s, live) && Trusts(s, t)
      ensures Remembering(t, RememberedSet.Below(live, s.bb))
    {
      var f := s.frames[|s.frames| - 1];
      assert FrameOK(s, |s.frames| - 1);
      Unwinds(s, t.m, f, f.alt);
      TrustRemembers(s, live, t, f);
    }

    /** ALLOA: the frame is not live but for what is stored into it. */
    method Alloa(n: nat)
      requires Valid() && n >= 3 && e.st + n < e.tt - 1
      modifies e.mem, e`st, e`af, e`gl, e`tt
      ensures Valid() && e.af == e.st == old(e.st) + n && e.mem[e.af] == Int(e.cf)
      ensures if old(e.cf > e.gl && e.st + n - e.gl > GC_LIMIT) then e.gl == e.st && e.tt == old(e.tt) - 1
              else e.gl == old(e.gl) && e.tt == old(e.tt)
      ensures forall y {:trigger e.mem[y]} :: 0 <= y <= old(e.st) || old(e.tt) < y < e.mem.Length ==>
        e.mem[y] == old(e.mem[y])
    {
      ghost var s: Live := e.Now();
      e.Alloa(n);
      ghost var t: Live := e.Now();
      AllocatedRemembers(s, live, t);
    }

    lemma AllocatedRemembers(s: Live, live: set<nat>, t: Live)
      requires Remembering(s, live) && s.st < t.st < |s.m| == |t.m| && t.frames == s.frames && t.bb == s.bb
      requires forall y {:trigger t.m[y]} :: 0 <= y <= s.st || s.tt < y < |s.m| ==> t.m[y] == s.m[y]
      requires if t.tt == s.tt then t.gl == s.gl
               else t.tt == s.tt - 1 && s.tt < |s.m| && t.m[s.tt] == Str(t.st) && t.gl == t.st
      ensures Remembering(t, live)
    {
      forall i: nat, y: nat ensures RememberedAt(t, live, i, y) { AllocatedAt(s, live, t, i, y); }
      forall i: nat ensures LineOK(t, i) {
        assert LineOK(s, i);
        forall k | 0 <= k < |s.frames| ensures s.tt < s.frames[k].tt && s.frames[k].at <= s.st {
          assert FrameLine(s, live, k);
          FrameBelow(s, k);
        }
      }
      forall y: nat ensures LiveCell(t, live, y) { assert LiveCell(s, live, y); }
      forall k: nat ensures FrameLine(t, live, k) { assert FrameLine(s, live, k); }
    }

    lemma AllocatedAt(s: Live, live: set<nat>, t: Live, i: nat, y: nat)
      requires Remembering(s, live) && s.st < t.st < |s.m| == |t.m| && t.frames == s.frames
      requires forall y {:trigger t.m[y]} :: 0 <= y <= s.st || s.tt < y < |s.m| ==> t.m[y] == s.m[y]
      requires if t.tt == s.tt then t.gl == s.gl
               else t.tt == s.tt - 1 && s.tt < |s.m| && t.m[s.tt] == Str(t.st) && t.gl == t.st
      ensures RememberedAt(t, live, i, y)
    {
      assert RememberedAt(s, live, i, y) && LiveCell(s, live, y);
      if y in live {
        if !s.m[y].IsCst() { assert LiveCell(s, live, s.m[y].a); }
        if s.tt < i < |s.m| && InTrail(s.m, s.tt, i, y) {
          var j :| s.tt < j <= i && j < |s.m| && s.m[j] == Ref(y);
          assert t.m[j] == Ref(y);
        }
      }
    }

    /** GETFLOAT keeps the remembered set if the variable lies below the choice point or is covered, and only then. */
    method GetFloat(x: nat, w1: int, w2: int)
      requires Valid() && x in live && x <= e.st && e.mem[x] == Ref(x) && e.st + 3 < e.tt - 1
      modifies `live, e.mem, e`st, e`tt
      ensures e.Valid() && live == old(live) + Cells(old(e.st) + 1, old(e.st) + 4)
      ensures Remembering(e.Now(), live) <==> x < e.bb || Covered(old(e.Now()), x)
    {
      ghost var s: Live := e.Now();
      e.GetFloat(x, w1, w2);
      ghost var t: Live := e.Now();
      ghost var p := FloatPushed(s, live, w1, w2);
      live := live + Cells(s.st + 1, s.st + 4);
      assert FloatBound(p, t, x, Str(s.st + 1));
      FloatRemembersExactly(p, live, t, x, Str(s.st + 1));
      CoveredStill(s, p, x);
    }

    lemma CoveredStill(s: Live, p: Live, x: nat)
      requires p.tt == s.tt && |p.m| == |s.m| && forall i {:trigger p.m[i]} :: s.tt < i < |s.m| ==> p.m[i] == s.m[i]
      ensures Covered(p, x) <==> Covered(s, x)
    {
      forall i | s.tt < i < |s.m| ensures p.m[i] == s.m[i] && (InTrail(p.m, p.tt, i, x) <==> InTrail(s.m, s.tt, i, x)) {
        if InTrail(p.m, p.tt, i, x) {
          var j :| s.tt < j <= i && j < |s.m| && p.m[j] == Ref(x);
          assert s.m[j] == Ref(x);
        }
        if InTrail(s.m, s.tt, i, x) {
          var j :| s.tt < j <= i && j < |s.m| && s.m[j] == Ref(x);
          assert p.m[j] == Ref(x);
        }
      }
    }

    /** PROCEED. */
    method Proceed()
      requires Valid()
      modifies e`af
      ensures Valid() && e.af == e.cf
    {
      e.Proceed();
    }

    /** DEEPCUT, as long as the barrier kept is a choice point. */
    method DeepCut(n: nat)
      requires Valid() && 0 <= e.af - n <= e.st && e.mem[e.af - n].Int? && e.mem[e.af - n].i >= 0
      modifies e`bb, e`frames, e`dead, e`saved
      ensures e.bb == old(e.mem[e.af - n].i) && (Valid() <==> IsPoint(old(e.frames), |old(e.frames)|, e.bb))
    {
      ghost var s: Live := e.Now();
      e.DeepCut(n);
      if e.Valid() {
        assert e.frames == s.frames[..|e.frames|];
        DeepCutRemembers(s, live, e.Now(), |e.frames|);
      }
    }
  }

  /** The environment of a :- b, !, c(X) is at 6, with X at 2 and the barrier at 3; b is called. */
  method Clause() returns (r: Recorder)
    ensures fresh(r) && fresh(r.e) && fresh(r.e.mem) && r.Valid() && r.e.mem.Length == 64 && r.e.frames == []
    ensures r.e.st == r.e.cf == 6 && r.e.tt == 62 && r.e.gl == r.e.bb == r.e.b0 == 1
    ensures r.e.mem[2] == Ref(2) && r.e.mem[3] == Int(1) && r.e.mem[5] == Int(100) && 2 in r.live
  {
    r := new Recorder(64);
    r.Alloa(5);
    r.SetCell(4, Ref(2));
    r.SetCell(3, Int(r.e.b0));
    r.Call(100);
  }

  lemma Uncovered(s: Machine, x: nat, i: nat)
    requires i == s.tt + 1 < |s.m| && s.m[i].Str? && x <= s.m[i].a
    ensures !Covered(s, x)
  {
    assert !InTrail(s.m, s.tt, i, x);
  }

  /** b leaves a choice point, and the clause cuts. */
  method ClauseCut() returns (r: Recorder)
    ensures fresh(r) && fresh(r.e) && fresh(r.e.mem) && r.Valid() && r.e.mem.Length == 64
    ensures r.e.st == 13 && r.e.tt == 61 && r.e.bb == 1 && r.e.mem[2] == Ref(2) && r.e.mem[62] == Str(13) && 2 in r.live
  {
    r := Clause();
    r.Try(0, 7);
    assert Before(r.e.frames, 0) == 1;
    r.Proceed();
    r.DeepCut(3);
  }

  /** GETFLOAT misses: there is no choice point above X then, but the generation line of b's is.  When c(1.5) binds X,
      the trail is no remembered set any more. */
  method FloatMissed() returns (r: Recorder)
    ensures r.e.Valid() && 2 in r.live && !Remembering(r.e.Now(), r.live)
  {
    r := ClauseCut();
    Uncovered(r.e.Now(), 2, 62);
    r.GetFloat(2, 0, 0);
  }

  /** What the collector takes for granted of the cells below its line: if h are the live cells and blocks of cells do
      not lie across the line, a cell that is not among the entries it examines refers to nothing it collects. */
  lemma RootsSuffice(s: Live, live: set<nat>, h: Heap, i: nat, x: nat)
    requires Remembering(s, live) && s.tt < i < |s.m| && s.m[i].Str?
    requires x in h && x in live && x <= s.m[i].a && x < |s.m| && h[x] == s.m[x] && NoStraddle(h, s.m[i].a + 1, h[x])
    ensures Ref(x) in s.m[s.tt + 1..i + 1] || CollectorInvariant.Below(h, s.m[i].a + 1, h[x])
  {
    NothingMissed(s, live, i, x);
  }
}
