// What the collector takes for granted of the trail: no cell is on it twice, and the cells on it are bound.  The
// engine's
// steps keep it, except that PUTVAR, PUTRVAL and SETVAR unbind a cell that may be on the trail.
module TrailOnce {
  import opened Terms
  import opened TrailCount
  import opened TrailRoots
  import opened ChoiceState
  import opened ChoicePoints

  /** How often x is on the trail from behind tt up to af. */
  ghost function OnTrail(m: seq<Cell>, tt: nat, af: nat, x: nat): nat
    requires af < |m|
  {
    Count(m, tt + 1, af + 1, Ref(x))
  }

  /** The cells on the trail are there once, and bound. */
  ghost predicate Once(m: seq<Cell>, tt: nat, af: nat) {
    tt <= af < |m| && forall x: nat {:trigger OnceAt(m, tt, af, x)} :: OnceAt(m, tt, af, x)
  }

  ghost predicate OnceAt(m: seq<Cell>, tt: nat, af: nat, x: nat)
    requires af < |m|
  {
    OnTrail(m, tt, af, x) <= 1 && (OnTrail(m, tt, af, x) == 1 ==> x < |m| && m[x] != Ref(x))
  }

  /** Then the outer roots of a collection above any line are distinct. */
  lemma OnceIsDistinct(m: seq<Cell>, line: nat, tt: nat, af: nat)
    requires Once(m, tt, af)
    ensures Distinct(m, line, tt, af)
  {
    forall r: nat | r < line ensures Count(m, tt + 1, af + 1, Ref(r)) <= 1 { assert OnceAt(m, tt, af, r); }
  }

  /** A store at x keeps it if and only if it does not unbind a cell that is on the trail. */
  lemma StoreOnce(m: seq<Cell>, tt: nat, af: nat, x: nat, v: Cell)
    requires Once(m, tt, af) && x <= tt
    ensures Once(m[x := v], tt, af) <==> v != Ref(x) || OnTrail(m, tt, af, x) == 0
  {
    var n := m[x := v];
    forall y: nat ensures OnTrail(n, tt, af, y) == OnTrail(m, tt, af, y) { CountSame(m, n, tt + 1, af + 1, Ref(y)); }
    assert OnceAt(m, tt, af, x);
    if v != Ref(x) || OnTrail(m, tt, af, x) == 0 {
      forall y: nat ensures OnceAt(n, tt, af, y) { assert OnceAt(m, tt, af, y); }
    } else {
      assert !OnceAt(n, tt, af, x);
    }
  }

  /** A variable that is bound and trailed was not on the trail. */
  lemma BindOnce(m: seq<Cell>, tt: nat, af: nat, x: nat, v: Cell)
    requires Once(m, tt, af) && x < tt && m[x] == Ref(x) && v != Ref(x)
    ensures Once(m[x := v][tt := Ref(x)], tt - 1, af)
  {
    var n := m[x := v];
    StoreOnce(m, tt, af, x, v);
    assert OnceAt(m, tt, af, x);
    CountSame(m, n, tt + 1, af + 1, Ref(x));
    PushOnce(n, tt, af, Ref(x));
  }

  /** Pushing an entry keeps it if and only if that is a generation line, or a bound cell that is not on the trail yet;
      SETFLOAT does not look. */
  lemma PushOnce(m: seq<Cell>, tt: nat, af: nat, e: Cell)
    requires Once(m, tt, af) && tt > 0 && (e.Ref? ==> e.a < tt)
    ensures Once(m[tt := e], tt - 1, af) <==> e.Ref? ==> m[e.a] != e && OnTrail(m, tt, af, e.a) == 0
  {
    var n := m[tt := e];
    forall y: nat ensures OnTrail(n, tt - 1, af, y) == OnTrail(m, tt, af, y) + if e == Ref(y) then 1 else 0 {
      CountFirst(n, tt, af + 1, Ref(y));
      CountSame(m, n, tt + 1, af + 1, Ref(y));
    }
    if e.Ref? && (m[e.a] == e || OnTrail(m, tt, af, e.a) > 0) {
      assert !OnceAt(n, tt - 1, af, e.a);
    } else {
      forall y: nat {:trigger OnceAt(n, tt - 1, af, y)} | true ensures OnceAt(n, tt - 1, af, y) {
        assert OnceAt(m, tt, af, y);
      }
    }
  }

  /** Unwinding an entry. */
  lemma PopOnce(m: seq<Cell>, tt: nat, af: nat, x: nat)
    requires Once(m, tt, af) && tt < af && m[tt + 1] == Ref(x) && x <= tt
    ensures Once(m[x := Ref(x)], tt + 1, af)
  {
    var n := m[x := Ref(x)];
    forall y: nat {:trigger OnceAt(n, tt + 1, af, y)} | true ensures OnceAt(n, tt + 1, af, y) {
      assert OnceAt(m, tt, af, y);
      CountFirst(m, tt + 1, af + 1, Ref(y));
      CountSame(m, n, tt + 2, af + 1, Ref(y));
    }
  }

  /** Filtering the trail between lo and hi. */
  lemma FilterOnce(m: seq<Cell>, m': seq<Cell>, lo: nat, tt: nat, hi: nat, gl: nat, af: nat)
    requires Once(m, lo, af) && hi <= af && Filtered(m, m', lo, tt, hi, gl) && Fewer(m, m', lo, tt, hi)
    requires forall x: nat {:trigger OnTrail(m, lo, af, x)} :: OnTrail(m, lo, af, x) == 1 ==> x <= lo
    ensures Once(m', tt, af)
  {
    forall y: nat ensures OnceAt(m', tt, af, y) {
      assert OnceAt(m, lo, af, y);
      var e := Ref(y);
      CountSplit(m, lo + 1, hi + 1, af + 1, e);
      CountSplit(m', tt + 1, hi + 1, af + 1, e);
      CountSame(m, m', hi + 1, af + 1, e);
      assert Count(m', tt + 1, hi + 1, e) <= Count(m, lo + 1, hi + 1, e);
    }
  }

  /** A goal of a clause has left a choice point; X is at 2 of the clause's environment. */
  method Chosen() returns (e: Engine)
    ensures fresh(e) && fresh(e.mem) && e.Valid() && e.mem.Length == 64 && |e.frames| == 1 && Clear(e.frames, 1, 2)
    ensures e.st == e.bb == 12 && e.tt == 61 && e.af == 5
  {
    e := FirstGoal();
    e.Try(0, 7);
    e.Proceed();
    assert !IsField(e.frames, 0, 2);
  }

  /** SETVAR on X, which is bound then. */
  method SetAndBind(e: Engine, i: int)
    requires e.Valid() && e.mem.Length == 64 && |e.frames| == 1 && Clear(e.frames, 1, 2)
    requires e.st == e.bb == 12 && 50 <= e.tt <= 61 && e.af == 5
    modifies e.mem, e`tt, e`frames
    ensures e.Valid() && |e.frames| == 1 && Clear(e.frames, 1, 2)
    ensures e.tt == old(e.tt) - 1 && e.mem[e.tt + 1] == Ref(2) && e.mem[e.tt + 2] == old(e.mem[e.tt + 1])
  {
    ghost var fs := e.frames;
    e.SetVar(3);
    ClearKept(fs, e.frames, 1, 2);
    e.Bind(2, Int(i));
  }

  /** SETVAR on a variable that has been bound and trailed: it is bound again, and is on the trail twice. */
  method TrailedTwice() returns (e: Engine)
    ensures e.Valid() && e.tt + 2 < e.mem.Length && OnTrail(e.mem[..], e.tt, e.tt + 2, 2) == 2
    ensures !Distinct(e.mem[..], 3, e.tt, e.tt + 2)
  {
    e := Chosen();
    SetAndBind(e, 1);
    SetAndBind(e, 2);
    CountFirst(e.mem[..], e.tt + 1, e.tt + 3, Ref(2));
    CountFirst(e.mem[..], e.tt + 2, e.tt + 3, Ref(2));
  }
}
