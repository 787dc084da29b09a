// The instructions of the engine that make, resume and cut choice points, and those that change cells in
// between.  Code addresses and saved registers are integers here.
module ChoicePoints {
  import opened Terms
  import opened ChoiceState
  import opened TrailCount

  const GC_LIMIT: nat := 81920

  /** filter_trail: entries above gl between gp and the old trail top give way to entries from the new end. */
  method FilterTrail(mem: array<Cell>, lo: nat, hi: nat, gl: nat) returns (tt: nat)
    requires lo <= hi < mem.Length
    modifies mem
    ensures Filtered(old(mem[..]), mem[..], lo, tt, hi, gl) && Fewer(old(mem[..]), mem[..], lo, tt, hi)
  {
    ghost var m0 := mem[..];
    var gp := lo;
    tt := hi;
    while tt > gp
      invariant lo <= gp <= tt <= hi
      invariant forall x {:trigger mem[x]} :: 0 <= x < mem.Length && !(lo < x <= hi) ==> mem[x] == m0[x]
      invariant forall i {:trigger mem[i]} :: gp < i <= hi ==> Among(m0, lo, hi, mem[i])
      invariant forall i {:trigger mem[i]} :: tt < i <= hi ==> NotAbove(mem[i], gl)
      invariant forall i {:trigger m0[i]} :: lo < i <= hi && NotAbove(m0[i], gl) ==> Among(mem[..], gp, hi, m0[i])
      invariant Fewer(m0, mem[..], lo, gp, hi)
      decreases tt - gp
    {
      if NotAbove(mem[tt], gl) {
        tt := tt - 1;
      } else {
        gp := gp + 1;
        ghost var m := mem[..];
        mem[tt] := mem[gp];
        forall i | lo < i <= hi && NotAbove(m0[i], gl) ensures Among(mem[..], gp, hi, m0[i]) {
          Overwritten(m, mem[..], gp, tt, hi, gl, m0[i]);
        }
        OverwrittenFewer(m0, m, mem[..], lo, gp, tt, hi);
      }
    }
  }

  lemma Overwritten(m: seq<Cell>, m': seq<Cell>, gp: nat, tt: nat, hi: nat, gl: nat, e: Cell)
    requires 0 < gp <= tt <= hi < |m| && m' == m[tt := m[gp]] && !NotAbove(m[tt], gl) && NotAbove(e, gl)
    requires Among(m, gp - 1, hi, e)
    ensures Among(m', gp, hi, e)
  {
    var i :| gp - 1 < i <= hi && i < |m| && m[i] == e;
    if i == gp { assert m'[tt] == e; } else { assert m'[i] == e; }
  }

  lemma OverwrittenFewer(m0: seq<Cell>, m: seq<Cell>, m': seq<Cell>, lo: nat, gp: nat, tt: nat, hi: nat)
    requires 0 < gp <= tt <= hi < |m| == |m0| && m' == m[tt := m[gp]] && Fewer(m0, m, lo, gp - 1, hi)
    ensures Fewer(m0, m', lo, gp, hi)
  {
    forall e {:trigger Count(m', gp + 1, hi + 1, e)} | true
      ensures Count(m', gp + 1, hi + 1, e) <= Count(m0, lo + 1, hi + 1, e)
    {
      assert Count(m, gp, hi + 1, e) <= Count(m0, lo + 1, hi + 1, e);
      CountFirst(m, gp, hi + 1, e);
      if gp < tt {
        CountSplit(m, gp + 1, tt, hi + 1, e);
        CountSplit(m', gp + 1, tt, hi + 1, e);
        CountFirst(m, tt, hi + 1, e);
        CountFirst(m', tt, hi + 1, e);
        CountSame(m, m', gp + 1, tt, e);
        CountSame(m, m', tt + 1, hi + 1, e);
      } else {
        CountSame(m, m', gp + 1, hi + 1, e);
      }
    }
  }

  method SaveRegisters(mem: array<Cell>, bb: nat, cf: nat, cp: int, tt: nat, prev: nat, b0: nat, alt: int, gl: nat,
                       ghost f: Frame)
    requires CHOICE_SIZE <= bb < mem.Length
    requires f == Frame(bb, cf, cp, tt, prev, b0, alt, gl, f.n, f.snap, f.stored, f.dead)
    modifies mem
    ensures Framed(old(mem[..]), mem[..], f)
  {
    mem[bb] := Int(cf);
    mem[bb - 1] := Int(cp);
    mem[bb - 2] := Int(tt);
    mem[bb - 3] := Int(prev);
    mem[bb - 4] := Int(b0);
    mem[bb - 5] := Int(alt);
    mem[bb - 6] := Int(gl);
  }

  ghost function LastFrame(fs: seq<Frame>): Frame
    requires fs != []
  {
    fs[|fs| - 1]
  }

  lemma TriedFields(s: Machine, t: Live, f: Frame)
    requires Tries(s, t, f)
    ensures FieldsAt(t.m, f) && LastFrame(t.frames) == f
  {
    NewestFields(t);
  }

  /** The newest frame is in memory. */
  lemma NewestFields(t: Live)
    requires t.frames != []
    ensures FieldsAt(t.m, LastFrame(t.frames)) && LastFrame(t.frames).at == t.bb
  {
    assert FrameOK(t, |t.frames| - 1);
  }

  /** The block m with a float in the three cells up to st. */
  ghost function WithFloat(m: seq<Cell>, st: nat, w1: int, w2: int): seq<Cell>
    requires 2 <= st < |m|
  {
    m[st - 2 := Fvl][st - 1 := Raw(w1)][st := Raw(w2)]
  }

  /** The engine with a float on top of its stack and the cell x referring to it, which is trailed up to the generation
      line. */
  ghost function FloatSet(s: Machine, x: nat, w1: int, w2: int): Machine
    requires x <= s.st && s.st + 3 < s.tt - 1 && s.tt < |s.m|
  {
    var m := WithFloat(s.m[x := Str(s.st + 1)], s.st + 3, w1, w2);
    if x <= s.gl then Machine(m[s.tt := Ref(x)], s.st + 3, s.tt - 1, s.bb, s.gl, StoredTo(s.frames, x))
    else Machine(m, s.st + 3, s.tt, s.bb, s.gl, StoredTo(s.frames, x))
  }

  /** f is the newest of the frames that have not been cut. */
  ghost predicate Newest(fs: seq<Frame>, f: Frame) {
    fs != [] && f == fs[|fs| - 1]
  }

  /** The trail of s has been filtered down to its newest frame's, and the generation line is that frame's. */
  ghost predicate FilteredBack(s: Machine, t: Machine) {
    && s.frames != [] && var f := s.frames[|s.frames| - 1];
    t.gl == f.gl && t.st == s.st && Filtered(s.m, t.m, s.tt, t.tt, f.tt, f.gl)
  }

  class Engine {
    var mem: array<Cell>
    var st: nat
    var tt: nat
    var bb: nat
    var gl: nat
    var b0: nat
    var cf: nat
    var af: nat
    ghost var frames: seq<Frame>
    ghost var dead: bool       // a DEEPCUT has gone below b0 since it was set
    ghost var saved: seq<Saved>  // the registers at the TRY of each frame

    ghost function Now(): Machine
      reads this, mem
    {
      Machine(mem[..], st, tt, bb, gl, frames)
    }

    ghost predicate Valid()
      reads this, mem
    {
      Inv(Now()) && Barred(frames, b0, dead, st) && Remembered(frames, saved)
    }

    /** A new imago: its stack is empty, and the trail holds the first generation line. */
    constructor (size: nat)
      requires size >= 4
      ensures Valid() && fresh(mem) && mem.Length == size && frames == [] && saved == [] && !dead
      ensures st == bb == gl == b0 == cf == STACK_BASE && tt == size - 2 && af == size - 1
      ensures mem[size - 1] == Str(STACK_BASE)
    {
      mem := new Cell[size](i => Int(0));
      st, bb, gl, b0, cf := STACK_BASE, STACK_BASE, STACK_BASE, STACK_BASE, STACK_BASE;
      tt, af := size - 2, size - 1;
      frames, saved, dead := [], [], false;
      new;
      mem[size - 1] := Str(STACK_BASE);
      assert Before(frames, 0) == b0;
    }

    /** The bind step of the get instructions and of unification: constants are trailed below the choice point only. */
    method Bind(x: nat, v: Cell)
      requires Valid() && x <= st && mem[x] == Ref(x) && st < tt - 1
      modifies mem, `tt
      ensures Valid() && mem[x] == v
      ensures if (if v.IsCst() then x < bb else x <= gl) then tt == old(tt) - 1 && mem[tt + 1] == Ref(x)
              else tt == old(tt) && mem[tt] == old(mem[tt])
      ensures forall y {:trigger mem[y]} :: 0 <= y < mem.Length && y != x && y != old(tt) ==> mem[y] == old(mem[y])
    {
      ghost var s: Live := Now();
      if MustTrail(x, v, gl, bb) {
        s := BindTrailed(s, x, v);
        mem[x] := v;
        mem[tt] := Ref(x);
        tt := tt - 1;
        assert mem[..] == s.m;
      } else {
        s := BindCell(s, x, v);
        mem[x] := v;
      }
    }

    /** A cell goes on top of the stack. */
    method Put(v: Cell)
      requires Valid() && st + 1 < tt
      modifies mem, `st
      ensures Valid() && st == old(st) + 1 && mem[..] == old(mem[..])[st := v]
    {
      ghost var s := Set(Now(), st + 1, v, st + 1, gl);
      st := st + 1;
      mem[st] := v;
    }

    /** SETCON, SETFUN, SETLIST, SETSTR and their like: a cell of the environment is stored into, wherever it lies.
        No choice frame and no argument of one is a cell of an environment. */
    method SetCell(n: nat, v: Cell)
      requires Valid() && 0 <= af - n <= st && Clear(frames, |frames|, af - n)
      modifies mem, `frames
      ensures Valid() && mem[..] == old(mem[..])[af - n := v] && frames == StoredTo(old(frames), af - n)
    {
      RememberedStore(frames, saved, af - n);
      ghost var s := Store(Now(), af - n, v);
      PointKept(frames, s.frames, |frames|, b0);
      mem[af - n] := v;
      frames := s.frames;
      assert Now() == s;
    }

    /** SETVAR: the cell becomes an unbound variable. */
    method SetVar(n: nat)
      requires Valid() && 0 <= af - n <= st && Clear(frames, |frames|, af - n)
      modifies mem, `frames
      ensures Valid() && mem[..] == old(mem[..])[af - n := Ref(af - n)] && frames == StoredTo(old(frames), af - n)
    {
      SetCell(n, Ref(af - n));
    }

    /** PUTVAR: so it does, and it is pushed as an argument. */
    method PutVar(n: nat)
      requires Valid() && 0 <= af - n <= st && Clear(frames, |frames|, af - n) && st + 1 < tt
      modifies mem, `st, `frames
      ensures Valid() && st == old(st) + 1 && mem[st] == mem[af - n] == Ref(af - n)
      ensures frames == StoredTo(old(frames), af - n)
      ensures forall x {:trigger mem[x]} :: 0 <= x < mem.Length && x != st && x != af - n ==> mem[x] == old(mem[x])
    {
      SetVar(n);
      Put(mem[af - n]);
    }

    /** PUTRVAL: the cell's contents are pushed, and the cell becomes an unbound variable. */
    method PutRval(n: nat)
      requires Valid() && 0 <= af - n <= st && Clear(frames, |frames|, af - n) && st + 1 < tt
      modifies mem, `st, `frames
      ensures Valid() && st == old(st) + 1 && mem[st] == old(mem[af - n]) && mem[af - n] == Ref(af - n)
      ensures frames == StoredTo(old(frames), af - n)
      ensures forall x {:trigger mem[x]} :: 0 <= x < mem.Length && x != st && x != af - n ==> mem[x] == old(mem[x])
    {
      Put(mem[af - n]);
      SetVar(n);
    }

    /** SETFLOAT: the float goes on top of the stack, and the cell, if not above the generation line, on the trail. */
    method SetFloat(n: nat, w1: int, w2: int)
      requires Valid() && 0 <= af - n <= st && Clear(frames, |frames|, af - n) && st + 3 < tt - 1
      modifies mem, `st, `tt, `frames
      ensures Valid() && st == old(st) + 3 && frames == StoredTo(old(frames), af - n)
      ensures mem[af - n] == Str(st - 2) && mem[st - 2] == Fvl && mem[st - 1] == Raw(w1) && mem[st] == Raw(w2)
      ensures if af - n <= gl then tt == old(tt) - 1 && mem[old(tt)] == Ref(af - n) else tt == old(tt)
      ensures Now() == FloatSet(old(Now()), af - n, w1, w2)
    {
      ghost var fs := frames;
      StoreFloat(n, w1, w2);
      if af - n <= gl {
        NowTrailable(Now(), fs, af - n);
        Push(Ref(af - n));
      }
    }

    /** The same without the trail entry. */
    method StoreFloat(n: nat, w1: int, w2: int)
      requires Valid() && 0 <= af - n <= st && Clear(frames, |frames|, af - n) && st + 3 < tt
      modifies mem, `st, `frames
      ensures Valid() && st == old(st) + 3 && frames == StoredTo(old(frames), af - n)
      ensures mem[..] == WithFloat(old(mem[..])[af - n := Str(st - 2)], st, w1, w2)
      ensures mem[af - n] == Str(st - 2) && mem[st - 2] == Fvl && mem[st - 1] == Raw(w1) && mem[st] == Raw(w2)
    {
      SetCell(n, Str(st + 1));
      PutFloat(w1, w2);
    }

    /** GETFLOAT on an unbound variable: it is bound to a float on top of the stack, but trailed as a constant would be.
        */
    method GetFloat(x: nat, w1: int, w2: int)
      requires Valid() && x <= st && mem[x] == Ref(x) && st + 3 < tt - 1
      modifies mem, `st, `tt
      ensures Valid() && st == old(st) + 3
      ensures mem[x] == Str(st - 2) && mem[st - 2] == Fvl && mem[st - 1] == Raw(w1) && mem[st] == Raw(w2)
      ensures var m := WithFloat(old(mem[..]), st, w1, w2)[x := Str(st - 2)];
        if x < bb then tt == old(tt) - 1 && mem[..] == m[old(tt) := Ref(x)] else tt == old(tt) && mem[..] == m
    {
      PutFloat(w1, w2);
      BindFloat(x, Str(st - 2));
    }

    /** The variable is bound and bbtrailed. */
    method BindFloat(x: nat, v: Cell)
      requires Valid() && x <= st && mem[x] == Ref(x) && st < tt - 1
      modifies mem, `tt
      ensures Valid() && if x < bb then tt == old(tt) - 1 && mem[..] == old(mem[..])[x := v][old(tt) := Ref(x)]
                         else tt == old(tt) && mem[..] == old(mem[..])[x := v]
    {
      ghost var s: Live := Now();
      if x < bb {
        s := BindTrailed(s, x, v);
        mem[x] := v;
        mem[tt] := Ref(x);
        tt := tt - 1;
        assert mem[..] == s.m;
      } else {
        s := BindCell(s, x, v);
        mem[x] := v;
      }
    }

    method PutFloat(w1: int, w2: int)
      requires Valid() && st + 3 < tt
      modifies mem, `st
      ensures Valid() && st == old(st) + 3 && mem[..] == WithFloat(old(mem[..]), st, w1, w2)
      ensures mem[st - 2] == Fvl && mem[st - 1] == Raw(w1) && mem[st] == Raw(w2)
    {
      Put(Fvl);
      Put(Raw(w1));
      Put(Raw(w2));
    }

    /** An entry is pushed on the trail. */
    method Push(e: Cell)
      requires Valid() && st < tt - 1 && Trailable(Now(), e)
      modifies mem, `tt
      ensures Valid() && tt == old(tt) - 1 && mem[..] == old(mem[..])[old(tt) := e]
    {
      ghost var s := PushTrail(Now(), e);
      mem[tt] := e;
      tt := tt - 1;
    }

    /** ALLOA, when no collection is due: an environment of n cells, and a new generation when the caller belongs to
        none and there is much above the line. */
    method Alloa(n: nat)
      requires Valid() && n >= 3 && st + n < tt - 1
      modifies mem, `st, `af, `gl, `tt
      ensures Valid() && af == st == old(st) + n && mem[af] == Int(cf) && mem[af - 2] == Int(old(tt))
      ensures if old(cf > gl && st + n - gl > GC_LIMIT) then gl == st && tt == old(tt) - 1
              else gl == old(gl) && tt == old(tt)
      ensures forall y {:trigger mem[y]} :: 0 <= y <= old(st) || old(tt) < y < mem.Length ==> mem[y] == old(mem[y])
      ensures tt < old(tt) ==> mem[old(tt)] == Str(gl)
    {
      MakeEnvironment(n);
      if cf > gl {
        Generation();
      }
    }

    /** make_aframe. */
    method MakeEnvironment(n: nat)
      requires Valid() && n >= 3 && st + n < tt
      modifies mem, `st, `af
      ensures Valid() && af == st == old(st) + n && mem[..] == old(mem[..])[st := Int(cf)][st - 2 := Int(tt)]
    {
      ghost var s := Allocate(Now(), n, cf, tt);
      st := st + n;
      af := st;
      mem[af] := Int(cf);
      mem[af - 2] := Int(tt);
    }

    /** A new generation when there is much above the line. */
    method Generation()
      requires Valid() && st < tt - 1
      modifies mem, `gl, `tt
      ensures Valid()
      ensures forall y {:trigger mem[y]} :: 0 <= y <= st || old(tt) < y < mem.Length ==> mem[y] == old(mem[y])
      ensures if old(st - gl) > GC_LIMIT then gl == st && tt == old(tt) - 1 && mem[old(tt)] == Str(gl)
              else gl == old(gl) && tt == old(tt)
    {
      if st - gl > GC_LIMIT {
        ghost var s := CutTo(Now(), |frames|, st, st);
        assert frames[..|frames|] == frames;
        gl := st;
        NewGeneration();
      }
    }

    /** new_generation. */
    method NewGeneration()
      requires Valid() && st < tt - 1
      modifies mem, `tt
      ensures Valid() && tt == old(tt) - 1 && mem[..] == old(mem[..])[old(tt) := Str(gl)]
    {
      Push(Str(gl));
    }

    /** CALL: the continuation goes into the caller's frame. */
    method Call(next: int)
      requires Valid() && 1 <= af <= st && Clear(frames, |frames|, af - 1)
      modifies mem, `cf, `af, `frames
      ensures Valid() && cf == old(af) && af == st && mem[..] == old(mem[..])[cf - 1 := Int(next)]
      ensures frames == StoredTo(old(frames), cf - 1)
    {
      ghost var s := Store(Now(), af - 1, Int(next));
      PointKept(frames, s.frames, |frames|, b0);
      RememberedStore(frames, saved, af - 1);
      cf := af;
      mem[cf - 1] := Int(next);
      af := st;
      frames := s.frames;
    }

    /** LASTCALL: the environment is left before the call. */
    method LastCall()
      requires Valid() && af <= st && mem[af].Int? && mem[af].i >= 0
      modifies `cf, `af, `b0, `dead
      ensures Valid() && cf == mem[old(af)].i && af == st && b0 == bb && !dead
    {
      cf := mem[af].i;
      af := st;
      b0, dead := bb, false;
      assert Before(frames, |frames|) == b0;
    }

    /** PROCEED: back to the caller's environment. */
    method Proceed()
      requires Valid()
      modifies `af
      ensures Valid() && af == cf
    {
      af := cf;
    }

    /** TRY: a choice frame on top of the n arguments, which are mirrored above it. */
    method Try(n: nat, alt: int)
      requires Valid() && st + CHOICE_SIZE + n < tt - 1
      requires STACK_BASE <= cf && cf + n <= st && mem[cf - 1].Int? && Clear(frames, |frames|, cf - 1)
      modifies mem, `st, `bb, `gl, `tt, `af, `frames, `saved
      ensures Valid() && af == st && Tries(old(Now()), Now(), SavedFrame(old(Now()), cf, b0, dead, n, alt))
      ensures bb == gl == old(st) + CHOICE_SIZE && st == bb + n && tt == old(tt) - 1
      ensures mem[bb] == Int(cf) && mem[bb - 1] == old(mem[cf - 1]) && mem[bb - 2] == Int(old(tt))
      ensures mem[bb - 3] == Int(old(bb)) && mem[bb - 4] == Int(b0) && mem[bb - 5] == Int(alt)
      ensures mem[bb - 6] == Int(old(gl))
      ensures saved == old(saved) + [Saved(cf, b0, dead, old(tt), old(bb), old(gl), n, old(mem[..st + 1]))]
      ensures |frames| == |saved| && LastFrame(frames).stored == {}
    {
      ghost var s, f := Now(), SavedFrame(Now(), cf, b0, dead, n, alt);
      MakeFrameOf(n, alt);
      TriedFields(s, Now(), f);
    }

    method MakeFrameOf(n: nat, alt: int)
      requires Valid() && st + CHOICE_SIZE + n < tt - 1
      requires STACK_BASE <= cf && cf + n <= st && mem[cf - 1].Int? && Clear(frames, |frames|, cf - 1)
      modifies mem, `st, `bb, `gl, `tt, `af, `frames, `saved
      ensures Valid() && af == st && Tries(old(Now()), Now(), SavedFrame(old(Now()), cf, b0, dead, n, alt))
      ensures saved == old(saved) + [Saved(cf, b0, dead, old(tt), old(bb), old(gl), n, old(mem[..st + 1]))]
    {
      ghost var s, f := Now(), SavedFrame(Now(), cf, b0, dead, n, alt);
      Begin(n, alt, f);
      ghost var u: Live := Now();
      Mirror(n);
      TriesInSteps(s, u, Now(), f);
      ghost var t := RaiseLive(u, mem[..], st);
    }

    /** make_cframe, but for the arguments. */
    method Begin(n: nat, alt: int, ghost f: Frame)
      requires Valid() && st + CHOICE_SIZE < tt - 1
      requires STACK_BASE <= cf && cf + n <= st && mem[cf - 1].Int? && Clear(frames, |frames|, cf - 1)
      requires f == SavedFrame(Now(), cf, b0, dead, n, alt)
      modifies mem, `st, `bb, `gl, `tt, `af, `frames, `saved
      ensures Valid() && af == old(st) - n && Begun(old(Now()), Now(), f)
      ensures saved == old(saved) + [Saved(cf, b0, dead, old(tt), old(bb), old(gl), n, old(mem[..st + 1]))]
    {
      af := st - n;
      MakeChoice(alt, f);
      NewGeneration();
    }

    /** The fields of make_cframe. */
    method MakeChoice(alt: int, ghost f: Frame)
      requires Valid() && st + CHOICE_SIZE < tt
      requires STACK_BASE <= cf && cf + f.n <= st && mem[cf - 1].Int? && Clear(frames, |frames|, cf - 1)
      requires f == SavedFrame(Now(), cf, b0, dead, f.n, alt)
      modifies mem, `st, `bb, `gl, `frames, `saved
      ensures Valid() && Chosen(old(Now()), Now(), f)
      ensures saved == old(saved) + [Saved(cf, b0, dead, tt, old(bb), old(gl), f.n, old(mem[..st + 1]))]
    {
      ghost var s0: Live := Now();
      ghost var now := Saved(cf, b0, dead, tt, bb, gl, f.n, mem[..st + 1]);
      RememberedTry(frames, saved, f, now);
      BarredMore(frames, b0, dead, st, f);
      var ax := bb;
      bb := st + CHOICE_SIZE;
      SaveRegisters(mem, bb, cf, mem[cf - 1].i, tt, ax, b0, alt, gl, f);
      ghost var s := MakeFrame(s0, f, mem[..]);
      gl, st := bb, bb;
      frames, saved := frames + [f], saved + [now];
    }

    /** The n cells behind af are pushed, and af becomes the top of the stack. */
    method Mirror(n: nat)
      requires af + n <= st && st + n < mem.Length
      modifies mem, `st, `af
      ensures af == st == old(st) + n && PushedAgain(old(mem[..]), mem[..], old(af), old(st), n)
    {
      ghost var m, a0, s0 := mem[..], af, st;
      var ax := n;
      while ax > 0
        invariant 0 <= ax <= n && af == a0 + (n - ax) && st == s0 + (n - ax)
        invariant forall x {:trigger mem[x]} :: 0 <= x <= s0 || st < x < mem.Length ==> mem[x] == m[x]
        invariant forall x {:trigger mem[x]} :: s0 < x <= st ==> mem[x] == m[a0 + (x - s0)]
      {
        af := af + 1;
        st := st + 1;
        mem[st] := mem[af];
        ax := ax - 1;
      }
      af := st;
    }

    /** The fields of the newest frame, as memory has them. */
    lemma NewestFrame()
      requires Valid() && frames != []
      ensures var f := frames[|frames| - 1];
        && f.at == bb && FieldsAt(mem[..], f) && tt <= f.tt < mem.Length && f.prev == Before(frames, |frames| - 1)
        && STACK_BASE <= f.cf && f.cf + f.n + CHOICE_SIZE <= bb <= st && f.prev <= f.gl && f.gl + CHOICE_SIZE <= bb
        && |f.snap| == bb - 6
        && f.snap[f.cf - 1] == Int(f.cp) && Standing(mem[..], tt, bb, f)
    {
      assert FrameOK(Now(), |frames| - 1);
      NewestStands(Now());
    }

    /** detrail: the entries down to limit are taken off, and the cells they name below the choice point unbound. */
    method Detrail(limit: nat)
      requires bb <= tt <= limit < mem.Length
      modifies mem, `tt
      ensures tt == limit && UnwoundBelow(old(mem[..]), old(tt), limit, mem[..], bb)
    {
      ghost var m0, tt0 := mem[..], tt;
      while tt < limit
        invariant tt0 <= tt <= limit && UnwoundBelow(m0, tt0, tt, mem[..], bb)
        decreases limit - tt
      {
        ghost var m := mem[..];
        tt := tt + 1;
        var gp := mem[tt];
        if gp.Ref? && gp.a < bb {
          mem[gp.a] := gp;
        }
        UnwoundMore(m0, tt0, tt - 1, m, mem[..], bb);
      }
    }

    /** Backtracking sets the barrier; and what RETRY and TRUST have in common: bindings are undone and the continuation
        is restored.  The frame f at bb need not be one of the frames that have not been cut. */
    method Resume(ghost f: Frame)
      requires Standing(mem[..], tt, bb, f)
      modifies mem, `tt, `cf, `b0, `dead
      ensures mem[..] == ResumedBlock(old(mem[..]), old(tt), f) && FieldsAt(mem[..], f)
      ensures tt == f.tt && cf == f.cf && b0 == f.b0 && dead == f.dead
    {
      ghost var m0, tt0 := mem[..], tt;
      b0, dead := mem[bb - 4].i, f.dead;
      Detrail(mem[bb - 2].i);
      ghost var m := mem[..];
      FieldsUnwound(m0, m, tt0, f);
      cf := mem[bb].i;
      mem[cf - 1] := mem[bb - 1];
      assert mem[..] == ResumedBlock(m0, tt0, f);
    }

    lemma FieldsUnwound(m0: seq<Cell>, m: seq<Cell>, tt0: nat, f: Frame)
      requires Standing(m0, tt0, f.at, f) && UnwoundBelow(m0, tt0, f.tt, m, f.at)
      ensures FieldsAt(m, f)
    {
      forall x | f.at - 6 <= x < f.at ensures m[x] == m0[x] { assert !InTrail(m0, tt0, f.tt, x); }
    }

    /** RETRY: every cell below the frame is as unwinding the trail leaves it, and the arguments are mirrored again.  If
        the frame has not been cut, exactly the cells stored into are not as at its TRY. */
    method Retry(n: nat, alt: int, ghost f: Frame)
      requires Standing(mem[..], tt, bb, f) && n + CHOICE_SIZE <= bb && bb + n < f.tt - 1
      modifies mem, `st, `tt, `gl, `cf, `af, `b0, `dead, `frames
      ensures mem[..] == RetriedBlock(old(mem[..]), old(tt), f, n, alt)
      ensures st == af == bb + n && tt == f.tt - 1 && gl == bb && cf == f.cf && b0 == f.b0 && dead == f.dead
      ensures old(Valid()) && Newest(old(frames), f) ==> Valid() && Retries(old(Now()), Now(), n, alt)
      ensures !Newest(old(frames), f) ==> frames == old(frames)
    {
      ghost var s := Now();
      RetryAt(n, alt, f);
      Retried(s, n, alt, f);
    }

    /** What a retry does to the block and the registers. */
    method RetryAt(n: nat, alt: int, ghost f: Frame)
      requires Standing(mem[..], tt, bb, f) && n + CHOICE_SIZE <= bb && bb + n < f.tt - 1
      modifies mem, `st, `tt, `gl, `cf, `af, `b0, `dead
      ensures mem[..] == RetriedBlock(old(mem[..]), old(tt), f, n, alt)
      ensures st == af == bb + n && tt == f.tt - 1 && gl == bb && cf == f.cf && b0 == f.b0 && dead == f.dead
    {
      ghost var m0, tt0 := mem[..], tt;
      Resume(f);
      NextTry(n, alt, m0, tt0, f);
    }

    /** The frame, if it has not been cut, gets its next alternative. */
    ghost method Retried(s: Machine, n: nat, alt: int, f: Frame)
      requires Standing(s.m, s.tt, s.bb, f) && n + CHOICE_SIZE <= s.bb && s.bb + n < f.tt - 1
      requires Now() == Machine(RetriedBlock(s.m, s.tt, f, n, alt), s.bb + n, f.tt - 1, s.bb, s.bb, s.frames)
      requires b0 == f.b0 && dead == f.dead
      modifies `frames
      ensures Inv(s) && Remembered(s.frames, saved) && Newest(s.frames, f) ==> Valid() && Retries(s, Now(), n, alt)
      ensures !Newest(s.frames, f) ==> frames == s.frames
    {
      if Newest(frames, f) {
        if Remembered(frames, saved) { RememberedRetry(frames, saved, alt); }
        frames := frames[..|frames| - 1] + [f.(alt := alt)];
        if Inv(s) { RetryKeeps(s, Now(), n, alt); }
      }
    }

    /** The frame has been resumed; its next alternative begins. */
    method NextTry(n: nat, alt: int, ghost m0: seq<Cell>, ghost tt0: nat, ghost f: Frame)
      requires f.at == bb >= CHOICE_SIZE && tt == f.tt < mem.Length && mem[..] == ResumedBlock(m0, tt0, f)
      requires n + CHOICE_SIZE <= bb && bb + n < tt - 1
      modifies mem, `st, `tt, `gl, `af
      ensures mem[..] == RetriedBlock(m0, tt0, f, n, alt) && st == af == bb + n && tt == f.tt - 1 && gl == bb
    {
      mem[bb - 5] := Int(alt);
      st := bb;
      gl := st;
      mem[tt] := Str(gl);
      tt := tt - 1;
      ghost var m := mem[..];
      af := st - (CHOICE_SIZE + n);
      Mirror(n);
      RetriedSteps(m0, tt0, f, n, alt, m, mem[..]);
    }

    /** TRUST: so it is here, and the frame is gone; its arguments are on top. */
    method Trust(ghost f: Frame)
      requires Standing(mem[..], tt, bb, f)
      modifies mem, `st, `tt, `bb, `gl, `cf, `af, `b0, `dead, `frames, `saved
      ensures mem[..] == ResumedBlock(old(mem[..]), old(tt), f)
      ensures st == af == f.at - CHOICE_SIZE && tt == f.tt && bb == f.prev && gl == f.gl && cf == f.cf && b0 == f.b0
      ensures dead == f.dead
      ensures old(Valid()) && Newest(old(frames), f) ==>
        Valid() && Trusts(old(Now()), Now()) && saved == old(saved)[..|frames|]
      ensures !Newest(old(frames), f) ==> frames == old(frames) && saved == old(saved)
    {
      ghost var s := Now();
      TrustAt(f);
      Trusted(s, f);
    }

    /** What a trust does to the block and the registers. */
    method TrustAt(ghost f: Frame)
      requires Standing(mem[..], tt, bb, f)
      modifies mem, `st, `tt, `bb, `gl, `cf, `af, `b0, `dead
      ensures mem[..] == ResumedBlock(old(mem[..]), old(tt), f)
      ensures st == af == f.at - CHOICE_SIZE && tt == f.tt && bb == f.prev && gl == f.gl && cf == f.cf && b0 == f.b0
      ensures dead == f.dead
    {
      Resume(f);
      Leave(f);
    }

    /** The registers are as the frame f has them. */
    method Leave(ghost f: Frame)
      requires FieldsAt(mem[..], f) && f.at == bb
      modifies `st, `bb, `gl, `af
      ensures st == af == f.at - CHOICE_SIZE && bb == f.prev && gl == f.gl
    {
      gl := mem[bb - 6].i;
      st := bb - CHOICE_SIZE;
      af := st;
      bb := mem[bb - 3].i;
    }

    /** The frame, if it has not been cut, is given up. */
    ghost method Trusted(s: Machine, f: Frame)
      requires Standing(s.m, s.tt, s.bb, f) && b0 == f.b0 && dead == f.dead
      requires Now() == Machine(ResumedBlock(s.m, s.tt, f), f.at - CHOICE_SIZE, f.tt, f.prev, f.gl, s.frames)
      modifies `frames, `saved
      ensures Inv(s) && Remembered(s.frames, old(saved)) && Newest(s.frames, f) ==>
        Valid() && Trusts(s, Now()) && saved == old(saved)[..|frames|]
      ensures !Newest(s.frames, f) ==> frames == s.frames && saved == old(saved)
    {
      if Newest(frames, f) {
        if Remembered(frames, saved) {
          RememberedCut(frames, saved, |frames| - 1);
          saved := saved[..|frames| - 1];
        }
        frames := frames[..|frames| - 1];
        if Inv(s) { TrustKeeps(s, Now()); }
      }
    }

    /** RETRY of a frame that has not been cut. */
    method RetryNewest(n: nat, alt: int)
      requires Valid() && frames != [] && n + CHOICE_SIZE <= bb && bb + n < frames[|frames| - 1].tt - 1
      modifies mem, `st, `tt, `gl, `cf, `af, `b0, `dead, `frames
      ensures Valid() && Retries(old(Now()), Now(), n, alt) && af == st
      ensures var r := LastSaved(saved); cf == r.cf && b0 == r.b0 && dead == r.dead && tt == r.tt - 1 && gl == bb
    {
      NewestStands(Now());
      LastRemembered(frames, saved);
      Retry(n, alt, frames[|frames| - 1]);
    }

    /** TRUST of a frame that has not been cut. */
    method TrustNewest()
      requires Valid() && frames != []
      modifies mem, `st, `tt, `bb, `gl, `cf, `af, `b0, `dead, `frames, `saved
      ensures Valid() && Trusts(old(Now()), Now()) && af == st && saved == old(saved)[..|frames|]
      ensures var r := LastSaved(old(saved));
        && cf == r.cf && b0 == r.b0 && dead == r.dead && tt == r.tt && bb == r.bb && gl == r.gl && st + 1 == |r.cells|
    {
      NewestStands(Now());
      LastRemembered(frames, saved);
      Trust(frames[|frames| - 1]);
    }

    lemma CutBack(s: Live, m: seq<Cell>, tt: nat, b0: nat, rs: seq<Saved>) returns (fs: seq<Frame>)
      requires Remembered(s.frames, rs)
      requires s.bb > b0 && Barred(s.frames, b0, false, s.st) && s.frames != []
      requires var f := s.frames[|s.frames| - 1]; Filtered(s.m, m, s.tt, tt, f.tt, f.gl)
      ensures Inv(Machine(m, s.st, tt, b0, s.frames[|s.frames| - 1].gl, fs)) && Barred(fs, b0, false, s.st)
      ensures fs < s.frames && Before(fs, |fs|) == b0 && Remembered(fs, rs[..|fs|])
    {
      var j: nat :| j <= |s.frames| && Before(s.frames, j) == b0;
      var t := FilterCut(s, j, m, tt);
      PointCut(s, j, b0);
      RememberedCut(s.frames, rs, j);
      fs := s.frames[..j];
    }

    /** NECKCUT: the choice points above b0 are given up, and the trail loses what only they needed.  The choice point
        then is one of those made before, and what that means is kept, if and only if no DEEPCUT has gone below b0 in
        between. */
    method NeckCut()
      requires Valid()
      modifies mem, `tt, `bb, `gl, `frames, `saved
      ensures old(bb) <= b0 ==> unchanged(mem, `tt, `bb, `gl, `frames)
      ensures old(bb) > b0 ==> bb == b0 && FilteredBack(old(Now()), Now())
      ensures Valid() <==> old(bb) <= b0 || !dead
      ensures if old(bb) <= b0 || dead then frames == old(frames)
              else frames < old(frames) && Before(frames, |frames|) == b0
      ensures |frames| <= |old(saved)| && saved == old(saved)[..|frames|]
    {
      if bb > b0 { CutChoices(); }
    }

    method CutChoices()
      requires Valid() && bb > b0
      modifies mem, `tt, `bb, `gl, `frames, `saved
      ensures bb == b0 && FilteredBack(old(Now()), Now()) && (Valid() <==> !dead)
      ensures if dead then frames == old(frames) else frames < old(frames) && Before(frames, |frames|) == b0
      ensures |frames| <= |old(saved)| && saved == old(saved)[..|frames|]
    {
      ghost var s0: Live := Now();
      CutTrail();
      bb := b0;
      if !dead {
        frames := CutBack(s0, mem[..], tt, b0, saved);
        saved := saved[..|frames|];
      }
    }

    /** The trail is filtered for the newest frame, and its generation line comes back. */
    method CutTrail()
      requires Inv(Now()) && frames != []
      modifies mem, `tt, `gl
      ensures FilteredBack(old(Now()), Now())
    {
      NewestFields(Now());
      TrailAtFrame(Now());
      gl := mem[bb - 6].i;
      tt := FilterTrail(mem, tt, mem[bb - 2].i, gl);
    }

    lemma TrailAtFrame(s: Live)
      requires s.frames != []
      ensures s.tt <= LastFrame(s.frames).tt < |s.m|
    {
      assert FrameOK(s, |s.frames| - 1);
    }

    /** DEEPLABEL: the cut barrier is kept in a cell of the environment. */
    method DeepLabel(n: nat)
      requires Valid() && 0 <= af - n <= st && Clear(frames, |frames|, af - n)
      modifies mem, `frames
      ensures Valid() && mem[..] == old(mem[..])[af - n := Int(b0)] && frames == StoredTo(old(frames), af - n)
    {
      SetCell(n, Int(b0));
    }

    /** DEEPCUT: the choice points above the barrier that the cell holds are given up; the trail keeps all its entries.
        */
    method DeepCut(n: nat)
      requires Valid() && 0 <= af - n <= st && mem[af - n].Int? && mem[af - n].i >= 0
      modifies `bb, `frames, `dead, `saved
      ensures bb == mem[af - n].i && (dead <==> old(dead) || bb < b0)
      ensures Valid() <==> IsPoint(old(frames), |old(frames)|, bb)
      ensures if Valid() then frames <= old(frames) && Before(frames, |frames|) == bb else frames == old(frames)
      ensures |frames| <= |old(saved)| && saved == old(saved)[..|frames|]
    {
      ghost var s: Live := Now();
      bb := mem[af - n].i;
      dead := dead || bb < b0;
      if IsPoint(frames, |frames|, bb) {
        ghost var j: nat :| j <= |frames| && Before(frames, j) == bb;
        BeforeOrdered(s, j, |frames|);
        s := CutTo(s, j, st, gl);
        PointCut(old(Now()), j, b0);
        RememberedCut(frames, saved, j);
        frames, saved := frames[..j], saved[..j];
      } else {
        assert Before(frames, |frames|) != bb;
      }
    }
  }

  /** A TRY and the TRUST of its frame leave the engine as it was, but for the dead cells above the stack. */
  method TryAndTrust(e: Engine, n: nat, alt: int)
    requires e.Valid() && e.st + CHOICE_SIZE + n < e.tt - 1
    requires STACK_BASE <= e.cf && e.cf + n <= e.st && e.mem[e.cf - 1].Int? && Clear(e.frames, |e.frames|, e.cf - 1)
    modifies e, e.mem
    ensures e.Valid() && e.mem == old(e.mem) && e.mem[..e.st + 1] == old(e.mem[..e.st + 1])
    ensures e.st == e.af == old(e.st) && e.tt == old(e.tt) && e.bb == old(e.bb) && e.gl == old(e.gl)
    ensures e.b0 == old(e.b0) && e.dead == old(e.dead) && e.cf == old(e.cf) && e.saved == old(e.saved)
  {
    e.Try(n, alt);
    ghost var s, rs := e.Now(), e.saved;
    e.TrustNewest();
    TrustsGiveBack(s, e.Now(), rs);
  }

  /** Continuations are the one thing a retry does not restore, except the newest frame's caller's own: a clause calls
      p, p calls q, which leaves a choice point, and p is left by a last call; when the clause makes its next call, its
      continuation slot is overwritten for good.  before is the slot at q's TRY, after the same slot after the RETRY. */
  method ContinuationLost() returns (before: Cell, after: Cell, was: Cell)
    ensures before == Int(100) && was == after == Int(300)
  {
    var e := InnerCall();
    e.Try(0, 7);
    before := e.mem[3];
    e.Proceed();
    e.LastCall();
    e.Proceed();
    was, after := NextCall(e);
  }

  /** Nor does it restore the cells that put and set instructions have stored into: a clause calls p, which leaves a
      choice point, and sets a cell of its environment for its next goal, which fails.  before is the cell at p's TRY,
      after the same cell after the RETRY. */
  method StoreLost() returns (before: Cell, after: Cell)
    ensures before == Int(0) && after == Con(130, 1)
  {
    var e := FirstGoal();
    e.Try(0, 7);
    before := e.mem[2];
    e.Proceed();
    after := NextGoal(e);
  }

  /** The clause has called p, with the cell at 2 of its environment at 5 not yet in use. */
  method FirstGoal() returns (e: Engine)
    ensures fresh(e) && fresh(e.mem) && e.Valid() && e.mem.Length == 64 && e.frames == []
    ensures e.st == 5 && e.tt == 62 && e.cf == 5 && e.bb == e.gl == e.b0 == STACK_BASE
    ensures e.mem[2] == Int(0) && e.mem[4] == Int(100)
  {
    e := new Engine(64);
    e.Alloa(4);
    e.SetCell(3, Int(0));
    e.Call(100);
  }

  /** Back in the clause's environment at 5, the cell at 2 becomes a functor, and the goal fails. */
  method NextGoal(e: Engine) returns (after: Cell)
    requires e.Valid() && |e.frames| == 1 && e.bb == e.frames[0].at == 12 && e.st == 12 && e.af == 5
    requires e.mem.Length == 64
    requires e.frames[0].tt == e.tt + 1 == 62 && e.frames[0].cf == 5 && e.frames[0].n == 0 && |e.frames[0].snap| == 6
    requires e.mem[62].Str?
    modifies e, e.mem
    ensures after == Con(130, 1)
  {
    assert !IsField(e.frames, 0, 2);
    e.SetCell(3, Con(130, 1));
    e.NewestFrame();
    assert !InTrail(e.mem[..], e.tt, 62, 2);
    e.Retry(0, 8, e.frames[0]);
    after := e.mem[2];
  }

  /** The clause has called p with its continuation 100 in slot 3, and p has called q. */
  method InnerCall() returns (e: Engine)
    ensures fresh(e) && fresh(e.mem) && e.Valid() && e.mem.Length == 64 && e.frames == []
    ensures e.st == 7 && e.tt == 62 && e.cf == 7 && e.bb == e.gl == e.b0 == STACK_BASE
    ensures e.mem[3] == Int(100) && e.mem[4] == Int(STACK_BASE) && e.mem[6] == Int(200) && e.mem[7] == Int(4)
  {
    e := new Engine(64);
    e.Alloa(3);
    e.Call(100);
    e.Alloa(3);
    e.Call(200);
  }

  /** Back in the clause's environment at 4, the next call overwrites the slot, and fails. */
  method NextCall(e: Engine) returns (was: Cell, after: Cell)
    requires e.Valid() && |e.frames| == 1 && e.bb == e.frames[0].at == 14 && e.st == 14 && e.af == 4
    requires e.mem.Length == 64
    requires e.frames[0].tt == 62 == e.tt + 1 && e.mem[62].Str? && e.frames[0].cf == 7
    requires |e.frames[0].snap| == 8 && e.frames[0].snap[3] == Int(100) && e.frames[0].n == 0
    modifies e, e.mem
    ensures was == after == Int(300)
  {
    assert !IsField(e.frames, 0, 3);
    e.Call(300);
    was := e.mem[3];
    e.NewestFrame();
    assert !InTrail(e.mem[..], e.tt, 62, 3);
    e.Retry(0, 8, e.frames[0]);
    after := e.mem[3];
  }
}
