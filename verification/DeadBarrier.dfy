// A cut that goes back to a choice point which another cut has given up: a run of the engine's instructions.
module DeadBarrier {
  import opened Terms
  import opened ChoiceState
  import opened ChoicePoints

  /** The frame that b's first clause leaves: its address is 13, its caller's environment at 6. */
  ghost predicate Tried(f: Frame) {
    f.at == 13 && f.tt == 62 && f.cf == 6 && f.b0 == 1 && f.n == 0 && |f.snap| == 7 && f.snap[2] == Ref(2)
  }

  /** The clause a :- b(X), !, X = 9, c has its environment at 6, with X at 2 and the barrier at 3, and calls b. */
  method Clause() returns (e: Engine)
    ensures fresh(e) && fresh(e.mem) && e.Valid() && e.mem.Length == 64 && e.frames == []
    ensures e.st == 6 && e.tt == 62 && e.cf == 6 && e.bb == e.gl == e.b0 == 1 && !e.dead
    ensures e.mem[2] == Ref(2) && e.mem[3] == Int(1) && e.mem[5] == Int(100)
  {
    e := new Engine(64);
    e.Alloa(5);
    e.SetVar(4);
    e.DeepLabel(3);
    e.Call(100);
  }

  /** b has two clauses. */
  method Choice() returns (e: Engine, ghost f: Frame)
    ensures fresh(e) && fresh(e.mem) && e.Valid() && e.mem.Length == 64 && e.frames == [f] && Tried(f)
    ensures e.st == 13 && e.tt == 61 && e.cf == 6 && e.bb == e.gl == 13 && e.b0 == 1
    ensures e.mem[2] == Ref(2) && e.mem[3] == Int(1) && e.mem[62] == Str(13) && FieldsAt(e.mem[..], f)
  {
    e := Clause();
    e.Try(0, 7);
    f := e.frames[0];
    e.NewestFrame();
  }

  /** The first ends in a last call, which sets the barrier to 13, of a predicate that returns to the clause. */
  method LastGoal(e: Engine, ghost f: Frame)
    requires e.Valid() && e.mem.Length == 64 && e.frames == [f] && Tried(f)
    requires e.st == 13 && e.tt == 61 && e.cf == 6 && e.bb == e.gl == 13
    requires e.mem[2] == Ref(2) && e.mem[3] == Int(1) && e.mem[62] == Str(13) && FieldsAt(e.mem[..], f)
    modifies e, e.mem
    ensures e.mem == old(e.mem) && e.Valid() && e.frames == [f] && e.st == 16 && e.tt == 61 && e.cf == e.af == 6
    ensures e.bb == e.gl == e.b0 == 13 && !e.dead
    ensures e.mem[2] == Ref(2) && e.mem[3] == Int(1) && e.mem[62] == Str(13) && FieldsAt(e.mem[..], f)
  {
    e.Alloa(3);
    e.LastCall();
    e.Proceed();
    e.NewestFrame();
  }

  /** The cut gives up the choice point 13, which is the barrier still.  X is bound without a trail entry. */
  method Cut(e: Engine, ghost f: Frame)
    requires e.Valid() && e.mem.Length == 64 && e.frames == [f] && Tried(f) && e.st == 16 && e.tt == 61
    requires e.cf == e.af == 6
    requires e.bb == e.gl == e.b0 == 13 && !e.dead
    requires e.mem[2] == Ref(2) && e.mem[3] == Int(1) && e.mem[62] == Str(13) && FieldsAt(e.mem[..], f)
    modifies e, e.mem
    ensures e.mem == old(e.mem) && e.Valid() && e.frames == [] && e.st == 16 && e.tt == 61 && e.af == 6
    ensures e.bb == 1 && e.gl == e.b0 == 13 && e.dead && !IsPoint(e.frames, 0, e.b0)
    ensures e.mem[2] == Int(9) && e.mem[62] == Str(13) && FieldsAt(e.mem[..], f)
  {
    assert Before(e.frames, 0) == 1;
    e.DeepCut(3);
    e.Bind(2, Int(9));
  }

  /** c has two clauses, the first of which cuts. */
  method Revive(e: Engine, ghost f: Frame)
    requires e.Valid() && e.mem.Length == 64 && e.frames == [] && Tried(f) && e.st == 16 && e.tt == 61 && e.af == 6
    requires e.bb == 1 && e.gl == e.b0 == 13 && e.dead
    requires e.mem[2] == Int(9) && e.mem[62] == Str(13) && FieldsAt(e.mem[..], f)
    modifies e, e.mem
    ensures e.mem == old(e.mem) && !e.Valid() && e.bb == 13 && e.tt == 61 && !Newest(e.frames, f)
    ensures e.mem[2] == Int(9) && e.mem[62] == Str(13) && FieldsAt(e.mem[..], f)
  {
    e.Call(200);
    e.Try(0, 8);
    Neck(e, f);
  }

  method Neck(e: Engine, ghost f: Frame)
    requires e.Valid() && e.mem.Length == 64 && |e.frames| == 1 && e.frames[0].at == 23 && e.frames[0].tt == 61
    requires e.frames[0].gl == 13
    requires e.bb == 23 && e.tt == 60 && e.b0 == 13 && e.dead && e.st == 23 && e.mem[61] == Str(23)
    requires e.mem[2] == Int(9) && e.mem[62] == Str(13) && Tried(f) && FieldsAt(e.mem[..], f)
    modifies e, e.mem
    ensures e.mem == old(e.mem) && !e.Valid() && e.bb == 13 && e.tt == 61 && e.frames == old(e.frames)
    ensures e.mem[2] == Int(9) && e.mem[62] == Str(13) && FieldsAt(e.mem[..], f)
  {
    ghost var m := e.mem[..];
    e.NeckCut();
    assert forall c :: Among(m, 60, 61, c) ==> c == Str(23);
    assert 60 < 61 <= 61 && e.mem[61] == e.mem[..][61];
  }

  lemma NotRestored(m: seq<Cell>, f: Frame)
    requires |m| == 64 && m[2] == Int(9) && m[62] == Str(13) && Tried(f) && FieldsAt(m, f)
    ensures Standing(m, 61, 13, f) && RetriedBlock(m, 61, f, 0, 8)[2] == Int(9)
  {
    assert !InTrail(m, 61, 62, 2);
  }

  /** When c fails now, the engine is back at the choice point 13, although the clause has cut it: the next alternative
      of b is tried, and X, which was unbound at b's TRY, is not restored. */
  method AlternativeRevived() returns (point: nat, before: Cell, after: Cell)
    ensures point == 13 && before == Ref(2) && after == Int(9)
  {
    var e;
    ghost var f;
    e, f := Choice();
    before := e.mem[2];
    LastGoal(e, f);
    Cut(e, f);
    Revive(e, f);
    NotRestored(e.mem[..], f);
    e.Retry(0, 8, f);
    point, after := e.bb, e.mem[2];
  }
}
