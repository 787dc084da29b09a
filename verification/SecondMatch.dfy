// The messenger's side of a message.  Once the receiver's message rs has been unified with a copy of the
// messenger's message ms, the messenger's message is unified with a copy of rs, and whether that succeeds is not
// looked at, since it must.  It must exactly if no variable occurs twice in ms and all its symbols are where the
// messenger's table of names has them first.
module SecondMatch {
  import opened Terms
  import opened NameTable
  import opened CopyMeaning
  import opened Substitution
  import opened UnifySteps
  import opened MsgUnify

  /** What copy_arg makes of t, with its symbols in the table tn, on a stack where other lives: the same shape, with its
      symbols in the table un, every variable fresh and once. */
  ghost predicate CopyOf(u: Term, un: seq<char>, t: Term, tn: seq<char>, other: Term) {
    ShapeOf(u, un) == ShapeOf(t, tn) && Spelled(u, un) && Linear(u) && Separate(other, u)
  }

  /** Whatever the receiver's message and its table are, and what the second copy adds to the messenger's table mn: if
      the receiver's message has been unified with the copy of ms, then ms can be unified with the copy of it. */
  ghost predicate SecondMustSucceed(ms: Term, mn: seq<char>) {
    forall rs, rn, u, v, more {:trigger CopyOf(u, rn, ms, mn, rs), CopyOf(v, more, rs, rn, ms)} ::
      mn <= more && CopyOf(u, rn, ms, mn, rs) && CopyOf(v, more, rs, rn, ms) && !Hopeless(rs, u) ==> !Hopeless(ms, v)
  }

  /** t with its variables instantiated by g. */
  predicate Over(t: Term, g: Term)
    decreases t
  {
    match t
    case Var(_) => true
    case Const(_) => g == t
    case Pair(x, y) => g.Pair? && Over(x, g.head) && Over(y, g.tail)
    case Compound(f, args) => g.Compound? && g.f == f && AllOver(args, g.args)
    case Real(_, _) => g == t
  }

  predicate AllOver(ts: seq<Term>, gs: seq<Term>)
    decreases ts
  {
    |ts| == |gs| && (ts != [] ==> Over(ts[0], gs[0]) && AllOver(ts[1..], gs[1..]))
  }

  /** The terms that stand in g where t has variables. */
  function Match(t: Term, g: Term): (th: map<nat, Term>)
    requires Over(t, g)
    ensures th.Keys == set v | v in Occurrences(t)
    decreases t
  {
    match t
    case Var(a) => map[a := g]
    case Const(_) => map[]
    case Pair(x, y) => Match(x, g.head) + Match(y, g.tail)
    case Compound(_, args) => MatchAll(args, g.args)
    case Real(_, _) => map[]
  }

  function MatchAll(ts: seq<Term>, gs: seq<Term>): (th: map<nat, Term>)
    requires AllOver(ts, gs)
    ensures th.Keys == set v | v in ArgOccurrences(ts)
    decreases ts
  {
    if ts == [] then map[] else Match(ts[0], gs[0]) + MatchAll(ts[1..], gs[1..])
  }

  /** The assignments agree on the variables vs. */
  ghost predicate AgreeOn(th: map<nat, Term>, ph: map<nat, Term>, vs: seq<nat>) {
    forall v {:trigger v in vs} :: v in vs ==> v in th && v in ph && th[v] == ph[v]
  }

  lemma AgreeOnParts(th: map<nat, Term>, ph: map<nat, Term>, xs: seq<nat>, ys: seq<nat>)
    requires AgreeOn(th, ph, xs + ys)
    ensures AgreeOn(th, ph, xs) && AgreeOn(th, ph, ys)
  {
    assert forall v :: v in xs || v in ys ==> v in xs + ys;
  }

  lemma {:induction false} ApplyAgrees(th: map<nat, Term>, ph: map<nat, Term>, t: Term)
    requires AgreeOn(th, ph, Occurrences(t))
    ensures Apply(th, t) == Apply(ph, t)
  {
    match t
    case Var(a) => assert a in Occurrences(t);
    case Pair(x, y) =>
      AgreeOnParts(th, ph, Occurrences(x), Occurrences(y));
      ApplyAgrees(th, ph, x);
      ApplyAgrees(th, ph, y);
    case Compound(_, args) => ApplyArgsAgree(th, ph, args);
    case _ =>
  }

  lemma {:induction false} ApplyArgsAgree(th: map<nat, Term>, ph: map<nat, Term>, ts: seq<Term>)
    requires AgreeOn(th, ph, ArgOccurrences(ts))
    ensures ApplyArgs(th, ts) == ApplyArgs(ph, ts)
  {
    if ts != [] {
      AgreeOnParts(th, ph, Occurrences(ts[0]), ArgOccurrences(ts[1..]));
      ApplyAgrees(th, ph, ts[0]);
      ApplyArgsAgree(th, ph, ts[1..]);
    }
  }

  lemma Disjoint(xs: seq<nat>, ys: seq<nat>, v: nat)
    requires NoRepeat(xs + ys)
    ensures NoRepeat(xs) && NoRepeat(ys) && !(v in xs && v in ys)
  {
    JoinedLinear(xs, ys);
  }

  lemma UnionAgrees(th: map<nat, Term>, ph: map<nat, Term>, xs: seq<nat>, ys: seq<nat>)
    requires th.Keys == (set v | v in xs) && ph.Keys == set v | v in ys
    requires forall v {:trigger v in xs} {:trigger v in ys} :: !(v in xs && v in ys)
    ensures AgreeOn(th + ph, th, xs) && AgreeOn(th + ph, ph, ys)
  {
  }

  /** A linear term matches everything it is over. */
  lemma {:induction false} LinearMatches(t: Term, g: Term)
    requires Linear(t) && Over(t, g)
    ensures Apply(Match(t, g), t) == g
    decreases t
  {
    match t
    case Pair(x, y) =>
      forall v ensures !(v in Occurrences(x) && v in Occurrences(y)) { Disjoint(Occurrences(x), Occurrences(y), v); }
      Disjoint(Occurrences(x), Occurrences(y), 0);
      LinearMatches(x, g.head);
      LinearMatches(y, g.tail);
      UnionAgrees(Match(x, g.head), Match(y, g.tail), Occurrences(x), Occurrences(y));
      ApplyAgrees(Match(t, g), Match(x, g.head), x);
      ApplyAgrees(Match(t, g), Match(y, g.tail), y);
    case Compound(_, args) => LinearMatchesAll(args, g.args);
    case _ =>
  }

  lemma {:induction false} LinearMatchesAll(ts: seq<Term>, gs: seq<Term>)
    requires NoRepeat(ArgOccurrences(ts)) && AllOver(ts, gs)
    ensures ApplyArgs(MatchAll(ts, gs), ts) == gs
    decreases ts
  {
    if ts != [] {
      var xs, ys := Occurrences(ts[0]), ArgOccurrences(ts[1..]);
      forall v ensures !(v in xs && v in ys) { Disjoint(xs, ys, v); }
      Disjoint(xs, ys, 0);
      LinearMatches(ts[0], gs[0]);
      LinearMatchesAll(ts[1..], gs[1..]);
      UnionAgrees(Match(ts[0], gs[0]), MatchAll(ts[1..], gs[1..]), xs, ys);
      ApplyAgrees(MatchAll(ts, gs), Match(ts[0], gs[0]), ts[0]);
      ApplyArgsAgree(MatchAll(ts, gs), MatchAll(ts[1..], gs[1..]), ts[1..]);
    }
  }

  ghost predicate Spells(names: seq<char>, f: nat, y: Symbol) {
    Canonical(names, f) && SymbolOf(names, f) == y
  }

  /** The symbol of the table that is called y, if there is one. */
  ghost function Index(names: seq<char>, y: Symbol): nat {
    if exists f: nat :: Spells(names, f, y) then var f: nat :| Spells(names, f, y); f else 0
  }

  lemma IndexIs(names: seq<char>, f: nat, y: Symbol)
    requires Spells(names, f, y)
    ensures Index(names, y) == f
  {
    CanonicalUnique(names, f, Index(names, y));
  }

  /** t with the symbols of the table fs replaced by those of the table ts. */
  ghost function Respelled(t: Term, fs: seq<char>, ts: seq<char>): Term {
    match t
    case Const(c) => if c.Con? then Const(Con(Index(ts, SymbolOf(fs, c.f)), 0)) else t
    case Pair(x, y) => Pair(Respelled(x, fs, ts), Respelled(y, fs, ts))
    case Compound(f, args) => Compound(Index(ts, SymbolOf(fs, f)), AllRespelled(args, fs, ts))
    case _ => t
  }

  ghost function AllRespelled(us: seq<Term>, fs: seq<char>, ts: seq<char>): (r: seq<Term>)
    ensures |r| == |us|
  {
    if us == [] then [] else [Respelled(us[0], fs, ts)] + AllRespelled(us[1..], fs, ts)
  }

  /** t is over every instance of a term of the same shape, once that is spelled as t is. */
  lemma {:induction false} OverInstance(t: Term, tn: seq<char>, u: Term, un: seq<char>, th: map<nat, Term>)
    requires ShapeOf(t, tn) == ShapeOf(u, un) && Spelled(t, tn)
    ensures Over(t, Respelled(Apply(th, u), un, tn))
    decreases t
  {
    match t
    case Const(c) => if c.Con? { IndexIs(tn, c.f, SymbolOf(tn, c.f)); }
    case Pair(x, y) => OverInstance(x, tn, u.head, un, th); OverInstance(y, tn, u.tail, un, th);
    case Compound(f, args) =>
      IndexIs(tn, f, SymbolOf(tn, f));
      OverInstances(args, tn, u.args, un, th);
    case _ =>
  }

  lemma {:induction false} OverInstances(ts: seq<Term>, tn: seq<char>, us: seq<Term>, un: seq<char>, th: map<nat, Term>)
    requires ShapesOf(ts, tn) == ShapesOf(us, un) && AllSpelled(ts, tn)
    ensures AllOver(ts, AllRespelled(ApplyArgs(th, us), un, tn))
    decreases ts
  {
    assert |ts| == |us|;
    if ts != [] {
      assert ShapesOf(ts, tn)[0] == ShapesOf(us, un)[0] && ShapesOf(ts, tn)[1..] == ShapesOf(us, un)[1..];
      OverInstance(ts[0], tn, us[0], un, th);
      OverInstances(ts[1..], tn, us[1..], un, th);
      var gs := ApplyArgs(th, us);
      assert gs[1..] == ApplyArgs(th, us[1..]);
      assert AllRespelled(gs, un, tn)[1..] == AllRespelled(gs[1..], un, tn);
    }
  }

  /** If ms has no variable twice and its symbols are found, the second unification succeeds after the first. */
  lemma LinearSucceeds(ms: Term, mn: seq<char>, rs: Term, rn: seq<char>, u: Term, v: Term, more: seq<char>)
    requires Linear(ms) && Spelled(ms, mn) && Terminated(mn) && mn <= more
    requires CopyOf(u, rn, ms, mn, rs) && CopyOf(v, more, rs, rn, ms) && !Hopeless(rs, u)
    ensures !Hopeless(ms, v)
  {
    SpelledKept(ms, mn, more);
    var th :| Unifies(th, rs, u);
    var g := Respelled(Apply(th, u), rn, more);
    OverInstance(ms, more, u, rn, th);
    OverInstance(v, more, rs, rn, th);
    BothMatch(ms, v, g);
  }

  /** Linear terms that share no variable unify if something is over both. */
  lemma BothMatch(s: Term, t: Term, g: Term)
    requires Linear(s) && Linear(t) && Separate(s, t) && Over(s, g) && Over(t, g)
    ensures !Hopeless(s, t)
  {
    var a, b := Match(s, g), Match(t, g);
    LinearMatches(s, g);
    LinearMatches(t, g);
    UnionAgrees(a, b, Occurrences(s), Occurrences(t));
    ApplyAgrees(a + b, a, s);
    ApplyAgrees(a + b, b, t);
    assert Unifies(a + b, s, t);
  }

  /** t with its variables replaced, from left to right, by the integers from k on, or by the variables from k on. */
  function Filled(t: Term, k: nat, ground: bool): Term {
    match t
    case Var(_) => if ground then Const(Int(k)) else Var(k)
    case Const(_) => t
    case Pair(x, y) => Pair(Filled(x, k, ground), Filled(y, k + |Occurrences(x)|, ground))
    case Compound(f, args) => Compound(f, FilledArgs(args, k, ground))
    case Real(_, _) => t
  }

  function FilledArgs(ts: seq<Term>, k: nat, ground: bool): (r: seq<Term>)
    ensures |r| == |ts|
  {
    if ts == [] then [] else
    [Filled(ts[0], k, ground)] + FilledArgs(ts[1..], k + |Occurrences(ts[0])|, ground)
  }

  /** The occurrences that the filled term has: none, or each variable from k on once. */
  ghost function Range(k: nat, n: nat, ground: bool): (r: seq<nat>)
    ensures !ground ==> |r| == n && forall i :: 0 <= i < n ==> r[i] == k + i
    ensures ground ==> r == []
  {
    if ground then [] else seq(n, i requires 0 <= i < n => k + i)
  }

  lemma {:induction false} FilledOccurrences(t: Term, k: nat, ground: bool)
    ensures Occurrences(Filled(t, k, ground)) == Range(k, |Occurrences(t)|, ground)
  {
    match t
    case Pair(x, y) => FilledOccurrences(x, k, ground); FilledOccurrences(y, k + |Occurrences(x)|, ground);
    case Compound(_, args) => FilledArgOccurrences(args, k, ground);
    case _ =>
  }

  lemma {:induction false} FilledArgOccurrences(ts: seq<Term>, k: nat, ground: bool)
    ensures ArgOccurrences(FilledArgs(ts, k, ground)) == Range(k, |ArgOccurrences(ts)|, ground)
  {
    if ts != [] {
      FilledOccurrences(ts[0], k, ground);
      FilledArgOccurrences(ts[1..], k + |Occurrences(ts[0])|, ground);
      assert FilledArgs(ts, k, ground)[1..] == FilledArgs(ts[1..], k + |Occurrences(ts[0])|, ground);
    }
  }

  lemma {:induction false} FilledShape(t: Term, k: nat, names: seq<char>)
    ensures ShapeOf(Filled(t, k, false), names) == ShapeOf(t, names)
    decreases t
  {
    match t
    case Pair(x, y) => FilledShape(x, k, names); FilledShape(y, k + |Occurrences(x)|, names);
    case Compound(_, args) => FilledShapes(args, k, names);
    case _ =>
  }

  lemma {:induction false} FilledShapes(ts: seq<Term>, k: nat, names: seq<char>)
    ensures ShapesOf(FilledArgs(ts, k, false), names) == ShapesOf(ts, names)
    decreases ts
  {
    if ts != [] {
      FilledShape(ts[0], k, names);
      FilledShapes(ts[1..], k + |Occurrences(ts[0])|, names);
      assert FilledArgs(ts, k, false)[1..] == FilledArgs(ts[1..], k + |Occurrences(ts[0])|, false);
    }
  }

  lemma {:induction false} FilledSpelled(t: Term, k: nat, ground: bool, names: seq<char>)
    requires Spelled(t, names)
    ensures Spelled(Filled(t, k, ground), names)
    decreases t
  {
    match t
    case Pair(x, y) => FilledSpelled(x, k, ground, names); FilledSpelled(y, k + |Occurrences(x)|, ground, names);
    case Compound(_, args) => FilledAllSpelled(args, k, ground, names);
    case _ =>
  }

  lemma {:induction false} FilledAllSpelled(ts: seq<Term>, k: nat, ground: bool, names: seq<char>)
    requires AllSpelled(ts, names)
    ensures AllSpelled(FilledArgs(ts, k, ground), names)
    decreases ts
  {
    if ts != [] {
      FilledSpelled(ts[0], k, ground, names);
      FilledAllSpelled(ts[1..], k + |Occurrences(ts[0])|, ground, names);
      assert FilledArgs(ts, k, ground)[1..] == FilledArgs(ts[1..], k + |Occurrences(ts[0])|, ground);
    }
  }

  /** The term filled with variables is over the one filled with integers. */
  lemma {:induction false} FilledOver(t: Term, k: nat, j: nat)
    ensures Over(Filled(t, k, false), Filled(t, j, true))
    decreases t
  {
    match t
    case Pair(x, y) => FilledOver(x, k, j); FilledOver(y, k + |Occurrences(x)|, j + |Occurrences(x)|);
    case Compound(_, args) => FilledAllOver(args, k, j);
    case _ =>
  }

  lemma {:induction false} FilledAllOver(ts: seq<Term>, k: nat, j: nat)
    ensures AllOver(FilledArgs(ts, k, false), FilledArgs(ts, j, true))
    decreases ts
  {
    if ts != [] {
      var n := |Occurrences(ts[0])|;
      FilledOver(ts[0], k, j);
      FilledAllOver(ts[1..], k + n, j + n);
      assert FilledArgs(ts, k, false)[1..] == FilledArgs(ts[1..], k + n, false);
      assert FilledArgs(ts, j, true)[1..] == FilledArgs(ts[1..], j + n, true);
    }
  }

  /** A term without variables is not changed. */
  lemma {:induction false} ApplyGround(th: map<nat, Term>, t: Term)
    requires Occurrences(t) == []
    ensures Apply(th, t) == t
  {
    match t
    case Pair(x, y) => ApplyGround(th, x); ApplyGround(th, y);
    case Compound(_, args) => ApplyGroundArgs(th, args);
    case _ =>
  }

  lemma {:induction false} ApplyGroundArgs(th: map<nat, Term>, ts: seq<Term>)
    requires ArgOccurrences(ts) == []
    ensures ApplyArgs(th, ts) == ts
  {
    if ts != [] { ApplyGround(th, ts[0]); ApplyGroundArgs(th, ts[1..]); }
  }

  /** All symbols of the term are indices of strings, or single characters. */
  predicate Named(t: Term, names: seq<char>)
    decreases t
  {
    match t
    case Const(c) => c.Con? ==> c.n == 0 && Begins(names, c.f)
    case Pair(x, y) => Named(x, names) && Named(y, names)
    case Compound(f, args) => Begins(names, f) && AllNamed(args, names)
    case _ => true
  }

  predicate AllNamed(ts: seq<Term>, names: seq<char>)
    decreases ts
  {
    ts != [] ==> Named(ts[0], names) && AllNamed(ts[1..], names)
  }

  predicate Begins(names: seq<char>, f: nat) {
    f < ASCII_SIZE || StartsAt(names, f - ASCII_SIZE)
  }

  /** The first of the strings that are the same is found. */
  lemma {:induction false} FirstFound(names: seq<char>, f: nat) returns (g: nat)
    requires Begins(names, f)
    ensures Spells(names, g, SymbolOf(names, f)) && Index(names, SymbolOf(names, f)) == g
    decreases f
  {
    if Canonical(names, f) {
      g := f;
      IndexIs(names, g, SymbolOf(names, f));
    } else {
      var j: nat :| StartsAt(names, j) && j < f - ASCII_SIZE && CString(names, j) == CString(names, f - ASCII_SIZE);
      g := FirstFound(names, ASCII_SIZE + j);
    }
  }

  /** A term spelled anew with the same table has its shape and its variables. */
  lemma {:induction false} RespelledSame(t: Term, names: seq<char>)
    requires Named(t, names)
    ensures var r := Respelled(t, names, names);
      ShapeOf(r, names) == ShapeOf(t, names) && Spelled(r, names) && Occurrences(r) == Occurrences(t)
    decreases t
  {
    match t
    case Const(c) => if c.Con? { var g := FirstFound(names, c.f); }
    case Pair(x, y) => RespelledSame(x, names); RespelledSame(y, names);
    case Compound(f, args) =>
      var g := FirstFound(names, f);
      AllRespelledSame(args, names);
    case _ =>
  }

  lemma {:induction false} AllRespelledSame(ts: seq<Term>, names: seq<char>)
    requires AllNamed(ts, names)
    ensures var rs := AllRespelled(ts, names, names);
      ShapesOf(rs, names) == ShapesOf(ts, names) && AllSpelled(rs, names) && ArgOccurrences(rs) == ArgOccurrences(ts)
    decreases ts
  {
    if ts != [] {
      RespelledSame(ts[0], names);
      AllRespelledSame(ts[1..], names);
      assert AllRespelled(ts, names, names)[1..] == AllRespelled(ts[1..], names, names);
    }
  }

  /** The assignment makes t the term spelled anew and with its variables numbered. */
  ghost predicate Numbers(th: map<nat, Term>, t: Term, names: seq<char>, k: nat) {
    Apply(th, t) == Filled(Respelled(t, names, names), k, true)
  }

  ghost predicate ArgNumbers(th: map<nat, Term>, ts: seq<Term>, names: seq<char>, k: nat) {
    ApplyArgs(th, ts) == FilledArgs(AllRespelled(ts, names, names), k, true)
  }

  lemma ArgNumbersStep(th: map<nat, Term>, ts: seq<Term>, names: seq<char>, k: nat)
    requires AllNamed(ts, names) && ArgNumbers(th, ts, names, k) && ts != []
    ensures Numbers(th, ts[0], names, k) && ArgNumbers(th, ts[1..], names, k + |Occurrences(ts[0])|)
  {
    var n, rs := |Occurrences(ts[0])|, AllRespelled(ts, names, names);
    RespelledSame(ts[0], names);
    assert ApplyArgs(th, ts)[0] == Apply(th, ts[0]) && FilledArgs(rs, k, true)[0] == Filled(rs[0], k, true);
    assert ApplyArgs(th, ts)[1..] == ApplyArgs(th, ts[1..]);
    assert FilledArgs(rs, k,
                      true)[1..] == FilledArgs(rs[1..], k + n, true) && rs[1..] == AllRespelled(ts[1..], names, names);
  }

  /** Then the i-th variable has become the i-th number, */
  lemma {:induction false} NumberAt(th: map<nat, Term>, t: Term, names: seq<char>, k: nat, i: nat)
    requires Named(t, names) && Numbers(th, t, names, k) && i < |Occurrences(t)|
    ensures Apply(th, Var(Occurrences(t)[i])) == Const(Int(k + i))
  {
    match t
    case Var(_) =>
    case Pair(x, y) =>
      var n := |Occurrences(x)|;
      RespelledSame(x, names);
      if i < n { NumberAt(th, x, names, k, i); } else { NumberAt(th, y, names, k + n, i - n); }
    case Compound(_, args) => ArgNumberAt(th, args, names, k, i);
  }

  lemma {:induction false} ArgNumberAt(th: map<nat, Term>, ts: seq<Term>, names: seq<char>, k: nat, i: nat)
    requires AllNamed(ts, names) && ArgNumbers(th, ts, names, k) && i < |ArgOccurrences(ts)|
    ensures Apply(th, Var(ArgOccurrences(ts)[i])) == Const(Int(k + i))
  {
    var n := |Occurrences(ts[0])|;
    ArgNumbersStep(th, ts, names, k);
    if i < n { NumberAt(th, ts[0], names, k, i); } else { ArgNumberAt(th, ts[1..], names, k + n, i - n); }
  }

  /** and t was spelled that way already. */
  lemma {:induction false} NumbersSpelled(th: map<nat, Term>, t: Term, names: seq<char>, k: nat)
    requires Named(t, names) && Numbers(th, t, names, k)
    ensures Spelled(t, names)
    decreases t
  {
    match t
    case Const(c) => if c.Con? { var g := FirstFound(names, c.f); }
    case Pair(x, y) =>
      RespelledSame(x, names);
      NumbersSpelled(th, x, names, k);
      NumbersSpelled(th, y, names, k + |Occurrences(x)|);
    case Compound(f, args) =>
      var g := FirstFound(names, f);
      ArgNumbersSpelled(th, args, names, k);
    case _ =>
  }

  lemma {:induction false} ArgNumbersSpelled(th: map<nat, Term>, ts: seq<Term>, names: seq<char>, k: nat)
    requires AllNamed(ts, names) && ArgNumbers(th, ts, names, k)
    ensures AllSpelled(ts, names)
    decreases ts
  {
    if ts != [] {
      ArgNumbersStep(th, ts, names, k);
      NumbersSpelled(th, ts[0], names, k);
      ArgNumbersSpelled(th, ts[1..], names, k + |Occurrences(ts[0])|);
    }
  }

  /** A receiver that expects ms spelled anew, with numbers for its variables. */
  lemma Numbered(ms: Term, mn: seq<char>) returns (rs: Term, u: Term)
    requires Named(ms, mn)
    ensures rs == Filled(Respelled(ms, mn, mn), 0, true) && Occurrences(rs) == []
    ensures CopyOf(u, mn, ms, mn, rs) && CopyOf(rs, mn, rs, mn, ms) && !Hopeless(rs, u)
  {
    var r := Respelled(ms, mn, mn);
    RespelledSame(ms, mn);
    rs, u := Filled(r, 0, true), Filled(r, 0, false);
    FilledOccurrences(r, 0, true);
    FilledOccurrences(r, 0, false);
    FilledShape(r, 0, mn);
    FilledSpelled(r, 0, true, mn);
    FilledSpelled(r, 0, false, mn);
    FilledOver(r, 0, 0);
    LinearMatches(u, rs);
    ApplyGround(Match(u, rs), rs);
    assert Unifies(Match(u, rs), rs, u);
  }

  /** If ms has a variable twice, or a symbol that is not the first of its name, the second unification fails after a
      success of the first for some message rs. */
  lemma SharedFails(ms: Term, mn: seq<char>) returns (rs: Term, u: Term)
    requires Named(ms, mn) && !(Linear(ms) && Spelled(ms, mn))
    ensures CopyOf(u, mn, ms, mn, rs) && CopyOf(rs, mn, rs, mn, ms) && !Hopeless(rs, u) && Hopeless(ms, rs)
  {
    rs, u := Numbered(ms, mn);
    forall th ensures !Unifies(th, ms, rs) {
      if Unifies(th, ms, rs) {
        ApplyGround(th, rs);
        NumbersSpelled(th, ms, mn, 0);
        Distinct(th, ms, mn);
      }
    }
  }

  lemma Distinct(th: map<nat, Term>, ms: Term, mn: seq<char>)
    requires Named(ms, mn) && Numbers(th, ms, mn, 0)
    ensures Linear(ms)
  {
    var vs := Occurrences(ms);
    forall i, j | 0 <= i < j < |vs| ensures vs[i] != vs[j] {
      NumberAt(th, ms, mn, 0, i);
      NumberAt(th, ms, mn, 0, j);
    }
  }

  /** The second unification must succeed, whatever the receiver's message is, exactly if ms has no variable twice and
      its symbols are the first of their names. */
  lemma SecondSucceedsExactly(ms: Term, mn: seq<char>)
    requires Terminated(mn) && Named(ms, mn)
    ensures SecondMustSucceed(ms, mn) <==> Linear(ms) && Spelled(ms, mn)
  {
    if Linear(ms) && Spelled(ms, mn) {
      forall rs, rn, u, v, more
        | mn <= more && CopyOf(u, rn, ms, mn, rs) && CopyOf(v, more, rs, rn, ms) && !Hopeless(rs, u)
        ensures !Hopeless(ms, v)
      {
        LinearSucceeds(ms, mn, rs, rn, u, v, more);
      }
    } else {
      var rs, u := SharedFails(ms, mn);
    }
  }

  /** For example, f(X, X) sent to a receiver of f(1, 2): the first succeeds, the second does not. */
  lemma SecondMayFail(f: nat, mn: seq<char>)
    requires Terminated(mn) && Begins(mn, f)
    ensures !SecondMustSucceed(Compound(f, [Var(0), Var(0)]), mn)
  {
    var ms := Compound(f, [Var(0), Var(0)]);
    assert [Var(0), Var(0)][1..] == [Var(0)] && [Var(0)][1..] == [];
    assert ArgOccurrences([Var(0)]) == [0];
    assert Occurrences(ms) == [0, 0];
    assert Occurrences(ms)[0] == Occurrences(ms)[1];
    assert AllNamed([Var(0), Var(0)], mn);
    SecondSucceedsExactly(ms, mn);
  }

  /** And the second of two symbols with one name: its copy comes back as the first. */
  lemma TwiceNamedMayFail()
    ensures !SecondMustSucceed(Const(Con(ASCII_SIZE + 2, 0)), ['a', NUL, 'a', NUL])
  {
    var mn := ['a', NUL, 'a', NUL];
    assert CString(mn, 1) == [] == CString(mn, 3);
    assert CString(mn, 0) == ['a'] == CString(mn, 2);
    assert StartsAt(mn, 0) && StartsAt(mn, 2);
    assert !Canonical(mn, ASCII_SIZE + 2);
    SecondSucceedsExactly(Const(Con(ASCII_SIZE + 2, 0)), mn);
  }
}
