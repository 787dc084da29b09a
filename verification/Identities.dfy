// The identities that servers give to new PDUs: which they are in every run, and exactly when one comes back.
module Identities {
  import opened Terms
  import opened Rendezvous

  /** The step e sends a new PDU of the server n. */
  predicate IsNew(v: World, e: Step, n: nat)
    requires Enabled(v, e)
  {
    e.Send? && e.n == n && !v.servers[n].queue[e.i].resend
  }

  /** The identity on the request that a server sends. */
  function Sends(s: Server, i: nat, time: nat): Id
    requires i < |s.queue|
  {
    Down(s, i, time).out[0].p.id
  }

  /** The identities that n gives to new PDUs in a run, in their order. */
  function IdsOf(w: World, es: seq<Step>, n: nat): seq<Id>
    requires Run(w, es).Some?
  {
    if es == [] then [] else
    var fs, e := es[..|es| - 1], es[|es| - 1];
    var v := Run(w, fs).value;
    IdsOf(w, fs, n) + if IsNew(v, e, n) then [Sends(v.servers[n], e.i, e.time)] else []
  }

  /** The identity that the server would give next. */
  function Ready(s: Server): Id {
    Id(s.gen, s.num)
  }

  /** The number behind that of a, in the same generation unless it is zero. */
  predicate Follows(a: Id, b: Id) {
    b.num == (if a.num + 1 == SEQ_LIMIT then 0 else a.num + 1) && (b.num != 0 ==> b.gen == a.gen)
  }

  lemma NewCounts(s: Server, i: nat, time: nat)
    requires i < |s.queue| && !s.queue[i].resend && s.num < SEQ_LIMIT
    ensures Sends(s, i, time) == Ready(s) && Follows(Ready(s), Ready(Down(s, i, time).s))
  {
  }

  lemma HandlerCounts(s: Server, p: Packet, shutdown: bool)
    ensures Ready(Handle(s, p, shutdown).s) == Ready(s)
  {
  }

  /** What becomes of the counters of the server that acts. */
  lemma ActorCounts(v: World, e: Step)
    requires Enabled(v, e) && !e.Lose?
    requires var n := Acting(v, e).value.n; n in v.servers && v.servers[n].num < SEQ_LIMIT
    ensures var a := Acting(v, e).value; var s := v.servers[a.n];
      if IsNew(v, e, a.n) then Sends(s, e.i, e.time) == Ready(s) && Follows(Ready(s), Ready(a.s))
      else Ready(a.s) == Ready(s)
  {
    match e
    case Send(n, i, time) => if IsNew(v, e, n) { NewCounts(v.servers[n], i, time); }
    case Arrive(p, shutdown) => HandlerCounts(v.servers[Target(p)], p, shutdown);
    case _ =>
  }

  lemma CounterStep(v: World, e: Step, n: nat)
    requires Enabled(v, e) && n in v.servers && v.servers[n].num < SEQ_LIMIT
    ensures n in Next(v, e).servers
    ensures var s, t := v.servers[n], Next(v, e).servers[n];
      if IsNew(v, e, n) then Sends(s, e.i, e.time) == Ready(s) && Follows(Ready(s), Ready(t))
      else Ready(t) == Ready(s)
  {
    ActingIs(v, e);
    if !e.Lose? && Acting(v, e).value.n == n { ActorCounts(v, e); }
  }

  /** The identities from first on follow one another. */
  ghost predicate Chain(ids: seq<Id>) {
    ids != [] && ids[0].num < SEQ_LIMIT && forall j {:trigger Linked(ids, j)} :: 0 < j < |ids| ==> Linked(ids, j)
  }

  predicate Linked(ids: seq<Id>, j: nat)
    requires 0 < j < |ids|
  {
    Follows(ids[j - 1], ids[j])
  }

  /** In every run, the identities that a server gives out, and the one it would give next, follow one another from the
      one it starts with. */
  lemma {:induction false} IdsFollow(w: World, es: seq<Step>, n: nat)
    requires Starts(w) && Run(w, es).Some? && n in w.servers
    ensures n in Run(w, es).value.servers
    ensures var ids := IdsOf(w, es, n) + [Ready(Run(w, es).value.servers[n])];
      Chain(ids) && ids[0] == Ready(w.servers[n])
    decreases |es|
  {
    if es != [] {
      var fs, e := es[..|es| - 1], es[|es| - 1];
      IdsFollow(w, fs, n);
      ChainStep(Run(w, fs).value, e, n, IdsOf(w, fs, n));
    }
  }

  lemma ChainStep(v: World, e: Step, n: nat, ids: seq<Id>)
    requires Enabled(v, e) && n in v.servers && Chain(ids + [Ready(v.servers[n])])
    ensures n in Next(v, e).servers
    ensures var more := ids + if IsNew(v, e, n) then [Sends(v.servers[n], e.i, e.time)] else [];
      && Chain(more + [Ready(Next(v, e).servers[n])])
      && (more + [Ready(Next(v, e).servers[n])])[0] == (ids + [Ready(v.servers[n])])[0]
  {
    var next := Ready(v.servers[n]);
    ChainNum(ids + [next], |ids|);
    CounterStep(v, e, n);
    if IsNew(v, e, n) { ChainOn(ids + [next], Ready(Next(v, e).servers[n])); } else { assert ids + [] == ids; }
  }

  lemma ChainOn(ids: seq<Id>, next: Id)
    requires Chain(ids) && Follows(ids[|ids| - 1], next)
    ensures Chain(ids + [next])
  {
    var more := ids + [next];
    forall j | 0 < j < |more| ensures Linked(more, j) { if j < |ids| { assert Linked(ids, j); } }
  }

  /** The numbers count up from the first one, modulo the limit. */
  lemma {:induction false} ChainNum(ids: seq<Id>, j: nat)
    requires Chain(ids) && j < |ids|
    ensures ids[j].num == (ids[0].num + j) % SEQ_LIMIT < SEQ_LIMIT
    decreases j
  {
    if j > 0 {
      ChainNum(ids, j - 1);
      assert Linked(ids, j);
      NextNum(ids[0].num + j - 1);
    }
  }

  lemma NextNum(a: nat)
    ensures (a + 1) % SEQ_LIMIT == if a % SEQ_LIMIT + 1 == SEQ_LIMIT then 0 else a % SEQ_LIMIT + 1
  {
    var q, x := a / SEQ_LIMIT, a % SEQ_LIMIT;
    assert a == q * SEQ_LIMIT + x;
    if x + 1 == SEQ_LIMIT { assert a + 1 == (q + 1) * SEQ_LIMIT; }
  }

  /** A generation stays as long as no number is zero. */
  lemma {:induction false} ChainGen(ids: seq<Id>, i: nat, j: nat)
    requires Chain(ids) && i <= j < |ids| && forall k :: i < k <= j ==> ids[k].num != 0
    ensures ids[i].gen == ids[j].gen
    decreases j
  {
    if i < j {
      ChainGen(ids, i, j - 1);
      assert Linked(ids, j);
    }
  }

  /** The PDUs that a server holds for sending are its own. */
  ghost predicate Own(s: Server, n: nat) {
    && (forall p {:trigger p in s.queue} :: p in s.queue ==> p.src == n)
    && forall id {:trigger s.sent[id]} :: id in s.sent ==> s.sent[id].src == n
  }

  lemma ActorOwn(v: World, e: Step)
    requires Enabled(v, e) && !e.Lose?
    requires var n := Acting(v, e).value.n; n in v.servers && Own(v.servers[n], n)
    ensures Own(Acting(v, e).value.s, Acting(v, e).value.n)
  {
    match e
    case Submit(n, p) =>
    case Send(n, i, time) => DownOwn(v.servers[n], n, i, time);
    case SourceTimer(n, id) =>
    case TargetTimer(n, k) =>
    case Arrive(p, shutdown) => HandlerOwn(v.servers[Target(p)], Target(p), p, shutdown);
  }

  lemma DownOwn(s: Server, n: nat, i: nat, time: nat)
    requires i < |s.queue| && Own(s, n)
    ensures Own(Down(s, i, time).s, n)
  {
    assert s.queue[i] in s.queue;
    var t := Down(s, i, time).s;
    assert t.queue == s.queue[..i] + s.queue[i + 1..];
    forall p | p in t.queue ensures p.src == n { assert p in s.queue; }
  }

  lemma HandlerOwn(s: Server, n: nat, p: Packet, shutdown: bool)
    requires Own(s, n)
    ensures Own(Handle(s, p, shutdown).s, n)
  {
  }

  lemma OwnStep(v: World, e: Step, n: nat)
    requires Enabled(v, e) && n in v.servers && Own(v.servers[n], n)
    ensures n in Next(v, e).servers && Own(Next(v, e).servers[n], n)
  {
    ActingIs(v, e);
    if !e.Lose? && Acting(v, e).value.n == n { ActorOwn(v, e); }
  }

  lemma {:induction false} AllOwn(w: World, es: seq<Step>, n: nat)
    requires Starts(w) && Run(w, es).Some? && n in w.servers
    ensures n in Run(w, es).value.servers && Own(Run(w, es).value.servers[n], n)
    decreases |es|
  {
    if es != [] {
      AllOwn(w, es[..|es| - 1], n);
      OwnStep(Run(w, es[..|es| - 1]).value, es[|es| - 1], n);
    }
  }

  /** The identities issued by n are those that it has given out. */
  lemma {:induction false} IssuedAre(w: World, es: seq<Step>, n: nat, id: Id)
    requires Starts(w) && Run(w, es).Some? && n in w.servers
    ensures Key(n, id) in Run(w, es).value.issued <==> id in IdsOf(w, es, n)
    decreases |es|
  {
    if es != [] {
      var fs, e := es[..|es| - 1], es[|es| - 1];
      IssuedAre(w, fs, n, id);
      SameServers(w, fs);
      if e.Send? { AllOwn(w, fs, e.n); }
      IssuedStep(Run(w, fs).value, e, n, id);
    }
  }

  lemma {:induction false} SameServers(w: World, es: seq<Step>)
    requires Run(w, es).Some?
    ensures Run(w, es).value.servers.Keys == w.servers.Keys
    decreases |es|
  {
    if es != [] {
      SameServers(w, es[..|es| - 1]);
      ActingIs(Run(w, es[..|es| - 1]).value, es[|es| - 1]);
    }
  }

  lemma IssuedStep(v: World, e: Step, n: nat, id: Id)
    requires Enabled(v, e) && (e.Send? ==> Own(v.servers[e.n], e.n))
    ensures Key(n, id) in Next(v, e).issued <==>
      Key(n, id) in v.issued || (IsNew(v, e, n) && id == Sends(v.servers[n], e.i, e.time))
  {
    if e.Send? && !v.servers[e.n].queue[e.i].resend {
      assert v.servers[e.n].queue[e.i] in v.servers[e.n].queue;
    }
  }

  lemma FreshIs(w: World, es: seq<Step>, n: nat)
    requires Starts(w) && Run(w, es).Some? && n in w.servers
    ensures n in Run(w, es).value.servers
    ensures Fresh(Run(w, es).value, n) <==> Ready(Run(w, es).value.servers[n]) !in IdsOf(w, es, n)
  {
    SameServers(w, es);
    IssuedAre(w, es, n, Ready(Run(w, es).value.servers[n]));
  }

  predicate NoTwo(ids: seq<Id>) {
    forall i, j :: 0 <= i < j < |ids| ==> ids[i] != ids[j]
  }

  lemma NoTwoMore(ids: seq<Id>, id: Id)
    ensures NoTwo(ids + [id]) <==> NoTwo(ids) && id !in ids
  {
    if NoTwo(ids + [id]) {
      forall i, j | 0 <= i < j < |ids| ensures ids[i] != ids[j] { assert (ids + [id])[i] != (ids + [id])[j]; }
      forall i | 0 <= i < |ids| ensures ids[i] != id { assert (ids + [id])[i] != (ids + [id])[|ids|]; }
    }
  }

  /** A run repeats no identity if and only if no server has given one out twice. */
  lemma {:induction false} UnrepeatedIs(w: World, es: seq<Step>)
    requires Starts(w) && Run(w, es).Some?
    ensures Unrepeated(w, es) <==>
      forall n {:trigger NoTwo(IdsOf(w, es, n))} :: n in w.servers ==> NoTwo(IdsOf(w, es, n))
    decreases |es|
  {
    if es != [] {
      var fs, e := es[..|es| - 1], es[|es| - 1];
      UnrepeatedIs(w, fs);
      SameServers(w, fs);
      var v := Run(w, fs).value;
      assert Unrepeated(w, es) <==> Unrepeated(w, fs) && Unused(v, e);
      if Unrepeated(w, es) {
        forall n {:trigger NoTwo(IdsOf(w, es, n))} | n in w.servers ensures NoTwo(IdsOf(w, es, n)) {
          OneMoreId(w, es, n);
          UnusedIs(v, e, n);
          assert NoTwo(IdsOf(w, fs, n));
        }
      } else if Unrepeated(w, fs) {
        UnusedIs(v, e, e.n);
        OneMoreId(w, es, e.n);
      } else {
        var n :| n in w.servers && !NoTwo(IdsOf(w, fs, n));
        OneMoreId(w, es, n);
      }
    }
  }

  lemma OneMoreId(w: World, es: seq<Step>, n: nat)
    requires Starts(w) && Run(w, es).Some? && n in w.servers && es != []
    ensures var fs, e := es[..|es| - 1], es[|es| - 1];
      && Run(w, fs).Some? && Enabled(Run(w, fs).value, e)
      && (NoTwo(IdsOf(w, es, n)) <==> NoTwo(IdsOf(w, fs, n)) && !Repeats(Run(w, fs).value, e, n))
  {
    var fs, e := es[..|es| - 1], es[|es| - 1];
    var v, ids := Run(w, fs).value, IdsOf(w, fs, n);
    IdsFollow(w, fs, n);
    ChainNum(ids + [Ready(v.servers[n])], |ids|);
    FreshIs(w, fs, n);
    if IsNew(v, e, n) {
      CounterStep(v, e, n);
      NoTwoMore(ids, Ready(v.servers[n]));
    } else {
      assert ids + [] == ids;
    }
  }

  /** The step e gives out an identity of n again. */
  predicate Repeats(v: World, e: Step, n: nat)
    requires Enabled(v, e)
  {
    IsNew(v, e, n) && !Fresh(v, n)
  }

  lemma UnusedIs(v: World, e: Step, n: nat)
    requires Enabled(v, e)
    ensures Unused(v, e) ==> !Repeats(v, e, n)
    ensures !Unused(v, e) ==> e.Send? && Repeats(v, e, e.n)
  {
  }

  /** Equal numbers are a multiple of the limit apart. */
  lemma SameNum(a: nat, b: nat)
    requires a <= b
    ensures a % SEQ_LIMIT == b % SEQ_LIMIT <==> (b - a) % SEQ_LIMIT == 0
  {
    var p, q, d := a / SEQ_LIMIT, b / SEQ_LIMIT, (b - a) / SEQ_LIMIT;
    assert a == p * SEQ_LIMIT + a % SEQ_LIMIT && b == q * SEQ_LIMIT + b % SEQ_LIMIT;
    assert b - a == d * SEQ_LIMIT + (b - a) % SEQ_LIMIT;
    if a % SEQ_LIMIT == b % SEQ_LIMIT { assert b - a == (q - p) * SEQ_LIMIT; }
    if (b - a) % SEQ_LIMIT == 0 { assert b - d * SEQ_LIMIT == a; }
  }

  /** Behind a wrap, an identity comes back with its generation. */
  predicate Renews(ids: seq<Id>, i: nat, j: nat)
    requires i < j < |ids|
  {
    ids[j].num == 0 && ids[i].gen == ids[j].gen ==> j + ids[i].num >= |ids|
  }

  predicate AlwaysRenews(ids: seq<Id>) {
    forall i, j {:trigger Renews(ids, i, j)} :: 0 <= i < j < |ids| ==> Renews(ids, i, j)
  }

  /** The identities of a server are all different if and only if each generation that it has taken when its number was
      zero is new, or the numbers given out in it have not reached any that was given out in that generation before. */
  lemma NoTwoExactly(ids: seq<Id>)
    requires Chain(ids)
    ensures NoTwo(ids) <==> AlwaysRenews(ids)
  {
    if !AlwaysRenews(ids) {
      var i, j :| 0 <= i < j < |ids| && !Renews(ids, i, j);
      ComesBack(ids, i, j);
    }
    if !NoTwo(ids) {
      var i, j :| 0 <= i < j < |ids| && ids[i] == ids[j];
      NotRenewed(ids, i, j);
    }
  }

  lemma {:induction false} NumsFrom(ids: seq<Id>, j: nat, x: nat)
    requires Chain(ids) && j + x < |ids| && ids[j].num == 0 && x < SEQ_LIMIT
    ensures ids[j + x].num == x && ids[j + x].gen == ids[j].gen
    decreases x
  {
    if x > 0 {
      NumsFrom(ids, j, x - 1);
      assert Linked(ids, j + x);
    }
  }

  lemma ComesBack(ids: seq<Id>, i: nat, j: nat)
    requires Chain(ids) && i < j < |ids| && !Renews(ids, i, j)
    ensures ids[i] == ids[j + ids[i].num]
  {
    ChainNum(ids, i);
    NumsFrom(ids, j, ids[i].num);
  }

  lemma NotRenewed(ids: seq<Id>, i: nat, j: nat)
    requires Chain(ids) && i < j < |ids| && ids[i] == ids[j]
    ensures i < j - ids[j].num && !Renews(ids, i, j - ids[j].num)
  {
    var x := ids[j].num;
    ChainNum(ids, i);
    ChainNum(ids, j);
    SameNum(ids[0].num + i, ids[0].num + j);
    Apart(j - i);
    Zero(ids, j);
    NumsFrom(ids, j - x, x);
  }

  lemma Apart(d: nat)
    requires d > 0 && d % SEQ_LIMIT == 0
    ensures d >= SEQ_LIMIT
  {
  }

  lemma Zero(ids: seq<Id>, j: nat)
    requires Chain(ids) && j < |ids| && ids[j].num <= j
    ensures ids[j - ids[j].num].num == 0
  {
    var x := ids[j].num;
    ChainNum(ids, j);
    ChainNum(ids, j - x);
    LessRest(ids[0].num + j);
  }

  lemma LessRest(a: nat)
    ensures (a - a % SEQ_LIMIT) % SEQ_LIMIT == 0
  {
    var q := a / SEQ_LIMIT;
    assert a - a % SEQ_LIMIT == q * SEQ_LIMIT;
  }

  lemma ChainFirst(ids: seq<Id>, next: Id)
    requires Chain(ids + [next]) && ids != []
    ensures Chain(ids)
  {
    forall j | 0 < j < |ids| ensures Linked(ids, j) { assert Linked(ids + [next], j); }
  }

  lemma RunNoTwo(w: World, es: seq<Step>, n: nat)
    requires Starts(w) && Run(w, es).Some? && n in w.servers
    ensures NoTwo(IdsOf(w, es, n)) <==> AlwaysRenews(IdsOf(w, es, n))
  {
    var ids := IdsOf(w, es, n);
    IdsFollow(w, es, n);
    if ids != [] {
      ChainFirst(ids, Ready(Run(w, es).value.servers[n]));
      NoTwoExactly(ids);
    }
  }

  /** A run repeats no identity if and only if each server takes a new generation when its number is zero, or does not
      come to a number that it has given out in that generation before. */
  lemma UnrepeatedExactly(w: World, es: seq<Step>)
    requires Starts(w) && Run(w, es).Some?
    ensures Unrepeated(w, es) <==>
      forall n {:trigger IdsOf(w, es, n)} :: n in w.servers ==> AlwaysRenews(IdsOf(w, es, n))
  {
    UnrepeatedIs(w, es);
    forall n {:trigger IdsOf(w, es, n)} | n in w.servers
      ensures NoTwo(IdsOf(w, es, n)) <==> AlwaysRenews(IdsOf(w, es, n))
    {
      RunNoTwo(w, es, n);
    }
  }

  /** No run in which each server sends at most 2^32 new PDUs repeats an identity. */
  lemma FewUnrepeated(w: World, es: seq<Step>)
    requires Starts(w) && Run(w, es).Some?
    requires forall n {:trigger IdsOf(w, es, n)} :: n in w.servers ==> |IdsOf(w, es, n)| <= SEQ_LIMIT
    ensures Unrepeated(w, es)
  {
    UnrepeatedIs(w, es);
    forall n {:trigger NoTwo(IdsOf(w, es, n))} | n in w.servers ensures NoTwo(IdsOf(w, es, n)) {
      IdsFollow(w, es, n);
      ChainNoTwo(IdsOf(w, es, n), Ready(Run(w, es).value.servers[n]));
    }
  }

  lemma {:induction false} AtMostSteps(w: World, es: seq<Step>, n: nat)
    requires Run(w, es).Some?
    ensures |IdsOf(w, es, n)| <= |es|
    decreases |es|
  {
    if es != [] { AtMostSteps(w, es[..|es| - 1], n); }
  }

  /** So it is in the runs that lose a PDU without a repeated identity. */
  lemma LostUnrepeated(w: World, p: Pdu) returns (es: seq<Step>, fs: seq<Step>)
    requires TwoServers(w, p)
    ensures Run(w, es).Some? && Run(w, es).value.issued != map[] && Vanished(Run(w, es).value) && Unrepeated(w, es)
    ensures Run(w, fs).Some? && Run(w, fs).value.issued != map[] && Vanished(Run(w, fs).value) && Unrepeated(w, fs)
    ensures NoLoss(fs)
  {
    es := AcknowledgementLost(w, p);
    fs := AcknowledgementWasted(w, p);
    forall n {:trigger IdsOf(w, es, n)} ensures |IdsOf(w, es, n)| <= SEQ_LIMIT { AtMostSteps(w, es, n); }
    forall n {:trigger IdsOf(w, fs, n)} ensures |IdsOf(w, fs, n)| <= SEQ_LIMIT { AtMostSteps(w, fs, n); }
    FewUnrepeated(w, es);
    FewUnrepeated(w, fs);
  }

  lemma ChainNoTwo(ids: seq<Id>, next: Id)
    requires Chain(ids + [next]) && |ids| <= SEQ_LIMIT
    ensures NoTwo(ids)
  {
    forall i, j | 0 <= i < j < |ids| ensures ids[i] != ids[j] { NumsDiffer(ids + [next], i, j); }
  }

  lemma NumsDiffer(ids: seq<Id>, i: nat, j: nat)
    requires Chain(ids) && i < j < |ids|
    ensures ids[i].num == ids[j].num <==> (j - i) % SEQ_LIMIT == 0
  {
    ChainNum(ids, i);
    ChainNum(ids, j);
    SameNum(ids[0].num + i, ids[0].num + j);
  }

  /** gen is not the generation of an identity that has been given out a multiple of 2^32 identities ago. */
  ghost predicate NewGeneration(ids: seq<Id>, gen: nat) {
    forall i {:trigger ids[i]} :: 0 <= i < |ids| && (|ids| - i) % SEQ_LIMIT == 0 ==> ids[i].gen != gen
  }

  /** The next identity of a server is new if and only if its generation is, at this number. */
  lemma FreshExactly(w: World, es: seq<Step>, n: nat)
    requires Starts(w) && Run(w, es).Some? && n in w.servers
    ensures n in Run(w, es).value.servers
    ensures Fresh(Run(w, es).value, n) <==> NewGeneration(IdsOf(w, es, n), Run(w, es).value.servers[n].gen)
  {
    FreshIs(w, es, n);
    IdsFollow(w, es, n);
    NextIsNew(IdsOf(w, es, n), Ready(Run(w, es).value.servers[n]));
  }

  lemma NextIsNew(ids: seq<Id>, next: Id)
    requires Chain(ids + [next])
    ensures next !in ids <==> NewGeneration(ids, next.gen)
  {
    forall i | 0 <= i < |ids| ensures ids[i].num == next.num <==> (|ids| - i) % SEQ_LIMIT == 0 {
      NumsDiffer(ids + [next], i, |ids|);
    }
  }

  /** Before the first wrap, the identities that a server has issued are those of its generation from its first number
      to its present one. */
  lemma FirstGeneration(w: World, es: seq<Step>, n: nat, id: Id)
    requires Starts(w) && Run(w, es).Some? && n in w.servers && w.servers[n].num + |IdsOf(w, es, n)| < SEQ_LIMIT
    ensures n in Run(w, es).value.servers
    ensures var s, t := w.servers[n], Run(w, es).value.servers[n];
      && t.num == s.num + |IdsOf(w, es, n)| && t.gen == s.gen
      && (Key(n, id) in Run(w, es).value.issued <==> id.gen == t.gen && s.num <= id.num < t.num)
  {
    IssuedAre(w, es, n, id);
    IdsFollow(w, es, n);
    BeforeWrap(IdsOf(w, es, n), Ready(Run(w, es).value.servers[n]), id);
  }

  lemma BeforeWrap(ids: seq<Id>, next: Id, id: Id)
    requires Chain(ids + [next]) && (ids + [next])[0].num + |ids| < SEQ_LIMIT
    ensures var first := (ids + [next])[0];
      && next == Id(first.gen, first.num + |ids|)
      && (id in ids <==> id.gen == first.gen && first.num <= id.num < next.num)
  {
    var all := ids + [next];
    forall j: nat {:trigger all[j]} | j <= |ids| ensures all[j] == Id(all[0].gen, all[0].num + j) {
      FirstOnes(all, j);
    }
    assert all[|ids|] == next;
    if id.gen == all[0].gen && all[0].num <= id.num < next.num { assert all[id.num - all[0].num] == id; }
    if id in ids {
      var j :| 0 <= j < |ids| && ids[j] == id;
      assert all[j] == id;
    }
  }

  /** After a wrap, those of its present generation from zero to its present number are among them. */
  lemma LaterGeneration(w: World, es: seq<Step>, n: nat, id: Id)
    requires Starts(w) && Run(w, es).Some? && n in w.servers && w.servers[n].num + |IdsOf(w, es, n)| >= SEQ_LIMIT
    ensures n in Run(w, es).value.servers
    ensures var t := Run(w, es).value.servers[n];
      id.gen == t.gen && id.num < t.num ==> Key(n, id) in Run(w, es).value.issued
  {
    IssuedAre(w, es, n, id);
    IdsFollow(w, es, n);
    AfterWrap(IdsOf(w, es, n), Ready(Run(w, es).value.servers[n]), id);
  }

  lemma AfterWrap(ids: seq<Id>, next: Id, id: Id)
    requires Chain(ids + [next]) && (ids + [next])[0].num + |ids| >= SEQ_LIMIT
    ensures id.gen == next.gen && id.num < next.num ==> id in ids
  {
    var all, k := ids + [next], |ids|;
    ChainNum(all, k);
    WrapRest(all[0].num, k);
    if id.gen == next.gen && id.num < next.num {
      Zero(all, k);
      NumsFrom(all, k - next.num, id.num);
      NumsFrom(all, k - next.num, next.num);
      assert ids[k - next.num + id.num] == id;
    }
  }

  lemma WrapRest(a: nat, k: nat)
    requires a < SEQ_LIMIT <= a + k
    ensures (a + k) % SEQ_LIMIT < k
  {
    var q := (a + k) / SEQ_LIMIT;
    assert a + k == q * SEQ_LIMIT + (a + k) % SEQ_LIMIT && q >= 1;
  }

  lemma {:induction false} FirstOnes(ids: seq<Id>, j: nat)
    requires Chain(ids) && j < |ids| && ids[0].num + j < SEQ_LIMIT
    ensures ids[j] == Id(ids[0].gen, ids[0].num + j)
    decreases j
  {
    if j > 0 {
      FirstOnes(ids, j - 1);
      assert Linked(ids, j);
    }
  }

  /** The run fs with the step e behind it. */
  lemma OneStep(w: World, fs: seq<Step>, e: Step, n: nat) returns (es: seq<Step>)
    requires Run(w, fs).Some? && Enabled(Run(w, fs).value, e)
    ensures es == fs + [e] && Run(w, es) == Some(Next(Run(w, fs).value, e))
    ensures IdsOf(w, es, n) == IdsOf(w, fs, n) +
      if IsNew(Run(w, fs).value, e, n) then [Sends(Run(w, fs).value.servers[n], e.i, e.time)] else []
  {
    es := RunStep(w, fs, e);
    assert es[..|es| - 1] == fs && es[|es| - 1] == e;
  }

  /** The server n has its name and the generation g, nothing to send, and hs has been handed up. */
  ghost predicate Idle(v: World, n: nat, g: nat, hs: seq<Delivery>) {
    && n in v.servers && v.servers[n].name == n && v.servers[n].gen == g && v.servers[n].queue == []
    && v.handed == hs
  }

  /** The request for q is under way, and its server has a backup. */
  ghost predicate Underway(v: World, n: nat, q: Pdu) {
    n in v.servers && q.src == q.dst == n && Request(q) in v.net && q.id in v.servers[n].sent
  }

  lemma SubmitOne(w: World, fs: seq<Step>, n: nat, p: Pdu) returns (es: seq<Step>)
    requires Run(w, fs).Some? && n in Run(w, fs).value.servers && Run(w, fs).value.servers[n].queue == []
    requires p.src == n && !p.resend
    ensures Run(w, es).Some? && n in Run(w, es).value.servers && IdsOf(w, es, n) == IdsOf(w, fs, n)
    ensures Run(w, es).value.servers[n] == Run(w, fs).value.servers[n].(queue := [p])
    ensures Run(w, es).value.handed == Run(w, fs).value.handed
  {
    es := OneStep(w, fs, Submit(n, p), n);
    assert IdsOf(w, fs, n) + [] == IdsOf(w, fs, n);
  }

  /** What sending does to the server and to the network. */
  lemma SentOne(v: World, n: nat, p: Pdu, g: nat)
    requires n in v.servers && v.servers[n].queue == [p] && v.servers[n].name == n && v.servers[n].gen == g < 0x1_0000
    requires p.src == p.dst == n && !p.resend
    ensures Idle(Next(v, Send(n, 0, g)), n, g, v.handed)
    ensures Underway(Next(v, Send(n, 0, g)), n, p.(id := Ready(v.servers[n]), retry := 1))
  {
    var s := v.servers[n];
    var q := p.(id := Ready(s), retry := 1);
    var f := Down(s, 0, g);
    assert f.out == [Request(q)] && q.id in f.s.sent;
    assert f.s.queue == [] && f.s.gen == g && f.s.name == n && f.up == None;
    InNet(v.net, Request(q));
  }

  lemma SendOne(w: World, fs: seq<Step>, n: nat, p: Pdu, g: nat) returns (es: seq<Step>)
    requires Run(w, fs).Some? && n in Run(w, fs).value.servers && Run(w, fs).value.servers[n].queue == [p]
    requires Run(w, fs).value.servers[n].name == n && Run(w, fs).value.servers[n].gen == g < 0x1_0000
    requires p.src == p.dst == n && !p.resend
    ensures Run(w, es).Some? && Idle(Run(w, es).value, n, g, Run(w, fs).value.handed)
    ensures var id := Ready(Run(w, fs).value.servers[n]);
      && Underway(Run(w, es).value, n, p.(id := id, retry := 1)) && IdsOf(w, es, n) == IdsOf(w, fs, n) + [id]
  {
    var v := Run(w, fs).value;
    SentOne(v, n, p, g);
    assert Sends(v.servers[n], 0, g) == Ready(v.servers[n]);
    es := OneStep(w, fs, Send(n, 0, g), n);
    assert IdsOf(w, es, n) == IdsOf(w, fs, n) + [Ready(v.servers[n])];
  }

  /** A new PDU from n to itself is sent. */
  lemma SubmitAndSend(w: World, fs: seq<Step>, n: nat, p: Pdu, g: nat, hs: seq<Delivery>) returns (es: seq<Step>)
    requires Run(w, fs).Some? && Idle(Run(w, fs).value, n, g, hs) && g < 0x1_0000
    requires p.src == p.dst == n && !p.resend
    ensures Run(w, es).Some? && Idle(Run(w, es).value, n, g, hs)
    ensures var id := Ready(Run(w, fs).value.servers[n]);
      && Underway(Run(w, es).value, n, p.(id := id, retry := 1)) && IdsOf(w, es, n) == IdsOf(w, fs, n) + [id]
  {
    es := SubmitOne(w, fs, n, p);
    es := SendOne(w, es, n, p, g);
  }

  lemma ArriveOne(w: World, fs: seq<Step>, n: nat, p: Packet) returns (es: seq<Step>)
    requires Run(w, fs).Some? && p in Run(w, fs).value.net && Target(p) in Run(w, fs).value.servers
    ensures Run(w, es) == Some(Arrived(Run(w, fs).value, p, false)) && IdsOf(w, es, n) == IdsOf(w, fs, n)
  {
    es := OneStep(w, fs, Arrive(p, false), n);
    assert IdsOf(w, fs, n) + [] == IdsOf(w, fs, n);
  }

  /** It is offered, accepted, and handed up. */
  lemma Delivered(w: World, fs: seq<Step>, n: nat, q: Pdu, hs: seq<Delivery>) returns (es: seq<Step>)
    requires Run(w, fs).Some? && Idle(Run(w, fs).value, n, q.id.gen, hs) && Underway(Run(w, fs).value, n, q)
    ensures Run(w, es).Some? && IdsOf(w, es, n) == IdsOf(w, fs, n)
    ensures Idle(Run(w, es).value, n, q.id.gen, hs + [Delivery(n, q)])
  {
    var k := q.Name();
    es := ArriveOne(w, fs, n, Request(q));
    var u := Run(w, es).value;
    InNet(Run(w, fs).value.net - multiset{Request(q)}, Control(Accept, n, n, q.id));
    assert k in u.servers[n].offers && u.servers[n].offers[k] == q && q.id in u.servers[n].sent;
    es := ArriveOne(w, es, n, Control(Accept, n, n, q.id));
    var v := Run(w, es).value;
    InNet(u.net - multiset{Control(Accept, n, n, q.id)}, Control(Ack, n, n, q.id));
    assert k in v.servers[n].offers && v.servers[n].offers[k] == q;
    es := ArriveOne(w, es, n, Control(Ack, n, n, q.id));
  }

  lemma InNet(net: multiset<Packet>, p: Packet)
    ensures p in net + multiset([p])
  {
    assert [p][0] in multiset([p]);
  }

  ghost predicate InGeneration(ids: seq<Id>, g: nat) {
    forall i {:trigger ids[i]} :: 0 <= i < |ids| ==> ids[i].gen == g
  }

  lemma GenerationOn(ids: seq<Id>, id: Id, g: nat)
    requires InGeneration(ids, g) && id.gen == g
    ensures InGeneration(ids + [id], g)
  {
  }

  /** In the run es the server n has sent k new PDUs, in one generation. */
  ghost predicate ManySent(w: World, es: seq<Step>, n: nat, k: nat, g: nat, hs: seq<Delivery>) {
    && Run(w, es).Some? && Idle(Run(w, es).value, n, g, hs)
    && |IdsOf(w, es, n)| == k && InGeneration(IdsOf(w, es, n), g)
  }

  lemma OneMoreSent(w: World, fs: seq<Step>, n: nat, p: Pdu, k: nat, g: nat, hs: seq<Delivery>)
    returns (es: seq<Step>, q: Pdu)
    requires ManySent(w, fs, n, k, g, hs) && g < 0x1_0000 && p.src == p.dst == n && !p.resend
    ensures ManySent(w, es, n, k + 1, g, hs) && Underway(Run(w, es).value, n, q)
    ensures q.Name() == Key(n, Ready(Run(w, fs).value.servers[n])) && q.data == p.data
    ensures IdsOf(w, es, n) == IdsOf(w, fs, n) + [q.id]
  {
    var id := Ready(Run(w, fs).value.servers[n]);
    es := SubmitAndSend(w, fs, n, p, g, hs);
    q := p.(id := id, retry := 1);
    GenerationOn(IdsOf(w, fs, n), id, g);
  }

  /** A server sends k new PDUs, and takes its old generation whenever its number is zero. */
  lemma {:induction false} SendMany(w: World, fs: seq<Step>, n: nat, j: nat, k: nat, g: nat, hs: seq<Delivery>)
    returns (es: seq<Step>)
    requires ManySent(w, fs, n, j, g, hs) && g < 0x1_0000
    ensures ManySent(w, es, n, j + k, g, hs) && IdsOf(w, fs, n) <= IdsOf(w, es, n)
    decreases k
  {
    es := fs;
    if k > 0 {
      var q;
      es := SendMany(w, fs, n, j, k - 1, g, hs);
      es, q := OneMoreSent(w, es, n, Pdu(n, n, Id(0, 0), 0, false, k), j + k - 1, g, hs);
    }
  }

  lemma CameBack(ids: seq<Id>, next: Id, g: nat)
    requires |ids| == SEQ_LIMIT && InGeneration(ids, g) && next.gen == g && Chain(ids + [next])
    ensures next == ids[0] && !NoTwo(ids + [next])
  {
    var all := ids + [next];
    NumsDiffer(all, 0, SEQ_LIMIT);
    assert all[0] == ids[0] && all[SEQ_LIMIT] == next;
  }

  /** After 2^32 new PDUs a clock that shows the same time again brings an identity back, and two PDUs are handed up
      under it. */
  lemma ClockComesBack(w: World, n: nat) returns (es: seq<Step>, k: Key)
    requires Starts(w) && n in w.servers && w.servers[n].gen < 0x1_0000
    ensures Run(w, es).Some? && !Unrepeated(w, es) && HandedUp(Run(w, es).value.handed, k) == 2
  {
    var g, p := w.servers[n].gen, Pdu(n, n, Id(0, 0), 0, false, 0);
    assert Run(w, []) == Some(w) && IdsOf(w, [], n) == [];
    var fs, q := OneMoreSent(w, [], n, p, 0, g, []);
    fs := Delivered(w, fs, n, q, []);
    fs := SendMany(w, fs, n, 1, SEQ_LIMIT - 1, g, [Delivery(n, q)]);
    var ids := IdsOf(w, fs, n);
    IdsFollow(w, fs, n);
    var r;
    CameBack(ids, Ready(Run(w, fs).value.servers[n]), g);
    es, r := OneMoreSent(w, fs, n, p, SEQ_LIMIT, g, [Delivery(n, q)]);
    es := Delivered(w, es, n, r, [Delivery(n, q)]);
    k := q.Name();
    HandedAppend([], Delivery(n, q), k);
    HandedAppend([Delivery(n, q)], Delivery(n, r), k);
    assert IdsOf(w, es, n) == ids + [r.id];
    UnrepeatedIs(w, es);
  }

  /** In every run in which each server sends at most 2^32 new PDUs, a PDU is handed up or returned at most once. */
  lemma FewAtMostOnce(w: World, es: seq<Step>, k: Key)
    requires Starts(w) && Run(w, es).Some?
    requires forall n {:trigger IdsOf(w, es, n)} :: n in w.servers ==> |IdsOf(w, es, n)| <= SEQ_LIMIT
    ensures HandedUp(Run(w, es).value.handed, k) + Returned(Run(w, es).value.back, k) <= 1
  {
    FewUnrepeated(w, es);
    AtMostOnce(w, es, k);
  }
}
