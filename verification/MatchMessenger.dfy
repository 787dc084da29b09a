// A receiver accepts a messenger: each imago's message is copied into the other's block, and both sides bind
// their variables so that the messages become one term.
module MatchMessenger {
  import opened Terms
  import opened NameTable
  import opened CopyMeaning
  import opened CopyTerm
  import opened Substitution
  import opened UnifySteps
  import opened MsgUnify
  import opened Messages
  import opened WorkRoom
  import opened SecondMatch

  /** An imago with its message s at at, and its live cells h, in its own block from lo up to hi. */
  ghost predicate SideAt(m: seq<Cell>, h: Heap, s: Term, at: nat, st: nat, tt: nat, gl: nat, bb: nat, lo: nat,
                         hi: nat) {
    && Expecting(m, h, s, at, st, tt, gl, bb) && at in h && tt < hi <= |m|
    && forall x {:trigger x in h} :: x in h ==> lo <= x
  }

  /** The same with the copy u of the other's message at top. */
  ghost predicate ReadyIn(m: seq<Cell>, h: Heap, s: Term, u: Term, at: nat, top: nat, tt: nat, gl: nat, bb: nat,
                          lo: nat, hi: nat) {
    && Ready(m, h, s, u, at, top, tt, gl, bb) && lo <= at <= top && tt < hi <= |m|
    && forall x {:trigger x in h} :: x in h ==> lo <= x
  }

  /** Nothing has changed but in the block from lo up to hi. */
  ghost predicate SameOff(m: seq<Cell>, m': seq<Cell>, lo: nat, hi: nat) {
    |m'| == |m| && forall x {:trigger m'[x]} :: 0 <= x < |m| && !(lo <= x < hi) ==> m'[x] == m[x]
  }

  predicate Apart(lo: nat, hi: nat, lo': nat, hi': nat) {
    hi <= lo' || hi' <= lo
  }

  lemma SideKept(m: seq<Cell>, m': seq<Cell>, h: Heap, s: Term, at: nat, st: nat, tt: nat, gl: nat, bb: nat, lo: nat,
                 hi: nat, lo': nat, hi': nat)
    requires SideAt(m, h, s, at, st, tt, gl, bb, lo, hi) && SameOff(m, m', lo', hi') && Apart(lo, hi, lo', hi')
    ensures SideAt(m', h, s, at, st, tt, gl, bb, lo, hi)
  {
    assert HeapCell(m, h, st, at);
    forall x | x in h ensures HeapCell(m', h, st, x) { assert HeapCell(m, h, st, x); }
  }

  lemma ReadyKept(m: seq<Cell>, m': seq<Cell>, h: Heap, s: Term, u: Term, at: nat, top: nat, tt: nat, gl: nat, bb: nat,
                  lo: nat, hi: nat, lo': nat, hi': nat)
    requires ReadyIn(m, h, s, u, at, top, tt, gl, bb, lo, hi) && SameOff(m, m', lo', hi') && Apart(lo, hi, lo', hi')
    ensures ReadyIn(m', h, s, u, at, top, tt, gl, bb, lo, hi)
  {
    forall x | x in h ensures HeapCell(m', h, top, x) { assert HeapCell(m, h, top, x); }
  }

  lemma BindingStays(m0: seq<Cell>, m: seq<Cell>, h: Heap, s: Term, u: Term, at: nat, top: nat, tt0: nat, tt: nat,
                     gl: nat, bb: nat, bs: seq<Binding>, lo: nat, hi: nat)
    requires ReadyIn(m0, h, s, u, at, top, tt0, gl, bb, lo, hi) && Applied(m0, m, h, s, u, top, tt0, tt, gl, bb, bs)
    ensures SameOff(m0, m, lo, hi)
  {
    forall x | x in h ensures lo <= x <= top { assert HeapCell(m0, h, top, x); }
  }

  /** What has come of a side: its message s and the copy u have become one term, every cell denotes what it did with
      the bindings bs applied, and the trail has what it needs. */
  ghost predicate Settled(m: seq<Cell>, h: Heap, s: Term, u: Term, bs: seq<Binding>, tt0: nat, tt: nat, gl: nat,
                          bb: nat) {
    StillDenotes(m, h, bs) && SubstAll(s, bs) == SubstAll(u, bs) && OnTrail(m, h, tt0, tt, gl, bb)
  }

  lemma SettledKept(m: seq<Cell>, m': seq<Cell>, h: Heap, s: Term, u: Term, bs: seq<Binding>, tt0: nat, tt: nat,
                    gl: nat, bb: nat, lo: nat, hi: nat, lo': nat, hi': nat)
    requires Settled(m, h, s, u, bs, tt0, tt, gl, bb) && SameOff(m, m', lo', hi') && Apart(lo, hi, lo', hi')
    requires lo <= tt && tt0 < hi <= |m| && forall x {:trigger x in h} :: x in h ==> lo <= x < hi
    ensures Settled(m', h, s, u, bs, tt0, tt, gl, bb)
  {
    assert HeapNow(m', h) == HeapNow(m, h);
    forall c, w ensures StillAt(m', h, bs, c, w) { assert StillAt(m, h, bs, c, w); }
    forall x | x in h && x < |m'| && m'[x] != h[x] && MustTrail(x, m'[x], gl, bb) ensures InTrail(m', tt, tt0, x) {
      assert m[x] != h[x];
      var i :| tt < i <= tt0 < |m| && m[i] == Ref(x);
      assert m'[i] == Ref(x);
    }
  }

  /** The variable x is bound to the cell at top. */
  ghost predicate BoundCopy(m0: seq<Cell>, m: seq<Cell>, x: nat, top: nat, tt0: nat, tt: nat, gl: nat) {
    && x < |m0| && top < |m0| && tt0 < |m0|
    && if x <= gl then tt0 > 0 && tt == tt0 - 1 && m == m0[x := m0[top]][tt0 := Ref(x)]
       else tt == tt0 && m == m0[x := m0[top]]
  }

  lemma CopyBound(m0: seq<Cell>, m: seq<Cell>, h: Heap, u: Term, at: nat, top: nat, tt0: nat, tt: nat, gl: nat, bb: nat,
                  x: nat)
    requires Ready(m0, h, Var(x), u, at, top, tt0, gl, bb) && Unbound(h, x) && top < tt0
    requires BoundCopy(m0, m, x, top, tt0, tt, gl)
    ensures Applied(m0, m, h, Var(x), u, top, tt0, tt, gl, bb, [Binding(x, u)])
    ensures SubstAll(Var(x), [Binding(x, u)]) == SubstAll(u, [Binding(x, u)])
  {
    var b := Binding(x, u);
    assert x in Occurrences(Var(x)) && HeapCell(m0, h, top, x);
    SubstAbsent(u, x, u);
    SubstAllMore(u, [], b);
    SubstAllMore(Var(x), [], b);
    forall y | y in h ensures y < |m| && m[y] == h[x := m0[top]][y] { assert HeapCell(m0, h, top, y); }
    assert HeapNow(m, h) == h[x := m0[top]];
    forall c, w ensures StillAt(m, h, [b], c, w) {
      if Denotes(h, c, w) { BindDenotes(h, x, m0[top], u, c, w); }
      SubstAllMore(w, [], b);
    }
    forall y | y in h && y < |m| && m[y] != h[y]
      ensures h[y] == Ref(y) && (MustTrail(y, m[y], gl, bb) ==> InTrail(m, tt, tt0, y))
    {
      if x <= gl { assert m[tt0] == Ref(x); }
    }
  }

  /** A variable is bound to the copy: *rs = *rst, and bt_trail.  Copying has left room for the entry. */
  method BindCopy(mem: array<Cell>, ip: Imago, x: nat, top: nat, ghost h: Heap, ghost u: Term, ghost at: nat)
    returns (ghost bs: seq<Binding>)
    requires Ready(mem[..], h, Var(x), u, at, top, ip.tt, ip.gl, ip.bb) && Unbound(h, x) && top < ip.tt
    modifies mem, ip`st, ip`tt
    ensures Applied(old(mem[..]), mem[..], h, Var(x), u, top, old(ip.tt), ip.tt, ip.gl, ip.bb, bs)
    ensures SubstAll(Var(x), bs) == SubstAll(u, bs) && ip.st == top
  {
    ghost var m0, tt0 := mem[..], ip.tt;
    assert HeapCell(m0, h, top, x);
    mem[x] := mem[top];
    if x <= ip.gl {
      mem[ip.tt] := Ref(x);
      ip.tt := ip.tt - 1;
    }
    ip.st := top;
    bs := [Binding(x, u)];
    CopyBound(m0, mem[..], h, u, at, top, tt0, ip.tt, ip.gl, ip.bb, x);
  }

  /** h has the cells of hr and cells between st and top. */
  ghost predicate With(hr: Heap, h: Heap, st: nat, top: nat) {
    Within(hr, h) && forall x {:trigger x in h} :: x in h ==> x in hr || st < x < top
  }

  /** A side on which the other's message t has arrived as u, and has been made one with its own message s. */
  ghost predicate Delivered(m: seq<Cell>, hr: Heap, h: Heap, s: Term, u: Term, t: Term, pnames: seq<char>,
                            names: seq<char>,
                            bs: seq<Binding>, st0: nat, st: nat, tt0: nat, tt: nat, gl: nat, bb: nat) {
    && CopyOf(u, names, t, pnames, s) && With(hr, h, st0, st) && st == st0 + 1 + TermSize(t) && st <= tt
    && Settled(m, h, s, u, bs, tt0, tt, gl, bb)
  }

  lemma ArrivedReady(m: seq<Cell>, hr: Heap, h: Heap, s: Term, at: nat, st: nat, top: nat, tt: nat, gl: nat, bb: nat,
                     t: Term, pnames: seq<char>, names: seq<char>, u: Term, lo: nat, hi: nat)
    requires Arrived(m, hr, h, s, at, st, top, tt, gl, bb, t, pnames, names, u)
    requires at in hr && at <= st && tt < hi <= |m| && forall x {:trigger x in hr} :: x in hr ==> lo <= x <= st
    requires st < top
    ensures ReadyIn(m, h, s, u, at, top, tt, gl, bb, lo, hi) && CopyOf(u, names, t, pnames, s) && With(hr, h, st, top)
  {
  }

  ghost predicate Grown(names: seq<char>, more: seq<char>) {
    names <= more && Terminated(more)
  }

  /** A side on which the other's message t stands as u, ready to be unified with its own message s. */
  ghost predicate Landed(m: seq<Cell>, hr: Heap, h: Heap, s: Term, u: Term, t: Term, tn: seq<char>, rn: seq<char>,
                         at: nat, st: nat, top: nat, tt: nat, gl: nat, bb: nat, lo: nat, hi: nat) {
    With(hr, h, st, top) && CopyOf(u, rn, t, tn, s) && ReadyIn(m, h, s, u, at, top, tt, gl, bb, lo, hi)
  }

  /** The message t is copied to an imago; how that leaves it. */
  method Send(mem: array<Cell>, ip: Imago, ms: Cell, pnames: seq<char>, lo: nat, hi: nat, ghost hm: Heap, ghost t: Term,
              ghost hr: Heap, ghost s: Term, ghost at: nat)
    returns (top: Option<nat>, ghost h: Heap, ghost u: Term)
    requires Denotes(hm, ms, t) && (ms.Con? ==> ms.f < ASCII_SIZE + |pnames|)
    requires Sendable(mem[..], hm, t, pnames, ip.names, ip.st, ip.tt, hi)
    requires SideAt(mem[..], hr, s, at, ip.st, ip.tt, ip.gl, ip.bb, lo, hi)
    modifies mem, ip`names
    ensures top == if Fits(t, ip.st, ip.tt) then Some(ip.st + 1 + TermSize(t)) else None
    ensures top.Some? ==>
      Landed(mem[..], hr, h, s, u, t, pnames, ip.names, at, ip.st, top.value, ip.tt, ip.gl, ip.bb, lo, hi)
    ensures Grown(old(ip.names), ip.names) && SameOff(old(mem[..]), mem[..], lo, hi)
  {
    ghost var m0 := mem[..];
    SideBounds(m0, hr, s, at, ip.st, ip.tt, ip.gl, ip.bb, lo, hi);
    top, h, u := CopyIn(mem, ip, ms, pnames, hi, hm, t, hr, s, at);
    if top.Some? {
      ArrivedReady(mem[..], hr, h, s, at, ip.st, top.value, ip.tt, ip.gl, ip.bb, t, pnames, ip.names, u, lo, hi);
    }
  }

  lemma SideBounds(m: seq<Cell>, h: Heap, s: Term, at: nat, st: nat, tt: nat, gl: nat, bb: nat, lo: nat, hi: nat)
    requires SideAt(m, h, s, at, st, tt, gl, bb, lo, hi)
    ensures lo <= at <= st && forall x {:trigger x in h} :: x in h ==> lo <= x <= st
  {
    forall x | x in h ensures x <= st { assert HeapCell(m, h, st, x); }
  }

  /** One message is a variable: it becomes the other. */
  method OneWay(mem: array<Cell>, ip: Imago, x: nat, ms: Cell, pnames: seq<char>, lo: nat, hi: nat, ghost hm: Heap,
                ghost t: Term, ghost hr: Heap, ghost at: nat)
    returns (ok: bool, ghost h: Heap, ghost u: Term, ghost bs: seq<Binding>)
    requires Denotes(hm, ms, t) && (ms.Con? ==> ms.f < ASCII_SIZE + |pnames|) && Unbound(hr, x)
    requires Sendable(mem[..], hm, t, pnames, ip.names, ip.st, ip.tt, hi)
    requires SideAt(mem[..], hr, Var(x), at, ip.st, ip.tt, ip.gl, ip.bb, lo, hi)
    modifies mem, ip
    ensures Grown(old(ip.names), ip.names)
    ensures ip.gl == old(ip.gl) && ip.bb == old(ip.bb) && SameOff(old(mem[..]), mem[..], lo, hi)
    ensures ok <==> Fits(t, old(ip.st), old(ip.tt))
    ensures if ok
            then Delivered(mem[..], hr, h, Var(x), u, t, pnames, ip.names, bs, old(ip.st), ip.st, old(ip.tt), ip.tt,
                           ip.gl, ip.bb)
            else ip.st == old(ip.st) && ip.tt == old(ip.tt)
  {
    var top;
    top, h, u := Send(mem, ip, ms, pnames, lo, hi, hm, t, hr, Var(x), at);
    ok, bs := top.Some?, [];
    if ok {
      ghost var m, tt0 := mem[..], ip.tt;
      bs := BindCopy(mem, ip, x, top.value, h, u, at);
      BindingStays(m, mem[..], h, Var(x), u, at, top.value, tt0, ip.tt, ip.gl, ip.bb, bs, lo, hi);
    }
  }

  /** A message that is no variable after dereferencing stands for none. */
  lemma {:induction false} NoVariable(h: Heap, c: Cell, k: nat)
    requires Decode(h, c, k).Some? && !c.Ref?
    ensures !Decode(h, c, k).value.Var?
    decreases k
  {
    if c.Str? && h[c.a].Str? { NoVariable(h, h[c.a], k - 1); }
  }

  lemma VariableCell(h: Heap, c: Cell, s: Term)
    requires Denotes(h, c, s) && (c.Ref? ==> Unbound(h, c.a))
    ensures c.Ref? <==> s.Var?
    ensures c.Ref? ==> s == Var(c.a)
  {
    var k: nat :| Decode(h, c, k) == Some(s);
    if !c.Ref? { NoVariable(h, c, k); }
  }

  /** The symbol of a dereferenced message is one of its table. */
  lemma KnownRoot(m: seq<Cell>, h: Heap, t: Term, pnames: seq<char>, names: seq<char>, st: nat, tt: nat, limit: nat,
                  c: Cell)
    requires Sendable(m, h, t, pnames, names, st, tt, limit) && c in h.Values
    ensures c.Con? ==> c.f < ASCII_SIZE + |pnames|
  {
    var x :| x in h && h[x] == c;
    assert KnownCell(Copy(h, 0, pnames, st + 1, names, [], 0, []), x);
  }

  /** Copying to a side leaves its own message there to be sent. */
  lemma OwnSendable(m0: seq<Cell>, m: seq<Cell>, hr: Heap, h: Heap, s: Term, u: Term, at: nat, top: nat, tt: nat,
                    gl: nat, bb: nat,
                    lo: nat, hi: nat, pnames: seq<char>, more: seq<char>, names: seq<char>, st': nat, tt': nat,
                    limit: nat, st: nat)
    requires HeapAt(m0, hr, st) && Within(hr, h) && ReadyIn(m, h, s, u, at, top, tt, gl, bb, lo, hi) && |m| == |m0|
    requires Sendable(m0, hr, s, pnames, names, st', tt', limit) && pnames <= more && Terminated(more)
    ensures Sendable(m, hr, s, more, names, st', tt', limit)
  {
    forall x | x in hr && x < |m0| ensures m[x] == m0[x] { assert HeapCell(m0, hr, st, x) && HeapCell(m, h, top, x); }
    StillSendable(m0, m, hr, s, pnames, more, names, st', tt', limit);
  }

  /** The registers and blocks of both sides before the exchange, with the messages s and t. */
  ghost predicate Meeting(m: seq<Cell>, ip: Imago, mip: Imago, hr: Heap, s: Term, hm: Heap, t: Term,
                          rlo: nat, rhi: nat, mlo: nat, mhi: nat)
    reads ip, mip
  {
    && ip != mip && mip.st >= 1 && Apart(rlo, rhi, mlo, mhi)
    && SideAt(m, hr, s, ip.st, ip.st, ip.tt, ip.gl, ip.bb, rlo, rhi)
    && SideAt(m, hm, t, mip.st - 1, mip.st, mip.tt, mip.gl, mip.bb, mlo, mhi)
    && Sendable(m, hm, t, mip.names, ip.names, ip.st, ip.tt, rhi)
    && Sendable(m, hr, s, ip.names, mip.names, mip.st, mip.tt, mhi)
  }

  /** Overran: the receiver's unification has run its work stack into its trail. */
  datatype Reception = Received | Expansion | NoMatch | Overran

  /** Both messages are copied. */
  method CopyBoth(mem: array<Cell>, ip: Imago, mip: Imago, rs: Cell, ms: Cell, rlo: nat, rhi: nat, mlo: nat, mhi: nat,
                  ghost hr: Heap, ghost s: Term, ghost hm: Heap, ghost t: Term)
    returns (rst: Option<nat>, mst: Option<nat>, ghost h: Heap, ghost u: Term, ghost g: Heap, ghost v: Term)
    requires Meeting(mem[..], ip, mip, hr, s, hm, t, rlo, rhi, mlo, mhi)
    requires Denotes(hr, rs, s) && (rs.Con? ==> rs.f < ASCII_SIZE + |ip.names|)
    requires Denotes(hm, ms, t) && (ms.Con? ==> ms.f < ASCII_SIZE + |mip.names|)
    modifies mem, ip`names, mip`names
    ensures Grown(old(ip.names), ip.names) && Grown(old(mip.names), mip.names)
    ensures rst == if Fits(t, ip.st, ip.tt) then Some(ip.st + 1 + TermSize(t)) else None
    ensures rst.Some? ==> mst == if Fits(s, mip.st, mip.tt) then Some(mip.st + 1 + TermSize(s)) else None
    ensures rst.Some? && mst.Some? ==>
      Landed(mem[..], hr, h, s, u, t, old(mip.names), ip.names, ip.st, ip.st, rst.value, ip.tt, ip.gl, ip.bb, rlo, rhi)
    ensures rst.Some? && mst.Some? ==>
      Landed(mem[..], hm, g, t, v, s, ip.names, mip.names, mip.st - 1, mip.st, mst.value, mip.tt, mip.gl, mip.bb, mlo,
             mhi)
  {
    ghost var m0 := mem[..];
    g, v, mst := hm, t, None;
    rst, h, u := Send(mem, ip, ms, mip.names, rlo, rhi, hm, t, hr, s, ip.st);
    if rst.Some? {
      SideKept(m0, mem[..], hm, t, mip.st - 1, mip.st, mip.tt, mip.gl, mip.bb, mlo, mhi, rlo, rhi);
      OwnSendable(m0, mem[..], hr, h, s, u, ip.st, rst.value, ip.tt, ip.gl, ip.bb, rlo, rhi,
                  old(ip.names), ip.names, mip.names,
                  mip.st, mip.tt, mhi, ip.st);
      mst, g, v := SendBack(mem, mip, rs, ip.names, mlo, mhi, hr, s, hm, t, h, u, ip.st, rst.value, ip.tt, ip.gl, ip.bb,
                            rlo, rhi);
    }
  }

  /** The receiver's message is copied to the messenger, which leaves the receiver's side alone. */
  method SendBack(mem: array<Cell>, mip: Imago, rs: Cell, rnames: seq<char>, mlo: nat, mhi: nat,
                  ghost hr: Heap, ghost s: Term, ghost hm: Heap, ghost t: Term, ghost h: Heap, ghost u: Term,
                  ghost at: nat, ghost top: nat, ghost tt: nat, ghost gl: nat, ghost bb: nat, ghost rlo: nat,
                  ghost rhi: nat)
    returns (mst: Option<nat>, ghost g: Heap, ghost v: Term)
    requires Denotes(hr, rs, s) && (rs.Con? ==> rs.f < ASCII_SIZE + |rnames|) && mip.st >= 1
    requires Sendable(mem[..], hr, s, rnames, mip.names, mip.st, mip.tt, mhi)
    requires SideAt(mem[..], hm, t, mip.st - 1, mip.st, mip.tt, mip.gl, mip.bb, mlo, mhi)
    requires ReadyIn(mem[..], h, s, u, at, top, tt, gl, bb, rlo, rhi) && Apart(rlo, rhi, mlo, mhi)
    modifies mem, mip`names
    ensures Grown(old(mip.names), mip.names) && ReadyIn(mem[..], h, s, u, at, top, tt, gl, bb, rlo, rhi)
    ensures mst == if Fits(s, mip.st, mip.tt) then Some(mip.st + 1 + TermSize(s)) else None
    ensures mst.Some? ==>
      Landed(mem[..], hm, g, t, v, s, rnames, mip.names, mip.st - 1, mip.st, mst.value, mip.tt, mip.gl, mip.bb, mlo,
             mhi)
  {
    ghost var m := mem[..];
    mst, g, v := Send(mem, mip, rs, rnames, mlo, mhi, hr, s, hm, t, mip.st - 1);
    ReadyKept(m, mem[..], h, s, u, at, top, tt, gl, bb, rlo, rhi, mlo, mhi);
  }

  /** A side's message and the copy are unified. */
  method UnifySide(mem: array<Cell>, ip: Imago, at: nat, top: nat, lo: nat, hi: nat, ghost h: Heap, ghost s: Term,
                   ghost u: Term)
    returns (r: Verdict, ghost bs: seq<Binding>)
    requires ReadyIn(mem[..], h, s, u, at, top, ip.tt, ip.gl, ip.bb, lo, hi)
    modifies mem, ip`st, ip`tt
    ensures SameOff(old(mem[..]), mem[..], lo, hi) && StillDenotes(mem[..], h, bs)
    ensures Ends(r, s, u, top, old(ip.tt), ip.bb)
    ensures r.Unified? ==>
      Settled(mem[..], h, s, u, bs, old(ip.tt), ip.tt, ip.gl, ip.bb) && lo <= ip.tt && ip.st == top <= ip.tt
    ensures !r.Unified? ==> ip.st == old(ip.st) && ip.tt == old(ip.tt)
  {
    ghost var m0, tt0 := mem[..], ip.tt;
    var tt;
    r, tt, bs := MsgUnify.MsgUnify(mem, at, top, ip, h, s, u);
    BindingStays(m0, mem[..], h, s, u, at, top, tt0, tt, ip.gl, ip.bb, bs, lo, hi);
  }

  /** A unification from top up to tt ends in success exactly if there is a unifier, or has run into the trail, which it
      does only if the copy's peak does not fit, and always then if s takes most. */
  ghost predicate Ends(r: Verdict, s: Term, u: Term, top: nat, tt: nat, bb: nat) {
    && (r.Overrun? ==> tt < top + Peak(u))
    && (Worst(s, u, bb) ==> (r.Overrun? <==> tt < top + Peak(u)) && !r.Clashing?)
    && (!r.Overrun? ==> (r.Unified? <==> !Hopeless(s, u)))
  }

  lemma KeysBelow(m: seq<Cell>, h: Heap, s: Term, u: Term, at: nat, top: nat, tt: nat, gl: nat, bb: nat, lo: nat,
                  hi: nat)
    requires ReadyIn(m, h, s, u, at, top, tt, gl, bb, lo, hi)
    ensures forall x {:trigger x in h} :: x in h ==> lo <= x < hi
  {
    forall x | x in h ensures x <= top { assert HeapCell(m, h, top, x); }
  }

  /** Both sides unify: first the receiver's, and after its success the messenger's, of which the stack top is set
      anyway. */
  method UnifyBoth(mem: array<Cell>, ip: Imago, mip: Imago, rst: nat, mst: nat, rlo: nat, rhi: nat, mlo: nat, mhi: nat,
                   ghost h: Heap, ghost s: Term, ghost u: Term, ghost g: Heap, ghost t: Term, ghost v: Term)
    returns (first: Verdict, second: Verdict, ghost bs: seq<Binding>, ghost cs: seq<Binding>)
    requires ip != mip && mip.st >= 1 && Apart(rlo, rhi, mlo, mhi)
    requires ReadyIn(mem[..], h, s, u, ip.st, rst, ip.tt, ip.gl, ip.bb, rlo, rhi)
    requires ReadyIn(mem[..], g, t, v, mip.st - 1, mst, mip.tt, mip.gl, mip.bb, mlo, mhi)
    modifies mem, ip`st, ip`tt, mip`st, mip`tt
    ensures Ends(first, s, u, rst, old(ip.tt), ip.bb)
    ensures !first.Unified? ==> ip.st == old(ip.st) && ip.tt == old(ip.tt)
    ensures !first.Unified? ==> mip.st == old(mip.st) && mip.tt == old(mip.tt)
    ensures first.Unified? ==> ip.st == rst <= ip.tt && mip.st == mst && Ends(second, t, v, mst, old(mip.tt), mip.bb)
    ensures first.Unified? ==> Settled(mem[..], h, s, u, bs, old(ip.tt), ip.tt, ip.gl, ip.bb)
    ensures first.Unified? && second.Unified? ==>
      Settled(mem[..], g, t, v, cs, old(mip.tt), mip.tt, mip.gl, mip.bb) && mst <= mip.tt
  {
    ghost var m0, tt0 := mem[..], ip.tt;
    KeysBelow(m0, h, s, u, ip.st, rst, tt0, ip.gl, ip.bb, rlo, rhi);
    second, cs := Clashing, [];
    first, bs := UnifySide(mem, ip, ip.st, rst, rlo, rhi, h, s, u);
    if first.Unified? {
      ReadyKept(m0, mem[..], g, t, v, mip.st - 1, mst, mip.tt, mip.gl, mip.bb, mlo, mhi, rlo, rhi);
      second, cs := UnifySecond(mem, mip, mst, mlo, mhi, g, t, v, rlo, rhi, h, s, u, bs, tt0, ip.tt, ip.gl, ip.bb);
    }
  }

  /** The messenger's side, once the receiver's has been settled, which it leaves alone. */
  method UnifySecond(mem: array<Cell>, mip: Imago, mst: nat, mlo: nat, mhi: nat, ghost g: Heap, ghost t: Term,
                     ghost v: Term, ghost rlo: nat, ghost rhi: nat, ghost h: Heap, ghost s: Term, ghost u: Term,
                     ghost bs: seq<Binding>, ghost tt0: nat, ghost tt: nat, ghost gl: nat, ghost bb: nat)
    returns (second: Verdict, ghost cs: seq<Binding>)
    requires mip.st >= 1 && Apart(rlo, rhi, mlo, mhi)
    requires ReadyIn(mem[..], g, t, v, mip.st - 1, mst, mip.tt, mip.gl, mip.bb, mlo, mhi)
    requires Settled(mem[..], h, s, u, bs, tt0, tt, gl, bb) && rlo <= tt && tt0 < rhi <= mem.Length
    requires forall x {:trigger x in h} :: x in h ==> rlo <= x < rhi
    modifies mem, mip`st, mip`tt
    ensures Settled(mem[..], h, s, u, bs, tt0, tt, gl, bb) && mip.st == mst
    ensures Ends(second, t, v, mst, old(mip.tt), mip.bb)
    ensures second.Unified? ==> Settled(mem[..], g, t, v, cs, old(mip.tt), mip.tt, mip.gl, mip.bb) && mst <= mip.tt
  {
    ghost var m := mem[..];
    second, cs := UnifySide(mem, mip, mip.st - 1, mst, mlo, mhi, g, t, v);
    mip.st := mst;
    SettledKept(m, mem[..], h, s, u, bs, tt0, tt, gl, bb, rlo, rhi, mlo, mhi);
  }

  /** What has come of an exchange in which neither message is a variable. */
  ghost predicate Exchanged(r: Reception, m: seq<Cell>, hr: Heap, h: Heap, s: Term, u: Term, bs: seq<Binding>, t: Term,
                            tn: seq<char>, rn: seq<char>, st0: nat, st: nat, tt0: nat, tt: nat, gl: nat, bb: nat) {
    match r
    case Expansion => st == st0 && tt == tt0
    case Overran => st == st0 && tt == tt0 && CopyOf(u, rn, t, tn, s) && Fits(t, st0, tt0) && !Ample(t, st0, tt0)
    case NoMatch => st == st0 && tt == tt0 && CopyOf(u, rn, t, tn, s) && Hopeless(s, u) && !Worst(s, u, bb)
    case Received => Delivered(m, hr, h, s, u, t, tn, rn, bs, st0, st, tt0, tt, gl, bb) && (Worst(s, u, bb) ==>
        Ample(t, st0, tt0))
  }

  function Report(first: Verdict): Reception {
    match first
    case Unified => Received
    case Clashing => NoMatch
    case Overrun(_) => Overran
  }

  lemma Reported(first: Verdict, m: seq<Cell>, hr: Heap, h: Heap, s: Term, u: Term, bs: seq<Binding>, t: Term,
                 tn: seq<char>, rn: seq<char>, st0: nat, st: nat, tt0: nat, tt: nat, gl: nat, bb: nat)
    requires CopyOf(u, rn, t, tn, s) && With(hr, h, st0, st0 + 1 + TermSize(t)) && Fits(t, st0, tt0)
    requires Ends(first, s, u, st0 + 1 + TermSize(t), tt0, bb)
    requires if first.Unified? then Settled(m, h, s, u, bs, tt0, tt, gl, bb) && st == st0 + 1 + TermSize(t) <= tt
             else st == st0 && tt == tt0
    ensures Exchanged(Report(first), m, hr, h, s, u, bs, t, tn, rn, st0, st, tt0, tt, gl, bb)
  {
    ShapePeak(t, tn, u, rn);
  }

  /** What has come of the messenger's side after the receiver's success, with its message t and the copy v of s: the
      stack top is that of the copy, whatever has become of the unification. */
  ghost predicate Replied(second: Verdict, m: seq<Cell>, hm: Heap, g: Heap, t: Term, v: Term, cs: seq<Binding>, s: Term,
                          rn: seq<char>, mn: seq<char>, st0: nat, st: nat, tt0: nat, tt: nat, gl: nat, bb: nat) {
    && CopyOf(v, mn, s, rn, t) && st == st0 + 1 + TermSize(s)
    && (second.Overrun? ==> !Ample(s, st0, tt0))
    && (Worst(t, v, bb) ==> (second.Overrun? <==> !Ample(s, st0, tt0)))
    && (!second.Overrun? ==> (second.Unified? <==> !Hopeless(t, v)))
    && (second.Unified? ==> Delivered(m, hm, g, t, v, s, rn, mn, cs, st0, st, tt0, tt, gl, bb))
  }

  lemma RepliedTo(second: Verdict, m: seq<Cell>, hm: Heap, g: Heap, t: Term, v: Term, cs: seq<Binding>, s: Term,
                  rn: seq<char>, mn: seq<char>, st0: nat, st: nat, tt0: nat, tt: nat, gl: nat, bb: nat)
    requires CopyOf(v, mn, s, rn, t) && With(hm, g, st0, st) && st == st0 + 1 + TermSize(s)
    requires Ends(second, t, v, st, tt0, bb)
    requires (second.Unified? ==> Settled(m, g, t, v, cs, tt0, tt, gl, bb) && st <= tt)
    ensures Replied(second, m, hm, g, t, v, cs, s, rn, mn, st0, st, tt0, tt, gl, bb)
  {
    ShapePeak(s, rn, v, mn);
  }

  /** Both copies have arrived: the unifications, and what has come of them. */
  method Unite(mem: array<Cell>, ip: Imago, mip: Imago, rst: nat, mst: nat, rlo: nat, rhi: nat, mlo: nat, mhi: nat,
               ghost hr: Heap, ghost h: Heap, ghost s: Term, ghost u: Term, ghost hm: Heap, ghost g: Heap,
               ghost t: Term, ghost v: Term, ghost tn: seq<char>)
    returns (r: Reception, second: Verdict, ghost bs: seq<Binding>, ghost cs: seq<Binding>)
    requires ip != mip && mip.st >= 1 && Apart(rlo, rhi, mlo, mhi)
    requires rst == ip.st + 1 + TermSize(t) && mst == mip.st + 1 + TermSize(s) && Fits(t, ip.st, ip.tt)
    requires Landed(mem[..], hr, h, s, u, t, tn, ip.names, ip.st, ip.st, rst, ip.tt, ip.gl, ip.bb, rlo, rhi)
    requires Landed(mem[..], hm, g, t, v, s, ip.names, mip.names, mip.st - 1, mip.st, mst, mip.tt, mip.gl, mip.bb, mlo,
                    mhi)
    modifies mem, ip`st, ip`tt, mip`st, mip`tt
    ensures !r.Expansion?
    ensures Exchanged(r, mem[..], hr, h, s, u, bs, t, tn, ip.names, old(ip.st), ip.st, old(ip.tt), ip.tt, ip.gl, ip.bb)
    ensures !r.Received? ==> mip.st == old(mip.st) && mip.tt == old(mip.tt)
    ensures r.Received? ==> !Hopeless(s, u)
    ensures r.Received? ==>
      Replied(second, mem[..], hm, g, t, v, cs, s, ip.names, mip.names, old(mip.st), mip.st, old(mip.tt), mip.tt,
              mip.gl, mip.bb)
  {
    var first;
    first, second, bs, cs := UnifyBoth(mem, ip, mip, rst, mst, rlo, rhi, mlo, mhi, h, s, u, g, t, v);
    r := Report(first);
    Reported(first, mem[..], hr, h, s, u, bs, t, tn, ip.names, old(ip.st), ip.st, old(ip.tt), ip.tt, ip.gl, ip.bb);
    if first.Unified? {
      RepliedTo(second, mem[..], hm, g, t, v, cs, s, ip.names, mip.names, old(mip.st), mip.st, old(mip.tt), mip.tt,
                mip.gl, mip.bb);
    }
  }

  /** Neither message is a variable. */
  method Cross(mem: array<Cell>, ip: Imago, mip: Imago, rs: Cell, ms: Cell, rlo: nat, rhi: nat, mlo: nat, mhi: nat,
               ghost hr: Heap, ghost s: Term, ghost hm: Heap, ghost t: Term)
    returns (r: Reception, second: Verdict, ghost h: Heap, ghost u: Term, ghost bs: seq<Binding>,
             ghost g: Heap, ghost v: Term, ghost cs: seq<Binding>)
    requires Meeting(mem[..], ip, mip, hr, s, hm, t, rlo, rhi, mlo, mhi)
    requires Denotes(hr, rs, s) && (rs.Con? ==> rs.f < ASCII_SIZE + |ip.names|)
    requires Denotes(hm, ms, t) && (ms.Con? ==> ms.f < ASCII_SIZE + |mip.names|)
    modifies mem, ip, mip
    ensures Grown(old(ip.names), ip.names) && Grown(old(mip.names), mip.names)
    ensures r.Expansion? <==> !Fits(t, old(ip.st), old(ip.tt)) || !Fits(s, old(mip.st), old(mip.tt))
    ensures Exchanged(r, mem[..], hr, h, s, u, bs, t, old(mip.names), ip.names, old(ip.st), ip.st, old(ip.tt), ip.tt,
                      old(ip.gl), old(ip.bb))
    ensures !r.Received? ==> mip.st == old(mip.st) && mip.tt == old(mip.tt)
    ensures r.Received? ==>
      Replied(second, mem[..], hm, g, t, v, cs, s, ip.names, mip.names, old(mip.st), mip.st, old(mip.tt), mip.tt,
              old(mip.gl), old(mip.bb))
    ensures r.Received? && Linear(t) && Spelled(t, old(mip.names)) ==> !second.Clashing?
  {
    ghost var tn := mip.names;
    var rst, mst;
    second, bs, cs := Clashing, [], [];
    rst, mst, h, u, g, v := CopyBoth(mem, ip, mip, rs, ms, rlo, rhi, mlo, mhi, hr, s, hm, t);
    if rst.None? || mst.None? { return Expansion, second, h, u, bs, g, v, cs; }
    r, second, bs, cs := Unite(mem, ip, mip, rst.value, mst.value, rlo, rhi, mlo, mhi, hr, h, s, u, hm, g, t, v, tn);
    if r.Received? && Linear(t) && Spelled(t, tn) { LinearSucceeds(t, tn, s, ip.names, u, v, mip.names); }
  }

  /** The message at at, dereferenced. */
  method Root(mem: array<Cell>, at: nat, ghost h: Heap, ghost s: Term, ghost st: nat, ghost tt: nat, ghost gl: nat,
              ghost bb: nat,
              ghost lo: nat, ghost hi: nat, ghost pnames: seq<char>, ghost names: seq<char>, ghost st': nat,
              ghost tt': nat, ghost limit: nat)
    returns (root: Cell)
    requires SideAt(mem[..], h, s, at, st, tt, gl, bb, lo, hi)
    requires Sendable(mem[..], h, s, pnames, names, st', tt', limit)
    ensures Denotes(h, root, s) && (root.Con? ==> root.f < ASCII_SIZE + |pnames|)
    ensures (root.Ref? <==> s.Var?) && (root.Ref? ==> s == Var(root.a) && Unbound(h, root.a))
  {
    assert HeapCell(mem[..], h, st, at);
    root := MsgUnify.Deref(mem, mem[at], h, st, s);
    VariableCell(h, root, s);
    assert h[at] in h.Values;
    KnownRoot(mem[..], h, s, pnames, names, st', tt', limit, root);
  }

  /** match_messenger, for the messages: the receiver's at the top of its stack, which is s, and the messenger's below
      the top of its own, which is t.  second is what comes of the messenger's side, which is not looked at. */
  method Match(mem: array<Cell>, ip: Imago, mip: Imago, rlo: nat, rhi: nat, mlo: nat, mhi: nat,
               ghost hr: Heap, ghost s: Term, ghost hm: Heap, ghost t: Term)
    returns (r: Reception, second: Verdict, ghost h: Heap, ghost u: Term, ghost bs: seq<Binding>,
             ghost g: Heap, ghost v: Term, ghost cs: seq<Binding>)
    requires Meeting(mem[..], ip, mip, hr, s, hm, t, rlo, rhi, mlo, mhi)
    modifies mem, ip, mip
    ensures Grown(old(ip.names), ip.names) && Grown(old(mip.names), mip.names)
    ensures r.Expansion? <==>
      (!t.Var? && !Fits(t, old(ip.st), old(ip.tt))) || (!s.Var? && !Fits(s, old(mip.st), old(mip.tt)))
    ensures if t.Var? then ip.st == old(ip.st) && ip.tt == old(ip.tt) && SameOff(old(mem[..]), mem[..], mlo, mhi)
            else Exchanged(r, mem[..], hr, h, s, u, bs, t, old(mip.names), ip.names, old(ip.st), ip.st,
                           old(ip.tt), ip.tt, old(ip.gl), old(ip.bb))
    ensures s.Var? || !r.Received? ==> mip.st == old(mip.st) && mip.tt == old(mip.tt)
    ensures s.Var? ==> SameOff(old(mem[..]), mem[..], rlo, rhi)
    ensures r.Received? && !s.Var? ==>
      Replied(second, mem[..], hm, g, t, v, cs, s, ip.names, mip.names, old(mip.st), mip.st, old(mip.tt), mip.tt,
              old(mip.gl), old(mip.bb))
    ensures r.Received? && (s.Var? || (Linear(t) && Spelled(t, old(mip.names)))) ==> !second.Clashing?
    ensures r.NoMatch? || r.Overran? ==> !s.Var? && !t.Var?
  {
    h, u, bs, g, v, cs := hr, s, [], hm, t, [];
    var rs := Root(mem, ip.st, hr, s, ip.st, ip.tt, ip.gl, ip.bb, rlo, rhi, ip.names, mip.names, mip.st, mip.tt, mhi);
    var ms := Root(mem, mip.st - 1, hm, t, mip.st, mip.tt, mip.gl, mip.bb, mlo, mhi, mip.names, ip.names, ip.st, ip.tt,
                   rhi);
    r, second := Received, Unified;
    var ok;
    if rs.Ref? {
      if !ms.Ref? {
        ok, h, u, bs := OneWay(mem, ip, rs.a, ms, mip.names, rlo, rhi, hm, t, hr, ip.st);
        r := if ok then Received else Expansion;
      }
    } else if ms.Ref? {
      ok, g, v, cs := OneWay(mem, mip, ms.a, rs, ip.names, mlo, mhi, hr, s, hm, mip.st - 1);
      if ok {
        SuccessUnifies(t, v, cs);
        ShapePeak(s, ip.names, v, mip.names);
      } else {
        r := Expansion;
      }
    } else {
      r, second, h, u, bs, g, v, cs := Cross(mem, ip, mip, rs, ms, rlo, rhi, mlo, mhi, hr, s, hm, t);
    }
  }

  /** The receiver's variable for the sender, found before the messages are matched, becomes the sender's name, and
      bt_bbtrail. */
  method BindSender(mem: array<Cell>, ip: Imago, x: nat, name: seq<char>, ghost h: Heap)
    requires HeapAt(mem[..], h, ip.st) && x in h && ip.st <= ip.tt < mem.Length && ip.tt !in h
    requires Terminated(ip.names) && forall i :: 0 <= i < |name| ==> name[i] != NUL
    modifies mem, ip`names, ip`tt
    ensures x < mem.Length && mem[x].Con? && mem[x].n == 0 && SymbolOf(ip.names, mem[x].f) == Named(name)
    ensures Grown(old(ip.names), ip.names)
    ensures HeapNow(mem[..], h) == h[x := mem[x]] && Denotes(HeapNow(mem[..], h), Ref(x), Const(mem[x]))
    ensures if x <= ip.bb then ip.tt == old(ip.tt) - 1 && mem[ip.tt + 1] == Ref(x) else ip.tt == old(ip.tt)
    ensures Unbound(h, x) ==> StillDenotes(mem[..], h, [Binding(x, Const(mem[x]))])
    ensures forall w :: Denotes(h, Ref(x), w) && !Unbound(h, x) ==>
        (Denotes(HeapNow(mem[..], h), Ref(x), w) <==> w == Const(mem[x]))
  {
    ghost var m0 := mem[..];
    var pnames := name + [NUL];
    CStringAppended([], name, 0);
    assert [] + name + [NUL] == pnames && name[0..] == name;
    var v, names := SearchIndex(ip.names, pnames, 0);
    LookedUpKeeps(ip.names, name, v, names);
    ip.names := names;
    assert HeapCell(m0, h, ip.st, x);
    mem[x] := Con(v + ASCII_SIZE, 0);
    if x <= ip.bb {
      mem[ip.tt] := Ref(x);
      ip.tt := ip.tt - 1;
    }
    SenderBound(m0, mem[..], h, ip.st, x, Con(v + ASCII_SIZE, 0));
  }

  lemma SenderBound(m0: seq<Cell>, m: seq<Cell>, h: Heap, st: nat, x: nat, c: Cell)
    requires HeapAt(m0, h, st) && x in h && c.Con? && c.n == 0 && |m| == |m0|
    requires forall y {:trigger m[y]} :: y in h && y < |m| ==> m[y] == if y == x then c else m0[y]
    ensures HeapNow(m, h) == h[x := c] && Denotes(HeapNow(m, h), Ref(x), Const(c))
    ensures Unbound(h, x) ==> StillDenotes(m, h, [Binding(x, Const(c))])
    ensures forall w :: Denotes(h, Ref(x), w) ==> (Denotes(HeapNow(m, h), Ref(x), w) <==> w == Const(c))
  {
    forall y | y in h ensures y < |m| && m[y] == h[x := c][y] { assert HeapCell(m0, h, st, y); }
    assert HeapNow(m, h) == h[x := c];
    assert Decode(h[x := c], c, 1) == Some(Const(c));
    assert Decode(h[x := c], Ref(x), 2) == Some(Const(c));
    forall w | Denotes(h, Ref(x), w) && Denotes(h[x := c], Ref(x), w) ensures w == Const(c) {
      DenotesUnique(h[x := c], Ref(x), w, Const(c));
    }
    if Unbound(h, x) {
      var b := Binding(x, Const(c));
      assert Decode(h, c, 1) == Some(Const(c));
      forall k, w ensures StillAt(m, h, [b], k, w) {
        if Denotes(h, k, w) { BindDenotes(h, x, c, Const(c), k, w); }
        SubstAllMore(w, [], b);
      }
    }
  }

  /** Receiver and messenger of the run below: accept(X, X) with X at 1, and the message 7. */
  method Introduce() returns (mem: array<Cell>, ip: Imago, mip: Imago)
    ensures fresh(mem) && fresh(ip) && fresh(mip) && mem.Length == 64 && ip.st == 2 && ip.tt == 30
    ensures ip.gl == ip.bb == 1 && ip.names == mip.names == ['n', NUL]
    ensures Meeting(mem[..], ip, mip, map[1 := Ref(1), 2 := Ref(1)], Var(1), map[33 := Int(7)], Const(Int(7)), 0, 32,
                    32, 64)
  {
    mem := new Cell[64](i => Int(0));
    mem[1], mem[2], mem[33] := Ref(1), Ref(1), Int(7);
    ip := new Imago(['n', NUL], 2, 30, 1, 1);
    mip := new Imago(['n', NUL], 34, 62, 33, 33);
    Introduced(mem[..]);
  }

  lemma Introduced(m: seq<Cell>)
    requires |m| == 64 && m[1] == m[2] == Ref(1) && m[33] == Int(7)
    ensures var hr, hm, n := map[1 := Ref(1), 2 := Ref(1)], map[33 := Int(7)], ['n', NUL];
      && SideAt(m, hr, Var(1), 2, 2, 30, 1, 1, 0, 32) && SideAt(m, hm, Const(Int(7)), 33, 34, 62, 33, 33, 32, 64)
      && Sendable(m, hm, Const(Int(7)), n, n, 2, 30, 32) && Sendable(m, hr, Var(1), n, n, 34, 62, 64)
  {
    var hr, hm := map[1 := Ref(1), 2 := Ref(1)], map[33 := Int(7)];
    assert Decode(hr, Ref(1), 1) == Some(Var(1)) && Decode(hm, Int(7), 1) == Some(Const(Int(7)));
    assert StrOKAt(hr, 1) && StrOKAt(hr, 2) && StrOKAt(hm, 33);
  }

  /** After the match X is 7. */
  lemma Became(m: seq<Cell>, h: Heap, u: Term, tn: seq<char>, rn: seq<char>, bs: seq<Binding>, st: nat, tt: nat)
    requires Delivered(m, map[1 := Ref(1), 2 := Ref(1)], h, Var(1), u, Const(Int(7)), tn, rn, bs, 2, st, 30, tt, 1, 1)
    requires |m| == 64
    ensures var p := HeapNow(m, h);
      1 in p && Denotes(p, Ref(1), Const(Int(7))) && HeapAt(m, p, st) && forall x :: x in p ==> x < st
  {
    var hr, p: Heap := map[1 := Ref(1), 2 := Ref(1)], HeapNow(m, h);
    assert 1 in hr && 2 in hr;
    assert Decode(h, Ref(1), 1) == Some(Var(1));
    assert StillAt(m, h, bs, Ref(1), Var(1));
    GroundStays(Const(Int(7)), bs);
    forall x | x in p ensures HeapCell(m, p, st, x) { assert x in h; }
  }

  /** A constant has nothing to bind. */
  lemma {:induction false} GroundStays(t: Term, bs: seq<Binding>)
    requires t.Const?
    ensures SubstAll(t, bs) == t
    decreases |bs|
  {
    if bs != [] { GroundStays(t, bs[..|bs| - 1]); }
  }

  /** The sender's name overwrites what the messages have made of its variable: the receiver's accept(X, X) succeeds
      with the message 7, and then X is the name of the sender.  p are the receiver's cells in between, q afterwards. */
  method SenderOverwritten(name: seq<char>) returns (mem: array<Cell>, ghost p: Heap, ghost q: Heap)
    requires forall i :: 0 <= i < |name| ==> name[i] != NUL
    ensures mem.Length == 64 && mem[1].Con?
    ensures Denotes(p, Ref(1), Const(Int(7))) && q.Keys == p.Keys && Denotes(q, Ref(1), Const(mem[1]))
  {
    var ip, mip;
    mem, ip, mip := Introduce();
    ghost var hr, hm := map[1 := Ref(1), 2 := Ref(1)], map[33 := Int(7)];
    var r, second;
    ghost var h, u, bs, g, v, cs;
    r, second, h, u, bs, g, v, cs := Match(mem, ip, mip, 0, 32, 32, 64, hr, Var(1), hm, Const(Int(7)));
    Became(mem[..], h, u, ['n', NUL], ip.names, bs, ip.st, ip.tt);
    p := HeapNow(mem[..], h);
    BindSender(mem, ip, 1, name, p);
    q := HeapNow(mem[..], p);
  }
}
