// Receiving a message: the messenger's term is copied onto the receiver's stack and unified there with the
// term the receiver expects.
module Messages {
  import opened Terms
  import opened NameTable
  import opened CopyMeaning
  import opened CopyTerm
  import opened Substitution
  import opened UnifySteps
  import opened MsgUnify
  import opened WorkRoom

  /** The receiver's live cells and the copy. */
  ghost function Joined(h: Heap, p: Heap): Heap {
    map x | x in h.Keys + p.Keys :: if x in p then p[x] else h[x]
  }

  /** One side of an exchange: the imago's term s, denoted by the cell at at, and its live cells hr. */
  ghost predicate Expecting(m: seq<Cell>, hr: Heap, s: Term, at: nat, st: nat, tt: nat, gl: nat, bb: nat) {
    && at <= st && bb <= gl <= st < tt < |m| && HeapAt(m, hr, st) && Structures(hr)
    && Denotes(hr, m[at], s) && StrOK(hr, m[at])
  }

  lemma StillExpecting(m: seq<Cell>, m': seq<Cell>, hr: Heap, s: Term, at: nat, st: nat, hi: int, tt: nat, gl: nat,
                       bb: nat)
    requires Expecting(m, hr, s, at, st, tt, gl, bb) && ChangedWithin(m, m', st + 1, hi)
    ensures Expecting(m', hr, s, at, st, tt, gl, bb)
  {
    forall x | x in hr ensures HeapCell(m', hr, st, x) { assert HeapCell(m, hr, st, x); }
  }

  lemma JoinedWithin(m: seq<Cell>, hr: Heap, st: nat, p: Heap)
    requires HeapAt(m, hr, st) && forall x :: x in p ==> x > st
    ensures Within(hr, Joined(hr, p)) && Within(p, Joined(hr, p))
  {
    forall x | x in hr ensures x !in p { assert HeapCell(m, hr, st, x); }
  }

  lemma JoinedStructures(hr: Heap, p: Heap)
    requires Structures(hr) && Structures(p) && Within(hr, Joined(hr, p)) && Within(p, Joined(hr, p))
    ensures Structures(Joined(hr, p))
  {
    var h := Joined(hr, p);
    forall x | x in h ensures StrOKAt(h, x) {
      if x in p { assert StrOKAt(p, x); StrOKWithin(p, h, p[x]); } else {
        assert StrOKAt(hr, x);
        StrOKWithin(hr, h, hr[x]);
      }
    }
  }

  /** A fresh linear copy shares no variable with what lies below it. */
  lemma CopySeparate(m: seq<Cell>, hr: Heap, c: Cell, s: Term, st: nat, top: nat, u: Term)
    requires HeapAt(m, hr, st) && Denotes(hr, c, s) && forall v :: v in Occurrences(u) ==> st + 1 <= v < top
    ensures Separate(s, u)
  {
    var k: nat :| Decode(hr, c, k) == Some(s);
    forall v | v in Occurrences(s) ensures v !in Occurrences(u) {
      VariablesInHeap(hr, c, k, v);
      assert HeapCell(m, hr, st, v);
    }
  }

  /** The copy on top of the stack is what msg_unify needs. */
  lemma CopyReady(m: seq<Cell>, hr: Heap, s: Term, at: nat, st: nat, top: nat, tt: nat, gl: nat, bb: nat,
                  t: Term, pnames: seq<char>, names: seq<char>, u: Term)
    requires Expecting(m, hr, s, at, st, tt, gl, bb) && Copied(m, st + 1, top, t, pnames, names, u)
    requires top <= tt
    ensures Ready(m, Joined(hr, BlockHeap(m, st + 1, top)), s, u, at, top, tt, gl, bb)
  {
    var p := BlockHeap(m, st + 1, top);
    var h := Joined(hr, p);
    JoinedWithin(m, hr, st, p);
    JoinedStructures(hr, p);
    CopySeparate(m, hr, m[at], s, st, top, u);
    SameShapeSameSize(u, names, t, pnames);
    DenotesWithin(hr, h, m[at], s);
    StrOKWithin(hr, h, m[at]);
    DenotesWithin(p, h, m[top], u);
    StrOKWithin(p, h, m[top]);
    forall x | x in h ensures HeapCell(m, h, top, x) { if x !in p { assert HeapCell(m, hr, st, x); } }
  }

  /** What copying has made ready: the imago's cells with the copy u of t, at top. */
  ghost predicate Arrived(m: seq<Cell>, hr: Heap, h: Heap, s: Term, at: nat, st: nat, top: nat, tt: nat, gl: nat,
                          bb: nat, t: Term, pnames: seq<char>, names: seq<char>, u: Term) {
    && ShapeOf(u, names) == ShapeOf(t, pnames) && Spelled(u, names)
    && Within(hr, h) && Ready(m, h, s, u, at, top, tt, gl, bb)
    && forall x {:trigger x in h} :: x in h ==> x in hr || st < x < top
  }

  /** Copying has left the imago's cells alone. */
  lemma CopyStands(m0: seq<Cell>, m: seq<Cell>, hr: Heap, s: Term, at: nat, st: nat, top: nat, tt: nat, gl: nat,
                   bb: nat, t: Term, pnames: seq<char>, names: seq<char>, u: Term) returns (h: Heap)
    requires Expecting(m0, hr, s, at, st, tt, gl, bb) && ChangedWithin(m0, m, st + 1, top)
    requires Copied(m, st + 1, top, t, pnames, names, u) && top <= tt
    ensures Arrived(m, hr, h, s, at, st, top, tt, gl, bb, t, pnames, names, u)
  {
    StillExpecting(m0, m, hr, s, at, st, top, tt, gl, bb);
    CopyReady(m, hr, s, at, st, top, tt, gl, bb, t, pnames, names, u);
    h := Joined(hr, BlockHeap(m, st + 1, top));
    JoinedWithin(m, hr, st, BlockHeap(m, st + 1, top));
  }

  /** copy_arg finds no lack of room. */
  predicate Fits(t: Term, st: nat, tt: nat) {
    st + TermSize(t) + 7 < tt
  }

  /** The copy can be unified with whatever the receiver expects, and the work stack does not meet the trail. */
  predicate Ample(t: Term, st: nat, tt: nat) {
    st + 1 + TermSize(t) + Peak(t) <= tt
  }

  /** The term t in the cells h can be copied above st, from the table pnames to the table names. */
  ghost predicate Sendable(m: seq<Cell>, h: Heap, t: Term, pnames: seq<char>, names: seq<char>, st: nat, tt: nat,
                           limit: nat) {
    && Tables(Copy(h, 0, pnames, st + 1, names, [], 0, []))
    && st + 1 < limit <= |m| && Outside(m, h, st, TermSize(t)) && Room(h, st, tt, limit, TermSize(t))
  }

  /** Its table of names may grow meanwhile, and other cells may change. */
  lemma StillSendable(m: seq<Cell>, m': seq<Cell>, h: Heap, t: Term, pnames: seq<char>, more: seq<char>,
                      names: seq<char>, st: nat, tt: nat, limit: nat)
    requires Sendable(m, h, t, pnames, names, st, tt, limit) && pnames <= more && Terminated(more) && |m'| == |m|
    requires forall x {:trigger m'[x]} :: x in h && x < |m| ==> m'[x] == m[x]
    ensures Sendable(m', h, t, more, names, st, tt, limit)
  {
    var s, s' := Copy(h, 0, pnames, st + 1, names, [], 0, []), Copy(h, 0, more, st + 1, names, [], 0, []);
    CStringKept(pnames, more, 0);
    forall x | x in h ensures KnownCell(s', x) { assert KnownCell(s, x); }
    forall x | x in h ensures SourceCell(m', h, st, TermSize(t), x) { assert SourceCell(m, h, st, TermSize(t), x); }
  }

  /** The term t, the root of which is the cell ms, is copied on top of the imago's stack, and stands ready to be
      unified. */
  method CopyIn(mem: array<Cell>, ip: Imago, ms: Cell, pnames: seq<char>, limit: nat, ghost hm: Heap, ghost t: Term,
                ghost hr: Heap, ghost s: Term, ghost at: nat)
    returns (rst: Option<nat>, ghost h: Heap, ghost u: Term)
    requires Denotes(hm, ms, t) && (ms.Con? ==> ms.f < ASCII_SIZE + |pnames|)
    requires Sendable(mem[..], hm, t, pnames, ip.names, ip.st, ip.tt, limit)
    requires Expecting(mem[..], hr, s, at, ip.st, ip.tt, ip.gl, ip.bb)
    modifies mem, ip`names
    ensures rst == if Fits(t, ip.st, ip.tt) then Some(ip.st + 1 + TermSize(t)) else None
    ensures rst.Some? ==> Arrived(mem[..], hr, h, s, at, ip.st, rst.value, ip.tt, ip.gl, ip.bb, t, pnames, ip.names, u)
    ensures old(ip.names) <= ip.names && Terminated(ip.names)
    ensures ChangedWithin(old(mem[..]), mem[..], ip.st + 1, limit - 1)
  {
    ghost var m0 := mem[..];
    ghost var k: nat :| Decode(hm, ms, k) == Some(t);
    TablesAt(hm, k, pnames, ip.st + 1, ip.names);
    h := hr;
    rst, u := ip.CopyArg(mem, ms, pnames, limit, hm, k, t);
    if rst.Some? {
      h := CopyStands(m0, mem[..], hr, s, at, ip.st, rst.value, ip.tt, ip.gl, ip.bb, t, pnames, ip.names, u);
    }
  }

  lemma TablesAt(h: Heap, k: nat, pnames: seq<char>, base: nat, names: seq<char>)
    requires Tables(Copy(h, 0, pnames, base, names, [], 0, []))
    ensures Tables(Copy(h, k, pnames, base, names, [], 0, []))
  {
    var s, s' := Copy(h, 0, pnames, base, names, [], 0, []), Copy(h, k, pnames, base, names, [], 0, []);
    forall x | x in h ensures KnownCell(s', x) { assert KnownCell(s, x); }
  }
}
