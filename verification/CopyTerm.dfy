// copy_arg and arg_size: the breadth-first copy of a term into another imago's block, and the depth-first
// measure of the room it takes.  mem is the memory of the machine; both imagoes' blocks lie in it.
module CopyTerm {
  import opened Terms
  import opened NameTable
  import opened CopyMeaning
  import opened CopySteps

  /** The source cells h lie in memory, outside the total + 1 cells above st. */
  ghost predicate Outside(m: seq<Cell>, h: Heap, st: nat, total: nat) {
    forall x {:trigger SourceCell(m, h, st, total, x)} :: x in h ==> SourceCell(m, h, st, total, x)
  }

  ghost predicate SourceCell(m: seq<Cell>, h: Heap, st: nat, total: nat, x: nat)
    requires x in h
  {
    x < |m| && m[x] == h[x] && !(st < x <= st + 1 + total)
  }

  /** The copy of total cells, and its root once more, fits below limit; or no structure is so wide that a copy
      stopped at the trail could pass limit. */
  ghost predicate Room(h: Heap, st: nat, tt: nat, limit: nat, total: nat) {
    || st + 1 + total < limit
    || (tt <= limit && forall x {:trigger h[x]} :: x in h && h[x].Con? ==> tt + h[x].n < limit + 7)
  }

  /** Memory and the scan pointers agree with s. */
  ghost predicate Linked(m: seq<Cell>, st: nat, skbot: nat, sktop: nat, total: nat, s: LiveCopy) {
    && s.base == st + 1 && skbot == s.base + s.at && sktop == s.base + |s.b| <= |m|
    && s.b == m[s.base..sktop] && s.at + Left(s) == total && Outside(m, s.h, st, total)
  }

  /** Only the cells from lo to hi have changed. */
  ghost predicate ChangedWithin(m: seq<Cell>, m': seq<Cell>, lo: int, hi: int) {
    |m'| == |m| && forall x {:trigger m'[x]} :: 0 <= x < |m| && !(lo <= x <= hi) ==> m'[x] == m[x]
  }

  lemma LinkedNext(m: seq<Cell>, m': seq<Cell>, st: nat, skbot: nat, sktop: nat, sktop': nat, total: nat,
                   s: LiveCopy, t: LiveCopy)
    requires Linked(m, st, skbot, sktop, total, s) && Advances(s, t)
    requires ChangedWithin(m, m', st + 1, st + 1 + total)
    requires sktop' == t.base + |t.b| <= |m'| && t.b == m'[t.base..sktop']
    ensures Linked(m', st, t.base + t.at, sktop', total, t)
  {
    forall x | x in t.h ensures SourceCell(m', t.h, st, total, x) { assert SourceCell(m, s.h, st, total, x); }
  }

  /** A round of the scan has taken m to m' and s to t. */
  ghost predicate Scanned(m: seq<Cell>, m': seq<Cell>, st: nat, skbot: nat, sktop: nat, limit: nat, total: nat,
                          s: LiveCopy, t: LiveCopy) {
    && Linked(m', st, skbot, sktop, total, t) && Advances(s, t)
    && ChangedWithin(m, m', st + 1, st + 1 + total) && ChangedWithin(m, m', st + 1, limit - 1)
  }

  lemma LinkedRoom(m: seq<Cell>, st: nat, skbot: nat, sktop: nat, total: nat, s: LiveCopy)
    requires Linked(m, st, skbot, sktop, total, s)
    ensures sktop <= st + 1 + total
    ensures skbot < sktop <==> s.at < |s.b|
  {
  }

  /** deref: the cell found behind bound variables. */
  method Deref(mem: array<Cell>, st: nat, skbot: nat, sktop: nat, ghost total: nat, ghost s: LiveCopy)
    returns (root: Cell, ghost j: nat)
    requires Linked(mem[..], st, skbot, sktop, total, s) && skbot < sktop
    ensures Found(s, root, j) && !root.Raw?
  {
    root, j := mem[skbot], s.k;
    assert PendingCell(s, s.at) && s.b[s.at] == mem[skbot];
    if s.org[s.at].Arg? { FollowRef(mem[..], st, total, s, root, j); }
    while root.Ref? && root != mem[root.a]
      invariant if s.org[s.at].Arg? then Behind(s, root, j) else root == s.b[s.at] && !root.Ref?
      invariant root.Ref? ==> root.a in s.h && root.a < mem.Length && mem[root.a] == s.h[root.a]
      decreases j
    {
      assert KnownCell(s, root.a);
      root, j := mem[root.a], j - 1;
      FollowRef(mem[..], st, total, s, root, j);
    }
  }

  ghost predicate Behind(s: Copy, root: Cell, j: nat)
    requires s.at < |s.org| && s.org[s.at].Arg?
  {
    j <= s.k && Decode(s.h, root, j) == Some(s.org[s.at].t) && Known(s, root)
  }

  lemma FollowRef(m: seq<Cell>, st: nat, total: nat, s: LiveCopy, root: Cell, j: nat)
    requires Outside(m, s.h, st, total) && Decode(s.h, root, j).Some?
    ensures root.Ref? ==> root.a in s.h && root.a < |m| && m[root.a] == s.h[root.a]
  {
    if root.Ref? { assert SourceCell(m, s.h, st, total, root.a); }
  }

  /** derefstr: the structure found behind references from structure to structure. */
  method DerefStr(mem: array<Cell>, st: nat, skbot: nat, sktop: nat, ghost total: nat, ghost s: LiveCopy, v: Cell,
                  ghost i: nat)
    returns (root: Cell, ghost j: nat)
    requires Linked(mem[..], st, skbot, sktop, total, s) && skbot < sktop && Found(s, v, i) && v.Str?
    ensures Found(s, root, j) && root.Str? && root.a in s.h && (s.h[root.a].Con? || s.h[root.a].Fvl?)
    ensures root.a < mem.Length && mem[root.a] == s.h[root.a]
  {
    root, j := v, i;
    assert PendingCell(s, s.at);
    FollowStr(mem[..], st, total, s, root, j);
    while mem[root.a].Str? && root != mem[root.a]
      invariant Found(s, root, j) && root.Str?
      invariant root.a in s.h && root.a < mem.Length && mem[root.a] == s.h[root.a]
      decreases j
    {
      assert KnownCell(s, root.a);
      root, j := mem[root.a], j - 1;
      FollowStr(mem[..], st, total, s, root, j);
    }
  }

  lemma FollowStr(m: seq<Cell>, st: nat, total: nat, s: LiveCopy, root: Cell, j: nat)
    requires Outside(m, s.h, st, total) && Decode(s.h, root, j).Some? && root.Str?
    ensures root.a in s.h && root.a < |m| && m[root.a] == s.h[root.a]
  {
    assert SourceCell(m, s.h, st, total, root.a);
  }

  /** The scanned cell alone gets new contents. */
  method PutCell(mem: array<Cell>, st: nat, skbot: nat, sktop: nat, f: Cell, ghost names: seq<char>, ghost limit: nat,
                 ghost total: nat, ghost s: LiveCopy, ghost t: LiveCopy)
    requires Linked(mem[..], st, skbot, sktop, total, s) && skbot < sktop
    requires t == Finish(s, f, [], [], names) && Advances(s, t) && sktop <= limit
    modifies mem
    ensures Scanned(old(mem[..]), mem[..], st, skbot + 1, sktop, limit, total, s, t)
  {
    ghost var m := mem[..];
    mem[skbot] := f;
    assert mem[..][s.base..sktop] == m[s.base..sktop][s.at := f] == t.b;
    LinkedNext(m, mem[..], st, skbot, sktop, sktop, total, s, t);
  }

  /** Copies the n cells from p on behind the copy. */
  method Append(mem: array<Cell>, p: nat, sktop: nat, n: nat)
    requires p + n <= mem.Length && sktop + n <= mem.Length && (p + n <= sktop || sktop + n <= p)
    modifies mem
    ensures mem[..] == old(mem[..sktop] + mem[p..p + n] + mem[sktop + n..])
  {
    var con := 0;
    while con < n
      invariant con <= n
      invariant forall x {:trigger mem[x]} :: 0 <= x < sktop || sktop + con <= x < mem.Length ==> mem[x] == old(mem[x])
      invariant forall x {:trigger mem[x]} :: sktop <= x < sktop + con ==> mem[x] == old(mem[p + (x - sktop)])
    {
      mem[sktop + con] := mem[p + con];
      con := con + 1;
    }
  }

  /** The scanned cell refers to a new block, the copy of the n cells from p on. */
  method PutBlock(mem: array<Cell>, st: nat, skbot: nat, sktop: nat, f: Cell, p: nat, n: nat, ghost limit: nat,
                  ghost total: nat, ghost s: LiveCopy, ghost t: LiveCopy, ghost os: seq<Origin>)
    returns (top: nat)
    requires Linked(mem[..], st, skbot, sktop, total, s) && skbot < sktop && sktop + n <= limit <= mem.Length
    requires |os| == n > 0 && forall x :: p <= x < p + n ==> x in s.h
    requires t == Finish(s, f, Cells(s.h, p, n), os, s.names) && Advances(s, t)
    modifies mem
    ensures top == sktop + n && Scanned(old(mem[..]), mem[..], st, skbot + 1, top, limit, total, s, t)
  {
    ghost var m := mem[..];
    ghost var bs := Cells(s.h, p, n);
    BlockOutside(m, st, total, s, p, n);
    AppendRoom(m, st, skbot, sktop, total, s, t);
    mem[skbot] := f;
    Append(mem, p, sktop, n);
    top := sktop + n;
    BlockPut(m, mem[..], st, skbot, sktop, f, p, n, total, s);
    LinkedNext(m, mem[..], st, skbot, sktop, top, total, s, t);
  }

  /** What is appended to the copy still belongs to its cells. */
  lemma AppendRoom(m: seq<Cell>, st: nat, skbot: nat, sktop: nat, total: nat, s: LiveCopy, t: LiveCopy)
    requires Linked(m, st, skbot, sktop, total, s) && Advances(s, t)
    ensures s.base + |t.b| <= st + 1 + total
  {
  }

  /** A block of source cells lies below or above the copy. */
  lemma BlockOutside(m: seq<Cell>, st: nat, total: nat, s: LiveCopy, p: nat, n: nat)
    requires Outside(m, s.h, st, total) && n > 0 && forall x :: p <= x < p + n ==> x in s.h
    ensures p + n <= |m| && (p + n <= st + 1 || st + 1 + total < p) && m[p..p + n] == Cells(s.h, p, n)
  {
    assert SourceCell(m, s.h, st, total, p) && SourceCell(m, s.h, st, total, p + n - 1);
    if p <= st < p + n - 1 { NotInside(m, s.h, st, total, st + 1); }
    forall i | 0 <= i < n ensures m[p..p + n][i] == Cells(s.h, p, n)[i] { assert SourceCell(m, s.h, st, total, p + i); }
  }

  lemma NotInside(m: seq<Cell>, h: Heap, st: nat, total: nat, x: nat)
    requires Outside(m, h, st, total) && x in h
    ensures !(st < x <= st + 1 + total)
  {
    assert SourceCell(m, h, st, total, x);
  }

  lemma BlockPut(m: seq<Cell>, m': seq<Cell>, st: nat, skbot: nat, sktop: nat, f: Cell, p: nat, n: nat, total: nat,
                 s: LiveCopy)
    requires Linked(m, st, skbot, sktop, total, s) && skbot < sktop && sktop + n <= st + 2 + total && sktop + n <= |m|
    requires p + n <= |m| && (p + n <= st + 1 || st + 1 + total < p)
    requires var m1 := m[skbot := f]; m' == m1[..sktop] + m1[p..p + n] + m1[sktop + n..]
    ensures ChangedWithin(m, m', st + 1, st + 1 + total) && ChangedWithin(m, m', st + 1, sktop + n - 1)
    ensures m'[s.base..sktop + n] == s.b[s.at := f] + m[p..p + n]
  {
    var m1 := m[skbot := f];
    assert m1[p..p + n] == m[p..p + n];
    assert m'[s.base..sktop] == m1[s.base..sktop] == s.b[s.at := f];
    assert m'[s.base..sktop + n] == m'[s.base..sktop] + m'[sktop..sktop + n];
  }

  /** What the finished scan has made of t: the cells from base to top. */
  ghost predicate Copied(m: seq<Cell>, base: nat, top: nat, t: Term, pnames: seq<char>, names: seq<char>, u: Term) {
    && base < top < |m| && m[top] == m[base]
    && Denotes(BlockHeap(m, base, top), m[top], u)
    && ShapeOf(u, names) == ShapeOf(t, pnames) && Spelled(u, names)
    && Linear(u) && (forall v :: v in Occurrences(u) ==> base <= v < top)
    && Structures(BlockHeap(m, base, top)) && StrOK(BlockHeap(m, base, top), m[top])
  }

  ghost function BlockHeap(m: seq<Cell>, lo: nat, hi: nat): Heap {
    map x | lo <= x < hi && x < |m| :: m[x]
  }

  lemma CopyDone(m: seq<Cell>, st: nat, sktop: nat, total: nat, s: LiveCopy, t: Term, m': seq<Cell>) returns (u: Term)
    requires Linked(m, st, sktop, sktop, total, s) && |s.b| > 0 && s.org[0] == Arg(t, 0)
    requires sktop < |m| && m' == m[sktop := m[st + 1]]
    ensures sktop == st + 1 + total && Copied(m', st + 1, sktop, t, s.pnames, s.names, u)
  {
    var p := BlockHeap(m', st + 1, sktop);
    forall c | 0 <= c < |s.b| ensures CellAt(p, s, c) { assert m'[s.base..sktop][c] == s.b[c]; }
    var g;
    u, g := CopyDenotes(s, p, 0, t, 0);
    assert m'[sktop] == s.b[0];
    CopyStructures(s, p, 0);
    forall x | x in p ensures StrOKAt(p, x) { CopyStructures(s, p, x - s.base); assert CellAt(p, s, x - s.base); }
    CopiesAreLinear(s, t, 0, u);
  }

  /** An imago that receives a copy: its name table, stack top, trail top, generation line and choice point. */
  class Imago {
    var names: seq<char>
    var st: nat
    var tt: nat
    var gl: nat
    var bb: nat

    constructor (names: seq<char>, st: nat, tt: nat, gl: nat, bb: nat)
      ensures this.names == names && this.st == st && this.tt == tt && this.gl == gl && this.bb == bb
    {
      this.names, this.st, this.tt, this.gl, this.bb := names, st, tt, gl, bb;
    }

    /** copy_arg.  h are the source cells, in which the argument proot denotes t; pnames is the source's name table
        and limit the end of this imago's block.  None is the demand for an expansion. */
    method CopyArg(mem: array<Cell>, proot: Cell, pnames: seq<char>, ghost limit: nat, ghost h: Heap, ghost k: nat,
                   ghost t: Term)
      returns (top: Option<nat>, ghost u: Term)
      requires Decode(h, proot, k) == Some(t) && (proot.Con? ==> proot.f < ASCII_SIZE + |pnames|)
      requires Tables(Copy(h, k, pnames, st + 1, names, [], 0, []))
      requires st + 1 < limit <= mem.Length && Outside(mem[..], h, st, TermSize(t))
      requires Room(h, st, tt, limit, TermSize(t))
      modifies mem, this`names
      ensures old(names) <= names && Terminated(names)
      ensures ChangedWithin(old(mem[..]), mem[..], st + 1, st + 1 + TermSize(t))
      ensures ChangedWithin(old(mem[..]), mem[..], st + 1, limit - 1)
      ensures top == if st + TermSize(t) + 7 < tt then Some(st + 1 + TermSize(t)) else None
      ensures top.Some? ==> Copied(mem[..], st + 1, top.value, t, pnames, names, u)
    {
      var sktop;
      ghost var s;
      u := t;
      top, sktop, s := PlaceAndScan(mem, proot, pnames, limit, h, k, t);
      if top.Some? { u := Close(mem, st, sktop, s, t); }
    }

    /** The same without the root on top. */
    method PlaceAndScan(mem: array<Cell>, proot: Cell, pnames: seq<char>, ghost limit: nat, ghost h: Heap, ghost k: nat,
                        ghost t: Term)
      returns (top: Option<nat>, sktop: nat, ghost s: LiveCopy)
      requires Decode(h, proot, k) == Some(t) && (proot.Con? ==> proot.f < ASCII_SIZE + |pnames|)
      requires Tables(Copy(h, k, pnames, st + 1, names, [], 0, []))
      requires st + 1 < limit <= mem.Length && Outside(mem[..], h, st, TermSize(t))
      requires Room(h, st, tt, limit, TermSize(t))
      modifies mem, this`names
      ensures old(names) <= names && Terminated(names)
      ensures ChangedWithin(old(mem[..]), mem[..], st + 1, st + 1 + TermSize(t))
      ensures ChangedWithin(old(mem[..]), mem[..], st + 1, limit - 1)
      ensures top == if st + TermSize(t) + 7 < tt then Some(sktop) else None
      ensures top.Some? ==> sktop == st + 1 + TermSize(t) < limit && Linked(mem[..], st, sktop, sktop, TermSize(t), s)
      ensures top.Some? ==> |s.b| > 0 && s.org[0] == Arg(t, 0) && s.pnames == pnames && s.names == names
    {
      s := Place(mem, proot, pnames, st, names, h, k, t);
      top, sktop, s := ScanAll(mem, pnames, limit, TermSize(t), s);
      if top.Some? { ScanEnds(mem[..], st, sktop, TermSize(t), s); }
    }

    /** The scan of all cells, given up when the copy comes too close to the trail. */
    method ScanAll(mem: array<Cell>, pnames: seq<char>, ghost limit: nat, ghost total: nat, ghost s: LiveCopy)
      returns (top: Option<nat>, sktop: nat, ghost t: LiveCopy)
      requires Linked(mem[..], st, st + 1, st + 2, total, s)
      requires s.pnames == pnames && s.names == names && limit <= mem.Length && Room(s.h, st, tt, limit, total)
      modifies mem, this`names
      ensures Grows(s.(at := 0), t) && t.names == names
      ensures ChangedWithin(old(mem[..]), mem[..], st + 1, st + 1 + total)
      ensures ChangedWithin(old(mem[..]), mem[..], st + 1, limit - 1)
      ensures top == if st + total + 7 < tt then Some(sktop) else None
      ensures top.Some? ==> sktop < limit && Linked(mem[..], st, sktop, sktop, total, t)
    {
      var skbot: nat;
      skbot, sktop, t := st + 1, st + 2, s;
      ghost var m0 := mem[..];
      while skbot < sktop
        invariant Linked(mem[..], st, skbot, sktop, total, t) && ChangedWithin(m0, mem[..], st + 1, st + 1 + total)
        invariant ChangedWithin(m0, mem[..], st + 1, limit - 1)
        invariant Grows(s.(at := 0), t) && t.names == names
        invariant skbot == sktop ==> sktop + 6 < tt
        decreases Left(t)
      {
        LinkedRoom(mem[..], st, skbot, sktop, total, t);
        if tt <= sktop + 6 {
          return None, sktop, t;
        }
        skbot, sktop, t := ScanCell(mem, skbot, sktop, pnames, limit, total, t);
      }
      LinkedRoom(mem[..], st, skbot, sktop, total, t);
      top := Some(sktop);
    }

    /** One round of the scan. */
    method ScanCell(mem: array<Cell>, skbot: nat, sktop: nat, pnames: seq<char>, ghost limit: nat,
                    ghost total: nat, ghost s: LiveCopy)
      returns (skbot': nat, sktop': nat, ghost t: LiveCopy)
      requires Linked(mem[..], st, skbot, sktop, total, s) && skbot < sktop && sktop + 6 < tt
      requires s.pnames == pnames && s.names == names && limit <= mem.Length && Room(s.h, st, tt, limit, total)
      modifies mem, this`names
      ensures Scanned(old(mem[..]), mem[..], st, skbot', sktop', limit, total, s, t) && t.names == names
      ensures skbot' == sktop' ==> sktop' == sktop
    {
      var root;
      ghost var j;
      root, j := Deref(mem, st, skbot, sktop, total, s);
      ScanRoom(mem[..], st, tt, skbot, sktop, limit, total, s);
      skbot', sktop' := skbot + 1, sktop;
      if root.Ref? {
        t := EndVar(s, root, j);
        PutCell(mem, st, skbot, sktop, Ref(skbot), names, limit, total, s, t);
      } else if root.Int? || root == Con(ASCII_SIZE, 0) {
        t := EndUnchanged(s, root, j);
        PutCell(mem, st, skbot, sktop, root, names, limit, total, s, t);
      } else if root.Fvl? {
        t := PassFloat(mem[..], st, skbot, sktop, limit, total, s, j);
        skbot' := skbot + 3;
      } else if root.Con? {
        t := ScanSymbol(mem, skbot, sktop, root, pnames, limit, total, s, j);
      } else {
        sktop', t := ScanBlock(mem, st, tt, skbot, sktop, root, limit, total, s, j);
      }
    }

    /** A constant or a functor. */
    method ScanSymbol(mem: array<Cell>, skbot: nat, sktop: nat, root: Cell, pnames: seq<char>, ghost limit: nat,
                      ghost total: nat, ghost s: LiveCopy, ghost j: nat)
      returns (ghost t: LiveCopy)
      requires Linked(mem[..], st, skbot, sktop, total, s) && skbot < sktop && Found(s, root, j) && root.Con?
      requires s.pnames == pnames && s.names == names && sktop <= limit
      modifies mem, this`names
      ensures Scanned(old(mem[..]), mem[..], st, skbot + 1, sktop, limit, total, s, t) && t.names == names
    {
      SymbolKnown(s, root, j);
      if root.f < ASCII_SIZE {
        t := EndUnchanged(s, root, j);
        PutCell(mem, st, skbot, sktop, root, names, limit, total, s, t);
      } else {
        var con, names' := SearchIndex(names, pnames, root.f - ASCII_SIZE);
        t := EndSymbol(s, root, j, con, names');
        PutCell(mem, st, skbot, sktop, Con(con + ASCII_SIZE, root.n), names', limit, total, s, t);
        names := names';
      }
    }
  }

  /** A copy that has not come too close to the trail stays below limit. */
  lemma ScanRoom(m: seq<Cell>, st: nat, tt: nat, skbot: nat, sktop: nat, limit: nat, total: nat, s: LiveCopy)
    requires Linked(m, st, skbot, sktop, total, s) && Room(s.h, st, tt, limit, total) && sktop + 6 < tt
    ensures sktop + 2 < limit || st + 1 + total < limit
    ensures sktop <= limit
    ensures forall x {:trigger s.h[x]} :: x in s.h && s.h[x].Con? ==> sktop + s.h[x].n < limit || st + 1 + total < limit
  {
  }

  lemma PassFloat(m: seq<Cell>, st: nat, skbot: nat, sktop: nat, limit: nat, total: nat, s: LiveCopy,
                  j: nat) returns (t: LiveCopy)
    requires Linked(m, st, skbot, sktop, total, s) && skbot < sktop && Found(s, Fvl, j)
    ensures Scanned(m, m, st, skbot + 3, sktop, limit, total, s, t) && t.names == s.names
  {
    assert s.b[s.at].Fvl?;
    t := EndHeader(s);
    LinkedNext(m, m, st, skbot, sktop, sktop, total, s, t);
  }

  /** A list, a structure or a float. */
  method ScanBlock(mem: array<Cell>, st: nat, ghost tt: nat, skbot: nat, sktop: nat, root: Cell, ghost limit: nat,
                   ghost total: nat, ghost s: LiveCopy, ghost j: nat)
    returns (sktop': nat, ghost t: LiveCopy)
    requires Linked(mem[..], st, skbot, sktop, total, s) && skbot < sktop && Found(s, root, j)
    requires (root.Lis? || root.Str?)
    requires limit <= mem.Length && Room(s.h, st, tt, limit, total) && sktop + 6 < tt
    modifies mem
    ensures Scanned(old(mem[..]), mem[..], st, skbot + 1, sktop', limit, total, s, t) && t.names == s.names
    ensures sktop' > sktop
  {
    if root.Lis? {
      sktop', t := ScanPair(mem, st, tt, skbot, sktop, root, limit, total, s, j);
    } else {
      sktop', t := ScanStr(mem, st, tt, skbot, sktop, root, limit, total, s, j);
    }
  }

  /** A list: head and tail go behind the copy. */
  method ScanPair(mem: array<Cell>, st: nat, ghost tt: nat, skbot: nat, sktop: nat, root: Cell, ghost limit: nat,
                  ghost total: nat, ghost s: LiveCopy, ghost j: nat)
    returns (sktop': nat, ghost t: LiveCopy)
    requires Linked(mem[..], st, skbot, sktop, total, s) && skbot < sktop && Found(s, root, j) && root.Lis?
    requires limit <= mem.Length && Room(s.h, st, tt, limit, total) && sktop + 6 < tt
    modifies mem
    ensures Scanned(old(mem[..]), mem[..], st, skbot + 1, sktop', limit, total, s, t) && t.names == s.names
    ensures sktop' > sktop
  {
    ghost var os;
    t, os := EndPair(s, root, j);
    AppendRoom(mem[..], st, skbot, sktop, total, s, t);
    assert [s.h[root.a], s.h[root.a + 1]] == Cells(s.h, root.a, 2);
    sktop' := PutBlock(mem, st, skbot, sktop, Lis(sktop), root.a, 2, limit, total, s, t, os);
  }

  /** A structure or a float: all its cells go behind the copy. */
  method ScanStr(mem: array<Cell>, st: nat, ghost tt: nat, skbot: nat, sktop: nat, v: Cell, ghost limit: nat,
                 ghost total: nat, ghost s: LiveCopy, ghost i: nat)
    returns (sktop': nat, ghost t: LiveCopy)
    requires Linked(mem[..], st, skbot, sktop, total, s) && skbot < sktop && Found(s, v, i) && v.Str?
    requires limit <= mem.Length && Room(s.h, st, tt, limit, total) && sktop + 6 < tt
    modifies mem
    ensures Scanned(old(mem[..]), mem[..], st, skbot + 1, sktop', limit, total, s, t) && t.names == s.names
    ensures sktop' > sktop
  {
    var root;
    ghost var j, os;
    root, j := DerefStr(mem, st, skbot, sktop, total, s, v, i);
    var n := if mem[root.a].Fvl? then 3 else mem[root.a].n + 1;
    t, os := StrEnds(mem[..], st, skbot, sktop, total, s, root.a, j);
    sktop' := PutBlock(mem, st, skbot, sktop, Str(sktop), root.a, n, limit, total, s, t, os);
  }

  lemma StrEnds(m: seq<Cell>, st: nat, skbot: nat, sktop: nat, total: nat, s: LiveCopy, p: nat, j: nat)
    returns (t: LiveCopy, os: seq<Origin>)
    requires Linked(m, st, skbot, sktop, total, s) && skbot < sktop
    requires Found(s, Str(p), j) && p in s.h && (s.h[p].Con? || s.h[p].Fvl?)
    ensures |os| == (if s.h[p].Fvl? then 3 else s.h[p].n + 1) && forall x :: p <= x < p + |os| ==> x in s.h
    ensures t == Finish(s, Str(sktop), Cells(s.h, p, |os|), os, s.names) && Advances(s, t)
    ensures t.base + |t.b| <= st + 1 + total
  {
    if s.h[p].Fvl? {
      t, os := EndFloat(s, p, j);
      assert [Fvl, s.h[p + 1], s.h[p + 2]] == Cells(s.h, p, 3);
    } else {
      t, os := EndStruct(s, p, j);
    }
    AppendRoom(m, st, skbot, sktop, total, s, t);
  }

  /** The root is the first cell to be scanned. */
  method Place(mem: array<Cell>, proot: Cell, ghost pnames: seq<char>, st: nat, ghost names: seq<char>,
               ghost h: Heap, ghost k: nat, ghost t: Term)
    returns (ghost s: LiveCopy)
    requires Decode(h, proot, k) == Some(t) && (proot.Con? ==> proot.f < ASCII_SIZE + |pnames|)
    requires Tables(Copy(h, k, pnames, st + 1, names, [], 0, []))
    requires st + 1 < mem.Length && Outside(mem[..], h, st, TermSize(t))
    modifies mem
    ensures Linked(mem[..], st, st + 1, st + 2, TermSize(t), s) && s.org == [Arg(t, 0)]
    ensures s.h == h && s.pnames == pnames && s.names == names && s.base == st + 1
    ensures ChangedWithin(old(mem[..]), mem[..], st + 1, st + 1)
  {
    ghost var m := mem[..];
    s := Begin(h, k, pnames, st + 1, names, proot, t);
    mem[st + 1] := proot;
    LinkedFirst(m, mem[..], st, TermSize(t), s);
  }

  lemma ScanEnds(m: seq<Cell>, st: nat, sktop: nat, total: nat, s: LiveCopy)
    requires Linked(m, st, sktop, sktop, total, s)
    ensures sktop == st + 1 + total
  {
  }

  /** The root goes onto the top of the copy. */
  method Close(mem: array<Cell>, st: nat, sktop: nat, ghost s: LiveCopy, ghost t: Term) returns (ghost u: Term)
    requires Linked(mem[..], st, sktop, sktop, TermSize(t), s) && |s.b| > 0 && s.org[0] == Arg(t, 0)
    requires sktop < mem.Length
    modifies mem
    ensures sktop == st + 1 + TermSize(t) && Copied(mem[..], st + 1, sktop, t, s.pnames, s.names, u)
    ensures ChangedWithin(old(mem[..]), mem[..], st + 1, sktop)
  {
    ghost var m := mem[..];
    mem[sktop] := mem[st + 1];
    u := CopyDone(m, st, sktop, TermSize(t), s, t, mem[..]);
  }

  lemma LinkedFirst(m: seq<Cell>, m': seq<Cell>, st: nat, total: nat, s: LiveCopy)
    requires Outside(m, s.h, st, total) && s.base == st + 1 && s.at == 0 && |s.b| == 1 && Left(s) == total
    requires st + 1 < |m| && m' == m[st + 1 := s.b[0]]
    ensures Linked(m', st, st + 1, st + 2, total, s) && ChangedWithin(m, m', st + 1, st + 1)
  {
    forall x | x in s.h ensures SourceCell(m', s.h, st, total, x) { assert SourceCell(m, s.h, st, total, x); }
  }
}
