// The hash tables of compiled procedures: the assembler lays them out with linear probing, with tagged words as
// keys, and the engine searches them with what it makes of the tagged word it has.
module HashCode {
  import opened Terms
  import opened Primes

  datatype Entry = Entry(term: int, loc: int)

  /** The location of the first pair for a key. */
  function First(es: seq<Entry>, key: int): Option<int> {
    if es == [] then None else
    var r := First(es[..|es| - 1], key);
    if r.Some? then r else if es[|es| - 1].term == key then Some(es[|es| - 1].loc) else None
  }

  /** It is that of a pair with the key that has none before it, if there is one. */
  lemma {:induction false} FirstIs(es: seq<Entry>, key: int, i: nat)
    requires i < |es| && es[i].term == key && forall j :: 0 <= j < i ==> es[j].term != key
    ensures First(es, key) == Some(es[i].loc)
    decreases |es|
  {
    var n := |es| - 1;
    if i < n { FirstIs(es[..n], key, i); } else { FirstNone(es[..n], key); }
  }

  lemma {:induction false} FirstNone(es: seq<Entry>, key: int)
    ensures First(es, key) == None <==> forall i :: 0 <= i < |es| ==> es[i].term != key
    decreases |es|
  {
    if es != [] { FirstNone(es[..|es| - 1], key); }
  }

  lemma FirstAppend(es: seq<Entry>, e: Entry, key: int)
    ensures First(es + [e], key) ==
      if First(es, key).Some? then First(es, key) else if e.term == key then Some(e.loc) else None
  {
    assert (es + [e])[..|es|] == es;
  }

  /** The slot reached from h in t steps. */
  function At(h: nat, t: nat, size: nat): (i: nat)
    requires h < size && t < size
    ensures i < size
  {
    if h + t < size then h + t else h + t - size
  }

  function KeyAt(c: seq<int>, pc: nat, i: nat): int
    requires pc + 2 * i + 1 < |c|
  {
    c[pc + 2 * i]
  }

  function LocAt(c: seq<int>, pc: nat, i: nat): int
    requires pc + 2 * i + 1 < |c|
  {
    c[pc + 2 * i + 1]
  }

  /** The slots passed on the way from the home of key are taken, by other keys. */
  ghost predicate Path(c: seq<int>, pc: nat, size: nat, key: int, t: nat)
    requires size > 0 && pc + 2 * size <= |c| && key >= 0 && t <= size
  {
    forall u {:trigger At(key % size, u, size)} :: 0 <= u < t ==>
      KeyAt(c, pc, At(key % size, u, size)) != 0 && KeyAt(c, pc, At(key % size, u, size)) != key
  }

  ghost predicate FoundAt(c: seq<int>, pc: nat, size: nat, key: int, t: nat)
    requires size > 0 && pc + 2 * size <= |c| && key >= 0
  {
    t < size && Path(c, pc, size, key, t) && KeyAt(c, pc, At(key % size, t, size)) == key
  }

  ghost predicate Found(c: seq<int>, pc: nat, size: nat, key: int)
    requires size > 0 && pc + 2 * size <= |c|
  {
    key > 0 && exists t {:trigger FoundAt(c, pc, size, key, t)} :: FoundAt(c, pc, size, key, t)
  }

  ghost predicate SlotOK(c: seq<int>, pc: nat, i: nat, es: seq<Entry>, other: int)
    requires pc + 2 * i + 1 < |c|
  {
    if KeyAt(c, pc, i) == 0 then LocAt(c, pc, i) == other else First(es, KeyAt(c, pc, i)) == Some(LocAt(c, pc, i))
  }

  ghost function Filled(c: seq<int>, pc: nat, n: nat): nat
    requires pc + 2 * n <= |c|
  {
    if n == 0 then 0 else Filled(c, pc, n - 1) + if KeyAt(c, pc, n - 1) != 0 then 1 else 0
  }

  /** The code at pc is a table of the given size for the pairs es; other is the branch for all other keys. */
  ghost predicate Built(c: seq<int>, pc: nat, size: nat, es: seq<Entry>, other: int) {
    && size > 0 && pc + 2 * size <= |c| && Filled(c, pc, size) <= |es|
    && (forall i {:trigger SlotOK(c, pc, i, es, other)} :: 0 <= i < size ==> SlotOK(c, pc, i, es, other))
    && (forall key {:trigger First(es, key)} :: First(es, key).Some? ==> Found(c, pc, size, key))
  }

  lemma {:induction false} AllFilled(c: seq<int>, pc: nat, n: nat)
    requires pc + 2 * n <= |c| && forall i {:trigger KeyAt(c, pc, i)} :: 0 <= i < n ==> KeyAt(c, pc, i) != 0
    ensures Filled(c, pc, n) == n
  {
    if n > 0 { assert KeyAt(c, pc, n - 1) != 0; AllFilled(c, pc, n - 1); }
  }

  /** A search that has passed all slots would have found the table full. */
  lemma RoomOnPath(c: seq<int>, pc: nat, size: nat, key: int, t: nat, es: seq<Entry>, other: int)
    requires Built(c, pc, size, es, other) && |es| < size && key >= 0 && t <= size && Path(c, pc, size, key, t)
    ensures t < size
  {
    if t == size {
      forall i | 0 <= i < size ensures KeyAt(c, pc, i) != 0 {
        var h := key % size;
        assert At(h, if i >= h then i - h else i + size - h, size) == i;
      }
      AllFilled(c, pc, size);
    }
  }

  /** An empty slot on the path of a key: the key is not in the table. */
  lemma Absent(c: seq<int>, pc: nat, size: nat, key: int, t: nat, es: seq<Entry>, other: int)
    requires Built(c, pc, size, es, other) && key >= 0 && t < size && Path(c, pc, size, key, t)
    requires KeyAt(c, pc, At(key % size, t, size)) == 0
    ensures First(es, key).None?
  {
  }

  lemma NextSlot(h: nat, t: nat, size: nat)
    requires h < size && t + 1 < size
    ensures (At(h, t, size) + 1) % size == At(h, t + 1, size)
  {
    var a := At(h, t, size);
    if a + 1 == size { assert (a + 1) % size == 0; } else { assert (a + 1) % size == a + 1; }
  }

  /** The engine's search. */
  method Probe(code: array<int>, pc: nat, size: nat, key: int, ghost es: seq<Entry>,
               ghost other: int) returns (loc: int)
    requires Built(code[..], pc, size, es, other) && |es| < size && key >= 0
    ensures loc == if First(es, key).Some? then First(es, key).value else other
  {
    ghost var c, t: nat := code[..], 0;
    var dx := key % size;
    while code[pc + dx * 2] != 0 && code[pc + dx * 2] != key
      invariant t < size && dx == At(key % size, t, size) && Path(c, pc, size, key, t)
      decreases size - t
    {
      assert KeyAt(c, pc, dx) == code[pc + dx * 2];
      PathOn(c, pc, size, key, t);
      RoomOnPath(c, pc, size, key, t + 1, es, other);
      NextSlot(key % size, t, size);
      dx := (dx + 1) % size;
      t := t + 1;
    }
    assert SlotOK(c, pc, dx, es, other) && KeyAt(c, pc, dx) == code[pc + dx * 2];
    if code[pc + dx * 2] == 0 { Absent(c, pc, size, key, t, es, other); }
    loc := code[pc + dx * 2 + 1];
  }

  lemma PathOn(c: seq<int>, pc: nat, size: nat, key: int, t: nat)
    requires size > 0 && pc + 2 * size <= |c| && key >= 0 && t < size && Path(c, pc, size, key, t)
    requires KeyAt(c, pc, At(key % size, t, size)) != 0 && KeyAt(c, pc, At(key % size, t, size)) != key
    ensures Path(c, pc, size, key, t + 1)
  {
  }

  /** The slot at the end of a path of e.term takes e. */
  lemma Inserted(c: seq<int>, c': seq<int>, pc: nat, size: nat, e: Entry, t: nat, es: seq<Entry>, other: int)
    requires Built(c, pc, size, es, other) && e.term > 0 && t < size && Path(c, pc, size, e.term, t)
    requires KeyAt(c, pc, At(e.term % size, t, size)) == 0
    requires var i := At(e.term % size, t, size); c' == c[pc + 2 * i := e.term][pc + 2 * i + 1 := e.loc]
    ensures Built(c', pc, size, es + [e], other)
  {
    var i := At(e.term % size, t, size);
    Absent(c, pc, size, e.term, t, es, other);
    FilledMore(c, c', pc, size, i);
    forall j | 0 <= j < size ensures SlotOK(c', pc, j, es + [e], other) {
      assert SlotOK(c, pc, j, es, other);
      FirstAppend(es, e, KeyAt(c', pc, j));
    }
    forall key | First(es + [e], key).Some? ensures Found(c', pc, size, key) {
      FirstAppend(es, e, key);
      if key == e.term { NewFound(c, c', pc, size, key, t, i); } else { StillFound(c, c', pc, size, key, e.term, i); }
    }
  }

  lemma {:induction false} FilledMore(c: seq<int>, c': seq<int>, pc: nat, n: nat, i: nat)
    requires pc + 2 * n <= |c| == |c'|
    requires forall j {:trigger KeyAt(c', pc, j)} :: 0 <= j < n && j != i ==> KeyAt(c', pc, j) == KeyAt(c, pc, j)
    ensures Filled(c', pc, n) <= Filled(c, pc, n) + if i < n then 1 else 0
  {
    if n > 0 { FilledMore(c, c', pc, n - 1, i); }
  }

  lemma NewFound(c: seq<int>, c': seq<int>, pc: nat, size: nat, key: int, t: nat, i: nat)
    requires size > 0 && pc + 2 * size <= |c| == |c'| && key > 0 && t < size && Path(c, pc, size, key, t)
    requires i == At(key % size, t, size) && KeyAt(c', pc, i) == key
    requires forall j {:trigger KeyAt(c', pc, j)} :: 0 <= j < size && j != i ==> KeyAt(c', pc, j) == KeyAt(c, pc, j)
    ensures Found(c', pc, size, key)
  {
    assert FoundAt(c', pc, size, key, t);
  }

  lemma StillFound(c: seq<int>, c': seq<int>, pc: nat, size: nat, key: int, added: int, i: nat)
    requires size > 0 && pc + 2 * size <= |c| == |c'| && i < size && Found(c, pc, size, key) && key != added
    requires added != 0
    requires KeyAt(c, pc, i) == 0 && KeyAt(c', pc, i) == added
    requires forall j {:trigger KeyAt(c', pc, j)} :: 0 <= j < size && j != i ==> KeyAt(c', pc, j) == KeyAt(c, pc, j)
    ensures Found(c', pc, size, key)
  {
    var t :| FoundAt(c, pc, size, key, t);
    assert FoundAt(c', pc, size, key, t);
  }

  /** A key that is there already keeps its first location. */
  lemma Repeated(c: seq<int>, pc: nat, size: nat, e: Entry, i: nat, es: seq<Entry>, other: int)
    requires Built(c, pc, size, es, other) && i < size && KeyAt(c, pc, i) == e.term != 0
    ensures Built(c, pc, size, es + [e], other)
  {
    assert SlotOK(c, pc, i, es, other);
    forall j | 0 <= j < size ensures SlotOK(c, pc, j, es + [e], other) {
      assert SlotOK(c, pc, j, es, other);
      FirstAppend(es, e, KeyAt(c, pc, j));
    }
    forall key | First(es + [e], key).Some? ensures Found(c, pc, size, key) {
      FirstAppend(es, e, key);
      assert First(es, key).Some?;
    }
  }

  /** put_hash_code: the pair e goes into the table at pc. */
  method PutHashCode(code: array<int>, e: Entry, pc: nat, prime: nat, ghost es: seq<Entry>, ghost other: int)
    requires Built(code[..], pc, prime, es, other) && |es| < prime && e.term > 0
    modifies code
    ensures Built(code[..], pc, prime, es + [e], other)
    ensures forall x {:trigger code[x]} :: 0 <= x < code.Length && !(pc <= x < pc + 2 * prime) ==>
      code[x] == old(code[x])
  {
    ghost var c := code[..];
    var probe := 0;
    var key := e.term;
    var addr := key % prime;
    while probe < prime
      invariant 0 <= probe <= prime && Path(c, pc, prime, key, probe) && code[..] == c
      invariant probe < prime ==> addr == At(key % prime, probe, prime)
    {
      assert KeyAt(c, pc, addr) == code[pc + addr * 2];
      if code[pc + addr * 2] == 0 {
        code[pc + addr * 2] := key;
        code[pc + addr * 2 + 1] := e.loc;
        Inserted(c, code[..], pc, prime, e, probe, es, other);
        return;
      } else if code[pc + addr * 2] == key {
        Repeated(c, pc, prime, e, addr, es, other);
        return;
      } else {
        PathOn(c, pc, prime, key, probe);
        RoomOnPath(c, pc, prime, key, probe + 1, es, other);
        NextSlot(key % prime, probe, prime);
        probe := probe + 1;
        addr := (addr + 1) % prime;
      }
    }
    RoomOnPath(c, pc, prime, key, probe, es, other);
  }

  lemma {:induction false} NoneFilled(c: seq<int>, pc: nat, n: nat)
    requires pc + 2 * n <= |c| && forall i {:trigger KeyAt(c, pc, i)} :: 0 <= i < n ==> KeyAt(c, pc, i) == 0
    ensures Filled(c, pc, n) == 0
  {
    if n > 0 { assert KeyAt(c, pc, n - 1) == 0; NoneFilled(c, pc, n - 1); }
  }

  /** put_table: [prime, variable branch, table], for the n pairs es. */
  method PutTable(code: array<int>, cc: nat, es: seq<Entry>, other: int) returns (prime: nat, cc': nat)
    requires forall i :: 0 <= i < |es| ==> es[i].term > 0
    requires forall p: nat {:trigger NoPrime(Start(|es|), p)} :: IsPrime(p) && NoPrime(Start(|es|), p) ==>
      cc + 2 + 2 * p <= code.Length
    modifies code
    ensures IsPrime(prime) && |es| < prime && cc' == cc + 2 + 2 * prime <= code.Length
    ensures code[cc] == prime && code[cc + 1] == other && Built(code[..], cc + 2, prime, es, other)
    ensures forall x {:trigger code[x]} :: 0 <= x < cc || cc' <= x < code.Length ==> code[x] == old(code[x])
  {
    prime := GetPrime(|es|);
    cc' := cc + 2 + 2 * prime;
    code[cc], code[cc + 1] := prime, other;
    var pc := cc + 2;
    Clear(code, pc, prime, other);
    var i := 0;
    assert es[..0] == [];
    while i < |es|
      invariant i <= |es| && Built(code[..], pc, prime, es[..i], other) && code[cc] == prime && code[cc + 1] == other
      invariant forall x {:trigger code[x]} :: 0 <= x < cc || cc' <= x < code.Length ==> code[x] == old(code[x])
    {
      PutHashCode(code, es[i], pc, prime, es[..i], other);
      assert es[..i] + [es[i]] == es[..i + 1];
      i := i + 1;
    }
    assert es[..i] == es;
  }

  ghost predicate Empty(c: seq<int>, pc: nat, j: nat, other: int) {
    pc + 2 * j + 1 < |c| && KeyAt(c, pc, j) == 0 && LocAt(c, pc, j) == other
  }

  /** The empty table. */
  method Clear(code: array<int>, pc: nat, prime: nat, other: int)
    requires prime > 0 && pc + 2 * prime <= code.Length
    modifies code
    ensures Built(code[..], pc, prime, [], other)
    ensures forall x {:trigger code[x]} :: 0 <= x < code.Length && !(pc <= x < pc + 2 * prime) ==>
      code[x] == old(code[x])
  {
    var i := 0;
    while i < prime
      invariant i <= prime
      invariant forall j {:trigger Empty(code[..], pc, j, other)} :: 0 <= j < i ==> Empty(code[..], pc, j, other)
      invariant forall x {:trigger code[x]} :: 0 <= x < code.Length && !(pc <= x < pc + 2 * prime) ==>
        code[x] == old(code[x])
    {
      ghost var c := code[..];
      code[pc + 2 * i] := 0;
      code[pc + 2 * i + 1] := other;
      forall j | 0 <= j <= i ensures Empty(code[..], pc, j, other) {
        if j < i { assert Empty(c, pc, j, other); }
      }
      i := i + 1;
    }
    ghost var c := code[..];
    forall j | 0 <= j < prime ensures KeyAt(c, pc, j) == 0 && LocAt(c, pc, j) == other {
      assert Empty(c, pc, j, other);
    }
    NoneFilled(c, pc, prime);
    assert forall j :: 0 <= j < prime ==> SlotOK(c, pc, j, [], other);
  }

  /** The tags and values of words, which are 32 bits wide: two bits of tag, or three for constants. */
  const REF_TAG: nat := 0
  const STR_TAG: nat := 2
  const CON_TAG: nat := 7
  const FUN_LIMIT: nat := 0x80_0000   // the arity lies above

  function Tag(w: nat): nat { w % 4 }

  function Tag3(w: nat): nat { w % 8 }

  function ConValue(w: nat): nat { w / 8 }

  function FunValue(w: nat): nat { w % FUN_LIMIT / 8 }

  /** The word of the symbol x, which the assembler stores as a key. */
  function MakeCon(x: nat): nat { 8 * x + CON_TAG }

  /** The word of the functor with the symbol x and the arity a. */
  function MakeFun(x: nat, a: nat): nat { a * FUN_LIMIT + 8 * x + CON_TAG }

  /** HASHING: ax is the dereferenced argument, and functor what it refers to if it is a structure.  None is the error
      of an unknown type. */
  method Hashing(code: array<int>, cc: nat, ax: nat, functor: nat, ghost es: seq<Entry>, ghost other: int,
                 ghost prime: nat)
    returns (loc: Option<int>)
    requires cc + 2 + 2 * prime <= code.Length && code[cc] == prime && code[cc + 1] == other && |es| < prime
    requires Built(code[..], cc + 2, prime, es, other)
    ensures Tag(ax) == REF_TAG ==> loc == Some(other)
    ensures Tag(ax) == STR_TAG ==>
      loc == if First(es, FunValue(functor)).Some? then First(es, FunValue(functor)) else Some(other)
    ensures Tag(ax) != REF_TAG && Tag(ax) != STR_TAG ==> loc == None
  {
    var dx, key := Tag(ax), 0;
    if dx == REF_TAG { return Some(code[cc + 1]); }
    if dx == CON_TAG {
      key := ConValue(ax);
    } else if dx == STR_TAG {
      key := FunValue(functor);
    } else {
      return None;
    }
    var r := Probe(code, cc + 2, code[cc], key, es, other);
    loc := Some(r);
  }

  /** The pairs es as the assembler reads them, for the symbols xs. */
  ghost predicate Stored(es: seq<Entry>, xs: seq<nat>) {
    |es| == |xs| && forall i {:trigger es[i]} :: 0 <= i < |es| ==> es[i].term == MakeCon(xs[i])
  }

  lemma {:induction false} StoredKeys(es: seq<Entry>, xs: seq<nat>, key: int)
    requires Stored(es, xs)
    ensures First(es, key).Some? <==> exists i :: 0 <= i < |xs| && MakeCon(xs[i]) == key
    decreases |es|
  {
    if es != [] {
      var n := |es| - 1;
      assert es[n].term == MakeCon(xs[n]);
      StoredKeys(es[..n], xs[..n], key);
    }
  }

  /** A symbol in the table is never found, neither as a constant, which is an error, nor as a functor, which leads to
      the variable branch, or to the clauses of another symbol y whose stored word happens to be its index. */
  method Missed(code: array<int>, cc: nat, x: nat, a: nat, at: nat, ghost es: seq<Entry>, ghost xs: seq<nat>,
                ghost other: int, ghost prime: nat)
    returns (constant: Option<int>, structure: Option<int>)
    requires cc + 2 + 2 * prime <= code.Length && code[cc] == prime && code[cc + 1] == other && |es| < prime
    requires Built(code[..], cc + 2, prime, es, other) && Stored(es, xs) && 8 * x + CON_TAG < FUN_LIMIT
    ensures constant == None
    ensures structure == if exists i :: 0 <= i < |xs| && MakeCon(xs[i]) == x then First(es, x) else Some(other)
    ensures forall i :: 0 <= i < |xs| && MakeCon(xs[i]) == x ==> xs[i] != x
  {
    ConstantTag(x);
    FunctorValue(x, a);
    constant := Hashing(code, cc, MakeCon(x), 0, es, other, prime);
    structure := Hashing(code, cc, 4 * at + STR_TAG, MakeFun(x, a), es, other, prime);
    StoredKeys(es, xs, x);
  }

  lemma ConstantTag(x: nat)
    ensures Tag(MakeCon(x)) == 3 && Tag3(MakeCon(x)) == CON_TAG && ConValue(MakeCon(x)) == x
  {
  }

  lemma FunctorValue(x: nat, a: nat)
    requires 8 * x + CON_TAG < FUN_LIMIT
    ensures FunValue(MakeFun(x, a)) == x
  {
  }
}
