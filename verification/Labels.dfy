// Labels of the assembler: forward references are recorded in the chains of a hash table and filled in when
// the label is met; a program assembled in one pass is what two passes would give.
module Labels {

  /** A label met (its location) or asked for (the negated location of the operand). */
  datatype Node = Node(name: string, val: int)

  const WORD: nat := 0x1_0000_0000

  function HashFrom(key: string, h: nat): nat
    decreases |key|
  {
    if key == [] then h else HashFrom(key[1..], (h * h * 4 + key[0] as nat) % WORD)
  }

  /** The chain of a key; an unsigned word with the highest bit set is taken as a negative number. */
  function Hash(key: string, size: nat): (i: nat)
    requires size > 0
    ensures i < size
  {
    var h := HashFrom(key, 0);
    if h < WORD / 2 then h % size else (if h < WORD then WORD - h else 0) % size
  }

  /** An item of an assembler program: a code word, an operand that is a label, or the definition of a label. */
  datatype Item = Word(w: int) | Use(name: string) | Define(name: string)

  function Size(items: seq<Item>): nat {
    if items == [] then 0 else Size(items[..|items| - 1]) + if items[|items| - 1].Define? then 0 else 1
  }

  /** First pass: where the labels are, when the code starts at base. */
  function Locations(items: seq<Item>, base: nat): map<string, nat> {
    if items == [] then map[] else
    var n := |items| - 1;
    var m := Locations(items[..n], base);
    if items[n].Define? then m[items[n].name := base + Size(items[..n])] else m
  }

  /** Second pass: the code, when the labels are at m. */
  function Emitted(items: seq<Item>, m: map<string, nat>): seq<int> {
    if items == [] then [] else
    var n := |items| - 1;
    var c := Emitted(items[..n], m);
    match items[n]
    case Word(w) => c + [w]
    case Use(l) => c + [if l in m then m[l] else 0]
    case Define(_) => c
  }

  /** The operands that are labels, by their positions. */
  function Uses(items: seq<Item>, base: nat): map<nat, string> {
    if items == [] then map[] else
    var n := |items| - 1;
    var u := Uses(items[..n], base);
    if items[n].Use? then u[base + Size(items[..n]) := items[n].name] else u
  }

  /** Every label is defined once, and every label used is defined. */
  predicate WellFormed(items: seq<Item>) {
    Unique(items) && forall i {:trigger DefinedAt(items, i)} :: 0 <= i < |items| ==> DefinedAt(items, i)
  }

  predicate DefinedAt(items: seq<Item>, i: nat)
    requires i < |items|
  {
    items[i].Use? ==> Define(items[i].name) in items
  }

  predicate Unique(items: seq<Item>) {
    forall i, j :: 0 <= i < j < |items| && items[i].Define? && items[j].Define? ==> items[i].name != items[j].name
  }

  lemma {:induction false} EmittedSize(items: seq<Item>, m: map<string, nat>)
    ensures |Emitted(items, m)| == Size(items)
    decreases |items|
  {
    if items != [] { EmittedSize(items[..|items| - 1], m); }
  }

  /** Each item that is no definition has its word behind those of the items before it. */
  lemma {:induction false} EmittedWord(items: seq<Item>, m: map<string, nat>, i: nat)
    requires i < |items| && !items[i].Define?
    ensures Size(items[..i]) < Size(items) == |Emitted(items, m)|
    ensures items[i].Word? ==> Emitted(items, m)[Size(items[..i])] == items[i].w
    ensures items[i].Use? && items[i].name in m ==> Emitted(items, m)[Size(items[..i])] == m[items[i].name]
    decreases |items|
  {
    EmittedSize(items, m);
    var n := |items| - 1;
    EmittedSize(items[..n], m);
    if i < n {
      EmittedWord(items[..n], m, i);
      assert items[..n][..i] == items[..i];
    }
  }

  /** And there are no other words. */
  lemma {:induction false} WordOf(items: seq<Item>, p: nat) returns (i: nat)
    requires p < Size(items)
    ensures i < |items| && !items[i].Define? && Size(items[..i]) == p
    decreases |items|
  {
    i := |items| - 1;
    if items[i].Define? || p < Size(items[..i]) {
      var n := i;
      i := WordOf(items[..n], p);
      assert items[..n][..i] == items[..i];
    }
  }

  /** A label that is defined once is located behind the words of the items before its definition. */
  lemma {:induction false} LocationOf(items: seq<Item>, base: nat, j: nat)
    requires Unique(items) && j < |items| && items[j].Define?
    ensures items[j].name in Locations(items, base)
    ensures Locations(items, base)[items[j].name] == base + Size(items[..j])
    decreases |items|
  {
    var n := |items| - 1;
    if j < n {
      LocationOf(items[..n], base, j);
      assert items[..n][..j] == items[..j];
    }
  }

  /** The code c has the word of the i-th item in its place: the operand that is a label is the place of the label. */
  ghost predicate ItemAt(c: seq<int>, items: seq<Item>, i: nat)
    requires i < |items|
  {
    var p := HEADER + Size(items[..i]);
    match items[i]
    case Word(w) => p < |c| && c[p] == w
    case Use(l) => p < |c| && forall j {:trigger items[j]} :: 0 <= j < |items| && items[j] == Define(l) ==>
      c[p] == HEADER + Size(items[..j])
    case Define(_) => true
  }

  lemma {:induction false} ItemsPlaced(c: seq<int>, items: seq<Item>, cc: nat)
    requires Unique(items) && HEADER <= cc <= |c| && c[HEADER..cc] == Emitted(items, Locations(items, HEADER))
    ensures forall i {:trigger ItemAt(c, items, i)} :: 0 <= i < |items| ==> ItemAt(c, items, i)
  {
    forall i | 0 <= i < |items| ensures ItemAt(c, items, i) { ItemPlaced(c, items, cc, i); }
  }

  lemma {:induction false} ItemPlaced(c: seq<int>, items: seq<Item>, cc: nat, i: nat)
    requires Unique(items) && HEADER <= cc <= |c| && c[HEADER..cc] == Emitted(items, Locations(items, HEADER))
    requires i < |items|
    ensures ItemAt(c, items, i)
  {
    var m := Locations(items, HEADER);
    if !items[i].Define? {
      EmittedWord(items, m, i);
      var p := Size(items[..i]);
      assert c[HEADER + p] == Emitted(items, m)[p];
      if items[i].Use? {
        forall j | 0 <= j < |items| && items[j] == Define(items[i].name)
          ensures c[HEADER + p] == HEADER + Size(items[..j])
        {
          LocationOf(items, HEADER, j);
        }
      }
    }
  }

  lemma {:induction false} UsesInRange(items: seq<Item>, base: nat, p: nat)
    requires p in Uses(items, base)
    ensures base <= p < base + Size(items) && Use(Uses(items, base)[p]) in items
    decreases |items|
  {
    var n := |items| - 1;
    if p in Uses(items[..n], base) { UsesInRange(items[..n], base, p); }
  }

  lemma {:induction false} UsesAll(items: seq<Item>, base: nat, i: nat) returns (p: nat)
    requires i < |items| && items[i].Use?
    ensures p in Uses(items, base) && Uses(items, base)[p] == items[i].name
    decreases |items|
  {
    var n := |items| - 1;
    if i < n {
      p := UsesAll(items[..n], base, i);
      UsesInRange(items[..n], base, p);
    } else {
      p := base + Size(items[..n]);
    }
  }

  lemma {:induction false} LocationsDefined(items: seq<Item>, base: nat, l: string)
    ensures l in Locations(items, base) <==> Define(l) in items
    decreases |items|
  {
    if items != [] {
      var n := |items| - 1;
      LocationsDefined(items[..n], base, l);
      assert items == items[..n] + [items[n]];
    }
  }

  /** A label is not met twice if it has no location yet. */
  lemma DefinedOnce(items: seq<Item>, base: nat, l: string)
    requires Unique(items)
    ensures Unique(items + [Define(l)]) <==> l !in Locations(items, base)
  {
    LocationsDefined(items, base, l);
    if l in Locations(items, base) {
      var i :| 0 <= i < |items| && items[i] == Define(l);
      assert (items + [Define(l)])[i].name == (items + [Define(l)])[|items|].name;
    }
  }

  /** A definition changes the operands that use the label, and nothing else. */
  lemma {:induction false} EmittedAt(items: seq<Item>, m: map<string, nat>, l: string, loc: nat, base: nat, p: nat)
    requires base <= p < base + Size(items)
    ensures |Emitted(items, m)| == |Emitted(items, m[l := loc])| == Size(items)
    ensures Emitted(items, m[l := loc])[p - base] ==
      if p in Uses(items, base) && Uses(items, base)[p] == l then loc else Emitted(items, m)[p - base]
    decreases |items|
  {
    EmittedSize(items, m);
    EmittedSize(items, m[l := loc]);
    var n := |items| - 1;
    EmittedSize(items[..n], m);
    EmittedSize(items[..n], m[l := loc]);
    if p < base + Size(items[..n]) {
      EmittedAt(items[..n], m, l, loc, base, p);
    } else if p in Uses(items[..n], base) {
      UsesInRange(items[..n], base, p);
    }
  }

  /** The nodes of the chains are the labels met so far and the operands that wait for one. */
  ghost predicate NodeOK(nd: Node, i: nat, size: nat, uses: map<nat, string>, defs: map<string, nat>) {
    && size > 0 && Hash(nd.name, size) == i
    && (nd.val >= 0 ==> nd.name in defs && defs[nd.name] == nd.val)
    && (nd.val < 0 ==> -nd.val in uses && uses[-nd.val] == nd.name && nd.name !in defs)
  }

  ghost predicate ChainOK(chain: seq<Node>, i: nat, size: nat, uses: map<nat, string>, defs: map<string, nat>) {
    forall nd {:trigger NodeOK(nd, i, size, uses, defs)} :: nd in chain ==> NodeOK(nd, i, size, uses, defs)
  }

  ghost predicate Recorded(hp: seq<seq<Node>>, uses: map<nat, string>, defs: map<string, nat>) {
    && |hp| > 0
    && (forall i {:trigger hp[i]} :: 0 <= i < |hp| ==> ChainOK(hp[i], i, |hp|, uses, defs))
    && (forall l {:trigger l in defs} :: l in defs ==> Node(l, defs[l]) in hp[Hash(l, |hp|)])
    && (forall p {:trigger uses[p]} :: p in uses && uses[p] !in defs ==>
        p > 0 && Node(uses[p], -p) in hp[Hash(uses[p], |hp|)])
  }

  class LabelHashTable {
    const size: nat
    const pp: array<int>           // the code whose operands are filled in
    var hp: seq<seq<Node>>         // the chains, the newest node first

    constructor (sz: nat, pp: array<int>)
      requires sz > 0
      ensures this.size == sz && this.pp == pp && |hp| == sz && Recorded(hp, map[], map[])
    {
      this.size, this.pp := sz, pp;
      hp := seq(sz, i => []);
    }

    /** A label met already has its location; otherwise the operand at loc goes on record. */
    method Lookup(key: string, loc: nat, ghost uses: map<nat, string>, ghost defs: map<string, nat>) returns (r: int)
      requires |hp| == size && Recorded(hp, uses, defs) && loc > 0 && (key in defs || loc !in uses)
      modifies this`hp
      ensures |hp| == size && (loc !in uses ==> Recorded(hp, uses[loc := key], defs))
      ensures r == if key in defs then defs[key] else -1
      ensures key in defs ==> hp == old(hp)
    {
      var h := Hash(key, size);
      var i := 0;
      while i < |hp[h]|
        invariant i <= |hp[h]| && forall j :: 0 <= j < i ==> !(hp[h][j].name == key && hp[h][j].val >= 0)
      {
        if hp[h][i].name == key && hp[h][i].val >= 0 {
          assert NodeOK(hp[h][i], h, size, uses, defs);
          if loc !in uses { MoreUses(hp, uses, defs, loc, key); }
          return hp[h][i].val;
        }
        i := i + 1;
      }
      NoNode(hp, uses, defs, key);
      Requested(hp, uses, defs, loc, key);
      hp := hp[h := [Node(key, -(loc as int))] + hp[h]];
      r := -1;
    }

    /** A label is met: it goes on record, and the operands that wait for it are filled in. */
    method Insert(key: string, loc: nat, ghost uses: map<nat, string>, ghost defs: map<string, nat>) returns (r: int)
      requires |hp| == size && Recorded(hp, uses, defs) && forall p {:trigger p in uses} :: p in uses ==> p < pp.Length
      modifies this`hp, pp
      ensures r == if key in defs then -1 else 1
      ensures r == 1 ==> |hp| == size && Recorded(hp, uses, defs[key := loc])
      ensures r == 1 ==> forall x {:trigger pp[x]} :: 0 <= x < pp.Length ==>
        pp[x] == if x in uses && uses[x] == key then loc else old(pp[x])
    {
      var h := Hash(key, size);
      var chain, kept := hp[h], [];
      ghost var done: set<nat> := {};
      var i := 0;
      while i < |chain|
        invariant i <= |chain| && hp == old(hp)
        invariant forall j :: 0 <= j < i ==>
          if chain[j].name == key then chain[j].val < 0 && -chain[j].val in done else chain[j] in kept
        invariant forall nd :: nd in kept ==> nd in chain && nd.name != key
        invariant forall p {:trigger p in done} :: p in done ==> p in uses && uses[p] == key
        invariant forall x {:trigger pp[x]} :: 0 <= x < pp.Length ==> pp[x] == if x in done then loc else old(pp[x])
      {
        assert NodeOK(chain[i], h, size, uses, defs);
        if chain[i].name == key {
          if chain[i].val >= 0 { return -1; }
          pp[-chain[i].val] := loc;
          done := done + {-chain[i].val};
        } else {
          kept := kept + [chain[i]];
        }
        i := i + 1;
      }
      Met(hp, uses, defs, key, loc, kept);
      hp := hp[h := [Node(key, loc)] + kept];
      r := 1;
    }

    /** Whether no operand waits any more. */
    method Check() returns (v: int)
      ensures v == 1 || v == -1
      ensures v == 1 <==> forall i, j {:trigger hp[i][j]} :: 0 <= i < |hp| && 0 <= j < |hp[i]| ==> hp[i][j].val >= 0
    {
      v := 1;
      var i := 0;
      while i < |hp|
        invariant i <= |hp| && (v == 1 || v == -1)
        invariant v == 1 <==> forall k, j {:trigger hp[k][j]} :: 0 <= k < i && 0 <= j < |hp[k]| ==> hp[k][j].val >= 0
      {
        var j := 0;
        while j < |hp[i]|
          invariant j <= |hp[i]| && (v == 1 || v == -1)
          invariant v == 1 <==> forall k, m {:trigger hp[k][m]} ::
            (0 <= k < i && 0 <= m < |hp[k]|) || (k == i && 0 <= m < j) ==> hp[k][m].val >= 0
        {
          if hp[i][j].val < 0 { v := -1; }
          j := j + 1;
        }
        i := i + 1;
      }
    }
  }

  lemma MoreUses(hp: seq<seq<Node>>, uses: map<nat, string>, defs: map<string, nat>, loc: nat, key: string)
    requires Recorded(hp, uses, defs) && loc !in uses && key in defs
    ensures Recorded(hp, uses[loc := key], defs)
  {
    var u := uses[loc := key];
    forall i | 0 <= i < |hp| ensures ChainOK(hp[i], i, |hp|, u, defs) {
      forall nd | nd in hp[i] ensures NodeOK(nd, i, |hp|, u, defs) { assert NodeOK(nd, i, |hp|, uses, defs); }
    }
  }

  lemma HasNode(hp: seq<seq<Node>>, uses: map<nat, string>, defs: map<string, nat>, key: string)
    requires Recorded(hp, uses, defs) && key in defs
    ensures var nds := hp[Hash(key, |hp|)];
      exists j :: 0 <= j < |nds| && nds[j].name == key && nds[j].val >= 0
  {
    assert Node(key, defs[key]) in hp[Hash(key, |hp|)];
  }

  lemma NoNode(hp: seq<seq<Node>>, uses: map<nat, string>, defs: map<string, nat>, key: string)
    requires Recorded(hp, uses, defs)
    requires forall j :: 0 <= j < |hp[Hash(key, |hp|)]| ==>
      !(hp[Hash(key, |hp|)][j].name == key && hp[Hash(key, |hp|)][j].val >= 0)
    ensures key !in defs
  {
    if key in defs { HasNode(hp, uses, defs, key); }
  }

  lemma Requested(hp: seq<seq<Node>>, uses: map<nat, string>, defs: map<string, nat>, loc: nat, key: string)
    requires Recorded(hp, uses, defs) && loc > 0 && loc !in uses
    requires forall j :: 0 <= j < |hp[Hash(key, |hp|)]| ==>
      !(hp[Hash(key, |hp|)][j].name == key && hp[Hash(key, |hp|)][j].val >= 0)
    ensures key !in defs
    ensures Recorded(hp[Hash(key, |hp|) := [Node(key, -(loc as int))] + hp[Hash(key, |hp|)]], uses[loc := key], defs)
  {
    var u, h := uses[loc := key], Hash(key, |hp|);
    var hp' := hp[h := [Node(key, -(loc as int))] + hp[h]];
    if key in defs { HasNode(hp, uses, defs, key); }
    forall i | 0 <= i < |hp'| ensures ChainOK(hp'[i], i, |hp'|, u, defs) {
      forall nd | nd in hp'[i] ensures NodeOK(nd, i, |hp'|, u, defs) {
        if nd in hp[i] { assert NodeOK(nd, i, |hp|, uses, defs); }
      }
    }
  }

  lemma Met(hp: seq<seq<Node>>, uses: map<nat, string>, defs: map<string, nat>, key: string, loc: nat, kept: seq<Node>)
    requires Recorded(hp, uses, defs) && key !in defs
    requires var chain := hp[Hash(key, |hp|)];
      && (forall nd :: nd in chain && nd.name != key ==> nd in kept)
      && (forall nd :: nd in kept ==> nd in chain && nd.name != key)
    ensures Recorded(hp[Hash(key, |hp|) := [Node(key, loc)] + kept], uses, defs[key := loc])
  {
    var d, h := defs[key := loc], Hash(key, |hp|);
    var hp' := hp[h := [Node(key, loc)] + kept];
    forall i | 0 <= i < |hp'| ensures ChainOK(hp'[i], i, |hp'|, uses, d) {
      forall nd | nd in hp'[i] ensures NodeOK(nd, i, |hp'|, uses, d) { MetNode(hp, uses, defs, key, loc, kept, i, nd); }
    }
    forall l | l in d ensures Node(l, d[l]) in hp'[Hash(l, |hp'|)] {
      if l != key { assert Node(l, defs[l]) in hp[Hash(l, |hp|)]; }
    }
    forall p | p in uses && uses[p] !in d ensures p > 0 && Node(uses[p], -p) in hp'[Hash(uses[p], |hp'|)] {
      assert Node(uses[p], -p) in hp[Hash(uses[p], |hp|)];
    }
  }

  lemma MetNode(hp: seq<seq<Node>>, uses: map<nat, string>, defs: map<string, nat>, key: string, loc: nat,
                kept: seq<Node>, i: nat, nd: Node)
    requires Recorded(hp, uses, defs) && key !in defs && i < |hp|
    requires forall nd :: nd in kept ==> nd in hp[Hash(key, |hp|)] && nd.name != key
    requires nd in hp[Hash(key, |hp|) := [Node(key, loc)] + kept][i]
    ensures NodeOK(nd, i, |hp|, uses, defs[key := loc])
  {
    if nd in hp[i] { assert NodeOK(nd, i, |hp|, uses, defs); }
  }

  /** No node asks for a label exactly when every label used has been met. */
  lemma AllMet(hp: seq<seq<Node>>, uses: map<nat, string>, defs: map<string, nat>)
    requires Recorded(hp, uses, defs)
    ensures (forall i, j {:trigger hp[i][j]} :: 0 <= i < |hp| && 0 <= j < |hp[i]| ==> hp[i][j].val >= 0)
      <==> forall p {:trigger uses[p]} :: p in uses ==> uses[p] in defs
  {
    if forall i, j {:trigger hp[i][j]} :: 0 <= i < |hp| && 0 <= j < |hp[i]| ==> hp[i][j].val >= 0 {
      forall p | p in uses ensures uses[p] in defs { }
    }
    if forall p {:trigger uses[p]} :: p in uses ==> uses[p] in defs {
      forall i, j | 0 <= i < |hp| && 0 <= j < |hp[i]| ensures hp[i][j].val >= 0 {
        assert NodeOK(hp[i][j], i, |hp|, uses, defs);
      }
    }
  }

  const HEADER: nat := 2   // the imago instruction and its entry

  class Assembler {
    const labels: LabelHashTable
    const code: array<int>
    var cc: nat                    // the next free position of the code
    ghost const op: int            // the imago instruction
    ghost var items: seq<Item>     // what has been assembled

    ghost predicate Valid()
      reads this, labels, code
    {
      && labels.pp == code && |labels.hp| == labels.size > 0
      && HEADER <= cc <= code.Length && cc == HEADER + Size(items) && Unique(items) && code[0] == op
      && code[HEADER..cc] == Emitted(items, Locations(items, HEADER))
      && Recorded(labels.hp, Uses(items, HEADER), Locations(items, HEADER))
    }

    constructor (sz: nat, max: nat, op: int)
      requires sz > 0 && max >= HEADER
      ensures Valid() && fresh(code) && fresh(labels) && items == [] && code.Length == max
      ensures this.op == op && code[1] == 0
    {
      this.op := op;
      var c := new int[max];
      code := c;
      labels := new LabelHashTable(sz, c);
      cc := HEADER;
      items := [];
      new;
      code[0], code[1] := op, 0;
    }

    method PutCode(w: int)
      requires HEADER <= cc < code.Length
      modifies this`cc, code
      ensures cc == old(cc) + 1 && code[HEADER..cc] == old(code[HEADER..cc]) + [w]
      ensures forall x :: 0 <= x < code.Length && x != old(cc) ==> code[x] == old(code[x])
    {
      code[cc] := w;
      cc := cc + 1;
    }

    /** A code word that is no label. */
    method EmitWord(w: int)
      requires Valid() && cc < code.Length
      modifies this, code
      ensures Valid() && items == old(items) + [Word(w)] && code[1] == old(code[1])
    {
      Appended(items, Word(w));
      PutCode(w);
      items := items + [Word(w)];
    }

    /** put_code(get_label()). */
    method EmitLabel(l: string)
      requires Valid() && cc < code.Length
      modifies this, labels, code
      ensures Valid() && items == old(items) + [Use(l)] && code[1] == old(code[1])
    {
      Appended(items, Use(l));
      if cc in Uses(items, HEADER) { UsesInRange(items, HEADER, cc); }
      var loc := labels.Lookup(l, cc, Uses(items, HEADER), Locations(items, HEADER));
      PutCode(if loc == -1 then 0 else loc);
      items := items + [Use(l)];
    }

    /** The location of a label met before, as an operand. */
    method EmitLocation(l: string, loc: nat)
      requires Valid() && cc < code.Length
      requires l in Locations(items, HEADER) && Locations(items, HEADER)[l] == loc
      modifies this, code
      ensures Valid() && items == old(items) + [Use(l)] && code[1] == old(code[1])
    {
      Appended(items, Use(l));
      if cc in Uses(items, HEADER) { UsesInRange(items, HEADER, cc); }
      MoreUses(labels.hp, Uses(items, HEADER), Locations(items, HEADER), cc, l);
      PutCode(loc);
      items := items + [Use(l)];
    }

    /** A label at the present position; a label met before is an error. */
    method DefineLabel(l: string) returns (ok: bool)
      requires Valid()
      modifies this, labels, code
      ensures ok <==> Unique(old(items) + [Define(l)])
      ensures ok ==> Valid() && items == old(items) + [Define(l)] && cc == old(cc) && code[1] == old(code[1])
    {
      ghost var u, m, b := Uses(items, HEADER), Locations(items, HEADER), code[..];
      DefinedOnce(items, HEADER, l);
      forall p | p in u ensures p < code.Length { UsesInRange(items, HEADER, p); }
      var r := labels.Insert(l, cc, u, m);
      ok := r == 1;
      if ok {
        assert b[HEADER..cc] == old(code[HEADER..cc]);
        FilledIn(items, m, l, cc, b, code[..]);
        assert code[0] == code[..][..HEADER][0] == b[0] && code[1] == code[..][..HEADER][1] == b[1];
        assert code[HEADER..cc] == code[..][HEADER..cc];
        Extended(items, l, cc);
        items := items + [Define(l)];
      }
    }

    /** All items, until a label is met twice. */
    method FeedAll(list: seq<Item>) returns (ok: bool)
      requires Valid() && items == [] && cc + |list| <= code.Length
      modifies this, labels, code
      ensures ok <==> Unique(list)
      ensures ok ==> Valid() && items == list
    {
      ok := true;
      var i := 0;
      while i < |list| && ok
        invariant i <= |list| && if ok then Valid() && items == list[..i] && cc <= old(cc) + i else !Unique(list)
        decreases |list| - i
      {
        assert list[..i + 1] == list[..i] + [list[i]];
        ok := Feed(list[i]);
        if !ok { StillTwice(list, i + 1); }
        i := i + 1;
      }
      assert list[..|list|] == list;
    }

    /** Whether all labels used have been met. */
    method Finish() returns (ok: bool)
      requires Valid()
      ensures ok <==> AllLocated(items)
    {
      var v := labels.Check();
      AllMet(labels.hp, Uses(items, HEADER), Locations(items, HEADER));
      ok := v == 1;
    }

    /** The next item. */
    method Feed(item: Item) returns (ok: bool)
      requires Valid() && cc < code.Length
      modifies this, labels, code
      ensures ok <==> Unique(old(items) + [item])
      ensures ok ==> Valid() && items == old(items) + [item] && old(cc) <= cc <= old(cc) + 1
    {
      ok := true;
      if !item.Define? { AppendUnique(items, item); }
      match item
      case Word(w) => EmitWord(w);
      case Use(l) => EmitLabel(l);
      case Define(l) => ok := DefineLabel(l);
    }
  }

  /** What one more word changes. */
  lemma Appended(items: seq<Item>, item: Item)
    requires Unique(items) && !item.Define?
    ensures var n, m := items + [item], Locations(items, HEADER);
      && Unique(n) && Size(n) == Size(items) + 1 && Locations(n, HEADER) == m
      && Uses(n, HEADER) ==
        (if item.Use? then Uses(items, HEADER)[HEADER + Size(items) := item.name] else Uses(items, HEADER))
      && Emitted(n, m) == Emitted(items, m) + [
        if item.Word? then item.w else if item.name in m then m[item.name] else 0]
  {
    assert (items + [item])[..|items|] == items;
  }

  lemma AppendUnique(items: seq<Item>, item: Item)
    requires Unique(items) && !item.Define?
    ensures Unique(items + [item])
  {
  }

  lemma FilledIn(items: seq<Item>, m: map<string, nat>, l: string, cc: nat, b: seq<int>, b': seq<int>)
    requires cc == HEADER + Size(items) <= |b| == |b'| && b[HEADER..cc] == Emitted(items, m)
    requires forall x {:trigger b'[x]} :: 0 <= x < |b| ==>
      b'[x] == if x in Uses(items, HEADER) && Uses(items, HEADER)[x] == l then cc else b[x]
    ensures b'[HEADER..cc] == Emitted(items, m[l := cc]) && b'[..HEADER] == b[..HEADER]
  {
    forall x | 0 <= x < HEADER ensures b'[x] == b[x] { if x in Uses(items, HEADER) { UsesInRange(items, HEADER, x); } }
    EmittedSize(items, m);
    EmittedSize(items, m[l := cc]);
    forall i | 0 <= i < Size(items) ensures b'[HEADER..cc][i] == Emitted(items, m[l := cc])[i] {
      FilledAt(items, m, l, cc, b, b', i);
    }
  }

  /** A label in the list occupies nothing, and has its location at the end. */
  lemma Extended(items: seq<Item>, l: string, cc: nat)
    requires cc == HEADER + Size(items)
    ensures var n := items + [Define(l)];
      && Size(n) == Size(items) && Uses(n, HEADER) == Uses(items, HEADER)
      && Locations(n, HEADER) == Locations(items, HEADER)[l := cc]
      && forall m: map<string, nat> {:trigger Emitted(n, m)} :: Emitted(n, m) == Emitted(items, m)
  {
    assert (items + [Define(l)])[..|items|] == items;
  }

  lemma FilledAt(items: seq<Item>, m: map<string, nat>, l: string, cc: nat, b: seq<int>, b': seq<int>, i: nat)
    requires cc == HEADER + Size(items) <= |b| == |b'| && b[HEADER..cc] == Emitted(items, m)
    requires forall x {:trigger b'[x]} :: 0 <= x < |b| ==>
      b'[x] == if x in Uses(items, HEADER) && Uses(items, HEADER)[x] == l then cc else b[x]
    requires i < Size(items)
    ensures |Emitted(items, m[l := cc])| == Size(items) && b'[HEADER + i] == Emitted(items, m[l := cc])[i]
  {
    EmittedAt(items, m, l, cc, HEADER, HEADER + i);
    assert b[HEADER + i] == b[HEADER..cc][i];
  }

  /** One pass over the items.  It succeeds exactly when every label is defined once and every label used is defined.
      Then the code is that of two passes: every item has its word, and every use of a label is the place of its
      definition. */
  method Assemble(items: seq<Item>, sz: nat, max: nat, op: int) returns (ok: bool, a: Assembler)
    requires sz > 0 && HEADER + |items| <= max
    ensures a.code.Length == max
    ensures ok <==> WellFormed(items)
    ensures ok ==> a.cc == HEADER + Size(items) <= a.code.Length && a.code[0] == op
    ensures ok ==> forall i {:trigger ItemAt(a.code[..], items, i)} :: 0 <= i < |items| ==> ItemAt(a.code[..], items, i)
    ensures ok ==> a.code[HEADER..a.cc] == Emitted(items, Locations(items, HEADER))
    ensures ok ==> AllLocated(items)
  {
    a := new Assembler(sz, max, op);
    ok := a.FeedAll(items);
    if ok {
      ItemsPlaced(a.code[..], items, a.cc);
      ok := a.Finish();
    }
    UsedIfUnique(items);
  }

  lemma UsedIfUnique(items: seq<Item>)
    ensures WellFormed(items) <==> Unique(items) && AllLocated(items)
  {
    if Unique(items) { UsedAreDefined(items); }
  }

  lemma StillTwice(items: seq<Item>, i: nat)
    requires i <= |items| && !Unique(items[..i])
    ensures !Unique(items)
  {
    var j, k :| 0 <= j < k < i && items[..i][j].Define? && items[..i][k].Define?
      && items[..i][j].name == items[..i][k].name;
    assert items[j].Define? && items[k].Define?;
  }

  /** Every operand that is a label has its location. */
  ghost predicate AllLocated(items: seq<Item>) {
    var u := Uses(items, HEADER);
    forall p {:trigger u[p]} :: p in u ==> u[p] in Locations(items, HEADER)
  }

  lemma UsedAreDefined(items: seq<Item>)
    requires Unique(items)
    ensures WellFormed(items) <==> AllLocated(items)
  {
    if WellFormed(items) {
      forall p | p in Uses(items, HEADER) ensures Uses(items, HEADER)[p] in Locations(items, HEADER) {
        UsedIsDefined(items, p);
      }
    }
    if AllLocated(items) {
      forall i | 0 <= i < |items| ensures DefinedAt(items, i) { LocatedIsDefined(items, i); }
    }
  }

  lemma LocatedIsDefined(items: seq<Item>, i: nat)
    requires AllLocated(items) && i < |items|
    ensures DefinedAt(items, i)
  {
    if items[i].Use? {
      var p := UsesAll(items, HEADER, i);
      LocationsDefined(items, HEADER, items[i].name);
    }
  }

  lemma UsedIsDefined(items: seq<Item>, p: nat)
    requires WellFormed(items) && p in Uses(items, HEADER)
    ensures Uses(items, HEADER)[p] in Locations(items, HEADER)
  {
    UsesInRange(items, HEADER, p);
    var i :| 0 <= i < |items| && items[i] == Use(Uses(items, HEADER)[p]);
    assert DefinedAt(items, i);
    LocationsDefined(items, HEADER, Uses(items, HEADER)[p]);
  }
}
