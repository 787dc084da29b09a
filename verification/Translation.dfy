// The assembler's translation as it runs, and the way of a program from there: assembled, loaded and cloned.
module Translation {
  import opened Terms
  import opened Code
  import opened Labels
  import opened Assembly
  import opened ProgramText
  import LoadCode
  import MoveCode

  /** What is left to be put down of the items of the target, with the entry filled in so far. */
  ghost function Left(a: Assembler, target: seq<Item>, entry: int): Option<seq<Item>>
    reads a, a.labels, a.code
  {
    if a.Valid() && a.items <= target && HEADER + Size(target) <= a.code.Length && a.code[1] == entry then
      Some(target[|a.items|..])
    else
      None
  }

  /** One item more of the target. */
  lemma Step(items: seq<Item>, item: Item, rest: seq<Item>, target: seq<Item>)
    requires items <= target && target[|items|..] == [item] + rest && !item.Define?
    ensures items + [item] <= target && target[|items + [item]|..] == rest
    ensures Size(items) < Size(target)
  {
    assert target == items + target[|items|..];
    RoomForOne(items, item, rest);
    assert target[|items|..][1..] == target[|items| + 1..];
    assert target[|items|] == target[|items|..][0];
  }

  lemma RoomForOne(items: seq<Item>, item: Item, rest: seq<Item>)
    requires !item.Define?
    ensures Size(items) < Size(items + ([item] + rest))
  {
    SizeJoined(items, [item] + rest);
    SizeJoined([item], rest);
    assert [item][..0] == [];
  }

  method PutWord(a: Assembler, w: int, ghost rest: seq<Item>, ghost target: seq<Item>, ghost entry: int)
    requires Left(a, target, entry) == Some([Word(w)] + rest)
    modifies a, a.labels, a.code
    ensures Left(a, target, entry) == Some(rest) && Locations(a.items, HEADER) == old(Locations(a.items, HEADER))
  {
    Step(a.items, Word(w), rest, target);
    Appended(a.items, Word(w));
    a.EmitWord(w);
  }

  method PutName(a: Assembler, l: string, ghost rest: seq<Item>, ghost target: seq<Item>, ghost entry: int)
    requires Left(a, target, entry) == Some([Use(l)] + rest)
    modifies a, a.labels, a.code
    ensures Left(a, target, entry) == Some(rest)
  {
    Step(a.items, Use(l), rest, target);
    a.EmitLabel(l);
  }

  method PutLocation(a: Assembler, l: string, loc: nat, ghost rest: seq<Item>, ghost target: seq<Item>,
                     ghost entry: int)
    requires Left(a, target, entry) == Some([Use(l)] + rest)
    requires l in Locations(a.items, HEADER) && Locations(a.items, HEADER)[l] == loc
    modifies a, a.labels, a.code
    ensures Left(a, target, entry) == Some(rest) && Locations(a.items, HEADER) == old(Locations(a.items, HEADER))
  {
    Step(a.items, Use(l), rest, target);
    Appended(a.items, Use(l));
    a.EmitLocation(l, loc);
  }

  /** What is put down for the operands from the i-th on. */
  ghost function After(ops: seq<Operand>, i: nat): seq<Item>
    requires i <= |ops|
  {
    Operands(ops[i..])
  }

  lemma NextOperand(ops: seq<Operand>, i: nat)
    requires i < |ops|
    ensures After(ops, i) == OperandItems(ops[i]) + After(ops, i + 1)
  {
    assert ops[i..][1..] == ops[i + 1..];
  }

  lemma AfterAll(ops: seq<Operand>)
    ensures After(ops, 0) == Operands(ops) && After(ops, |ops|) == []
  {
    assert ops[0..] == ops;
  }

  method PutNumber(a: Assembler, ops: seq<Operand>, i: nat, ghost target: seq<Item>, ghost entry: int)
    requires i < |ops| && Left(a, target, entry) == Some(After(ops, i)) && ops[i].Number?
    modifies a, a.labels, a.code
    ensures Left(a, target, entry) == Some(After(ops, i + 1))
  {
    NextOperand(ops, i);
    PutWord(a, ops[i].w, After(ops, i + 1), target, entry);
  }

  method PutFloat(a: Assembler, ops: seq<Operand>, i: nat, ghost target: seq<Item>, ghost entry: int)
    requires i < |ops| && Left(a, target, entry) == Some(After(ops, i)) && ops[i].Real?
    modifies a, a.labels, a.code
    ensures Left(a, target, entry) == Some(After(ops, i + 1))
  {
    NextOperand(ops, i);
    ghost var rest := After(ops, i + 1);
    assert OperandItems(ops[i]) + rest == [Word(ops[i].lo)] + ([Word(ops[i].hi)] + rest);
    PutWord(a, ops[i].lo, [Word(ops[i].hi)] + rest, target, entry);
    PutWord(a, ops[i].hi, rest, target, entry);
  }

  method PutLabel(a: Assembler, ops: seq<Operand>, i: nat, ghost target: seq<Item>, ghost entry: int)
    requires i < |ops| && Left(a, target, entry) == Some(After(ops, i)) && ops[i].Label?
    modifies a, a.labels, a.code
    ensures Left(a, target, entry) == Some(After(ops, i + 1))
  {
    NextOperand(ops, i);
    PutName(a, ops[i].name, After(ops, i + 1), target, entry);
  }

  /** Operands are d of one word, then f floats, then e labels. */
  predicate Ordered(letters: string, d: nat, f: nat, e: nat) {
    |letters| == d + f + e && forall k :: 0 <= k < |letters| ==>
      (letters[k] == 'E' <==> k >= d + f) && (letters[k] == 'R' <==> d <= k < d + f)
  }

  /** The switch on the type: how many numbers, floats and labels the instruction has. */
  method OperandCounts(t: InstType) returns (d: nat, f: nat, e: nat)
    requires !IsImago(t) && !t.I_HTAB? && !t.I_OTHER?
    ensures Ordered(Letters(t), d, f, e)
  {
    match t
    case I_O => d, f, e := 0, 0, 0;
    case I_N | I_C | I_F | I_B | I_I | I_P => d, f, e := 1, 0, 0;
    case I_E => d, f, e := 0, 0, 1;
    case I_R => d, f, e := 0, 1, 0;
    case I_2N | I_NC | I_NF | I_NI => d, f, e := 2, 0, 0;
    case I_3N | I_2NF => d, f, e := 3, 0, 0;
    case I_4N => d, f, e := 4, 0, 0;
    case I_5N => d, f, e := 5, 0, 0;
    case I_6N => d, f, e := 6, 0, 0;
    case I_7N => d, f, e := 7, 0, 0;
    case I_8N => d, f, e := 8, 0, 0;
    case I_NR => d, f, e := 1, 1, 0;
    case I_NE => d, f, e := 1, 0, 1;
    case I_2NE | I_NFE => d, f, e := 2, 0, 1;
    case I_2NFE | I_3NE => d, f, e := 3, 0, 1;
    case I_3NFE => d, f, e := 4, 0, 1;
    case I_4E => d, f, e := 0, 0, 4;
    case I_N4E => d, f, e := 1, 0, 4;
  }

  ghost predicate OrderedOps(ops: seq<Operand>, d: nat, f: nat, e: nat) {
    && |ops| == d + f + e && (forall k :: 0 <= k < d ==> ops[k].Number?)
    && (forall k :: d <= k < d + f ==> ops[k].Real?) && (forall k :: d + f <= k < |ops| ==> ops[k].Label?)
  }

  lemma SpelledOrdered(letters: string, ops: seq<Operand>, d: nat, f: nat, e: nat)
    requires Spelled(letters, ops) && Ordered(letters, d, f, e)
    ensures OrderedOps(ops, d, f, e)
  {
    forall k | 0 <= k < |ops|
      ensures (k < d ==> ops[k].Number?) && (d <= k < d + f ==> ops[k].Real?) && (d + f <= k ==> ops[k].Label?)
    {
      assert Reads(letters[k], ops[k]);
    }
  }

  method PutNumbers(a: Assembler, ops: seq<Operand>, i: nat, j: nat, ghost target: seq<Item>, ghost entry: int)
    requires i <= j <= |ops| && forall k :: i <= k < j ==> ops[k].Number?
    requires Left(a, target, entry) == Some(After(ops, i))
    modifies a, a.labels, a.code
    ensures Left(a, target, entry) == Some(After(ops, j))
  {
    for k := i to j
      invariant Left(a, target, entry) == Some(After(ops, k))
    {
      PutNumber(a, ops, k, target, entry);
    }
  }

  method PutFloats(a: Assembler, ops: seq<Operand>, i: nat, j: nat, ghost target: seq<Item>, ghost entry: int)
    requires i <= j <= |ops| && forall k :: i <= k < j ==> ops[k].Real?
    requires Left(a, target, entry) == Some(After(ops, i))
    modifies a, a.labels, a.code
    ensures Left(a, target, entry) == Some(After(ops, j))
  {
    for k := i to j
      invariant Left(a, target, entry) == Some(After(ops, k))
    {
      PutFloat(a, ops, k, target, entry);
    }
  }

  method PutLabels(a: Assembler, ops: seq<Operand>, i: nat, j: nat, ghost target: seq<Item>, ghost entry: int)
    requires i <= j <= |ops| && forall k :: i <= k < j ==> ops[k].Label?
    requires Left(a, target, entry) == Some(After(ops, i))
    modifies a, a.labels, a.code
    ensures Left(a, target, entry) == Some(After(ops, j))
  {
    for k := i to j
      invariant Left(a, target, entry) == Some(After(ops, k))
    {
      PutLabel(a, ops, k, target, entry);
    }
  }

  /** The operands of an instruction. */
  method PutOperands(a: Assembler, t: InstType, ops: seq<Operand>, ghost target: seq<Item>, ghost entry: int)
    requires Left(a, target, entry) == Some(Operands(ops)) && Spelled(Letters(t), ops)
    requires !IsImago(t) && !t.I_HTAB? && !t.I_OTHER?
    modifies a, a.labels, a.code
    ensures Left(a, target, entry) == Some([])
  {
    var d, f := InOrder(t, ops);
    PutOrdered(a, ops, d, f, target, entry);
  }

  method InOrder(t: InstType, ops: seq<Operand>) returns (d: nat, f: nat)
    requires Spelled(Letters(t), ops) && !IsImago(t) && !t.I_HTAB? && !t.I_OTHER?
    ensures d + f <= |ops| && OrderedOps(ops, d, f, |ops| - d - f)
  {
    var e;
    d, f, e := OperandCounts(t);
    SpelledOrdered(Letters(t), ops, d, f, e);
  }

  method PutOrdered(a: Assembler, ops: seq<Operand>, d: nat, f: nat, ghost target: seq<Item>, ghost entry: int)
    requires d + f <= |ops| && OrderedOps(ops, d, f, |ops| - d - f) && Left(a, target, entry) == Some(Operands(ops))
    modifies a, a.labels, a.code
    ensures Left(a, target, entry) == Some([])
  {
    AfterAll(ops);
    PutNumbers(a, ops, 0, d, target, entry);
    PutFloats(a, ops, d, d + f, target, entry);
    PutLabels(a, ops, d + f, |ops|, target, entry);
  }

  lemma NothingLeft(a: Assembler, target: seq<Item>, entry: int)
    requires Left(a, target, entry) == Some([])
    ensures a.Valid() && a.items == target && a.cc == HEADER + Size(target) && Unique(target)
  {
    assert target == a.items + target[|a.items|..];
  }

  method PutInstruction(a: Assembler, types: seq<InstType>, imago: int, line: Line, ghost target: seq<Item>)
    requires line.Instruction? && Legal(types, line) && a.Valid() && Left(a, target, a.code[1]) == Some(LineItems(line))
    modifies a, a.labels, a.code
    ensures Left(a, target, EntryWith(types, imago, line, target, old(a.code[1]))) == Some([])
  {
    ghost var e := a.code[1];
    PutWord(a, line.op, Operands(line.ops), target, e);
    PutOperands(a, types[line.op], line.ops, target, e);
    NothingLeft(a, target, e);
    if types[line.op].I_P? {
      HeaderOperand(line.ops);
      if line.ops[0].w == imago { FillEntry(a); }
    }
  }

  lemma HeaderOperand(ops: seq<Operand>)
    requires Spelled(Letters(I_P), ops)
    ensures |ops| == 1 && ops[0].Number?
  {
    assert Reads(Letters(I_P)[0], ops[0]);
  }

  method FillEntry(a: Assembler)
    requires a.Valid()
    modifies a.code
    ensures a.Valid() && a.code[1] == a.cc
  {
    ghost var c := a.code[HEADER..a.cc];
    a.code[1] := a.cc;
    assert a.code[HEADER..a.cc] == c;
  }

  /** get_table: the labels are looked up when the table is read. */
  method GetTable(a: Assembler, slots: seq<Slot>) returns (locs: seq<nat>)
    requires a.Valid() && SlotsMet(Locations(a.items, HEADER), slots)
    modifies a.labels`hp
    ensures a.labels.hp == old(a.labels.hp) && |locs| == |slots|
    ensures forall i {:trigger locs[i]} :: 0 <= i < |slots| ==> locs[i] == Locations(a.items, HEADER)[slots[i].name]
  {
    locs := [];
    while |locs| < |slots|
      invariant |locs| <= |slots| && a.labels.hp == old(a.labels.hp)
      invariant forall i {:trigger locs[i]} :: 0 <= i < |locs| ==> locs[i] == Locations(a.items, HEADER)[slots[i].name]
    {
      ghost var m := Locations(a.items, HEADER);
      var s := slots[|locs|];
      assert s in slots;
      var loc := a.labels.Lookup(s.name, a.cc, Uses(a.items, HEADER), m);
      locs := locs + [loc];
    }
  }

  /** put_table: the number of slots, the branch for variables, and the slots. */
  method PutTable(a: Assembler, other: string, slots: seq<Slot>, ghost target: seq<Item>, ghost entry: int)
    requires Left(a, target, entry) == Some([Word(|slots|), Use(other)] + SlotItems(slots))
    requires other in Locations(a.items, HEADER) && SlotsMet(Locations(a.items, HEADER), slots)
    modifies a, a.labels, a.code
    ensures Left(a, target, entry) == Some([])
  {
    ghost var m := Locations(a.items, HEADER);
    var locs := GetTable(a, slots);
    var loc := a.labels.Lookup(other, a.cc, Uses(a.items, HEADER), m);
    ghost var rest := [Use(other)] + SlotItems(slots);
    assert [Word(|slots|), Use(other)] + SlotItems(slots) == [Word(|slots|)] + rest;
    PutWord(a, |slots|, rest, target, entry);
    PutLocation(a, other, loc, SlotItems(slots), target, entry);
    PutSlots(a, slots, locs, target, entry);
  }

  /** A hash table with a label that is met only later, which draws a warning: the request stands at the word that the
      size goes to, so the label's location takes the place of the size. */
  method SizeOverwritten(l: string, size: int, location: nat) returns (before: int, after: int)
    ensures before == size && after == location
  {
    var code := new int[8];
    var labels := new LabelHashTable(7, code);
    var r := labels.Lookup(l, HEADER + 1, map[], map[]);
    code[HEADER + 1] := size;
    before := code[HEADER + 1];
    r := labels.Insert(l, location, map[HEADER + 1 := l], map[]);
    after := code[HEADER + 1];
  }

  method PutSlots(a: Assembler, slots: seq<Slot>, locs: seq<nat>, ghost target: seq<Item>, ghost entry: int)
    requires Left(a, target, entry) == Some(SlotItems(slots)) && |locs| == |slots|
    requires SlotsMet(Locations(a.items, HEADER), slots)
    requires forall i {:trigger locs[i]} :: 0 <= i < |slots| ==> locs[i] == Locations(a.items, HEADER)[slots[i].name]
    modifies a, a.labels, a.code
    ensures Left(a, target, entry) == Some([])
  {
    assert slots[0..] == slots;
    for i := 0 to |slots|
      invariant Left(a, target, entry) == Some(SlotItems(slots[i..]))
      invariant Locations(a.items, HEADER) == old(Locations(a.items, HEADER))
    {
      PutSlot(a, slots[i], locs[i], SlotItems(slots[i + 1..]), target, entry) by {
        assert slots[i..][1..] == slots[i + 1..] && slots[i] in slots;
      }
    }
  }

  method PutSlot(a: Assembler, s: Slot, loc: nat, ghost rest: seq<Item>, ghost target: seq<Item>, ghost entry: int)
    requires Left(a, target, entry) == Some([Word(s.key), Use(s.name)] + rest)
    requires s.name in Locations(a.items, HEADER) && Locations(a.items, HEADER)[s.name] == loc
    modifies a, a.labels, a.code
    ensures Left(a, target, entry) == Some(rest) && Locations(a.items, HEADER) == old(Locations(a.items, HEADER))
  {
    assert [Word(s.key), Use(s.name)] + rest == [Word(s.key)] + ([Use(s.name)] + rest);
    PutWord(a, s.key, [Use(s.name)] + rest, target, entry);
    PutLocation(a, s.name, loc, rest, target, entry);
  }

  lemma LineLeft(a: Assembler, rest: seq<Item>)
    requires a.Valid() && HEADER + Size(a.items + rest) <= a.code.Length
    ensures Left(a, a.items + rest, a.code[1]) == Some(rest)
  {
  }

  method PutTableLine(a: Assembler, line: Line, ghost target: seq<Item>, ghost entry: int)
    requires line.Table? && Left(a, target, entry) == Some(LineItems(line))
    requires line.other in Locations(a.items, HEADER) && SlotsMet(Locations(a.items, HEADER), line.slots)
    modifies a, a.labels, a.code
    ensures Left(a, target, entry) == Some([])
  {
    ghost var rest := [Word(|line.slots|), Use(line.other)] + SlotItems(line.slots);
    assert LineItems(line) == [Word(line.op)] + rest;
    PutWord(a, line.op, rest, target, entry);
    PutTable(a, line.other, line.slots, target, entry);
  }

  /** A label met before is an error. */
  method PutHere(a: Assembler, l: string, ghost entry: int) returns (ok: bool)
    requires a.Valid() && a.code[1] == entry && HEADER + Size(a.items + [Define(l)]) <= a.code.Length
    modifies a, a.labels, a.code
    ensures ok <==> Unique(old(a.items) + [Define(l)])
    ensures ok ==> Left(a, old(a.items) + [Define(l)], entry) == Some([])
  {
    ok := a.DefineLabel(l);
    if ok {
      assert a.items + [] == a.items;
      LineLeft(a, []);
    }
  }

  method TranslateLine(a: Assembler, types: seq<InstType>, imago: int, line: Line, ghost before: seq<Line>)
    returns (ok: bool)
    requires a.Valid() && a.items == ItemsOf(before) && Legal(types, line) && TableReady(before, line)
    requires HEADER + Size(a.items + LineItems(line)) <= a.code.Length
    modifies a, a.labels, a.code
    ensures ok <==> Unique(ItemsOf(before) + LineItems(line))
    ensures ok ==> Left(a, ItemsOf(before) + LineItems(line),
      EntryWith(types, imago, line, ItemsOf(before) + LineItems(line), old(a.code[1]))) == Some([])
  {
    ghost var target, e := a.items + LineItems(line), a.code[1];
    LineLeft(a, LineItems(line));
    match line
    case Here(l) => ok := PutHere(a, l, e);
    case Instruction(_, _) =>
      PutInstruction(a, types, imago, line, target);
      NothingLeft(a, target, EntryWith(types, imago, line, target, e));
      ok := true;
    case Table(_, _, _) =>
      TableMet(before, line);
      PutTableLine(a, line, target, e);
      NothingLeft(a, target, e);
      ok := true;
  }

  method TranslateNext(a: Assembler, types: seq<InstType>, imago: int, lines: seq<Line>, i: nat) returns (ok: bool)
    requires i < |lines| && AllLegal(types, lines) && TablesReady(lines)
    requires Left(a, ItemsOf(lines[..i]), Entry(types, imago, lines[..i])) == Some([])
    requires HEADER + Size(ItemsOf(lines)) <= a.code.Length
    modifies a, a.labels, a.code
    ensures ok <==> Unique(ItemsOf(lines[..i + 1]))
    ensures ok ==> Left(a, ItemsOf(lines[..i + 1]), Entry(types, imago, lines[..i + 1])) == Some([])
  {
    OneMore(lines, i);
    SizeSoFar(lines, i + 1);
    LegalAt(types, lines, i);
    EntryMore(types, imago, lines, i);
    NothingLeft(a, ItemsOf(lines[..i]), Entry(types, imago, lines[..i]));
    ok := TranslateLine(a, types, imago, lines[i], lines[..i]);
  }

  /** The assembler's loop over the program. */
  method Translate(a: Assembler, types: seq<InstType>, imago: int, lines: seq<Line>) returns (ok: bool)
    requires Left(a, [], 0) == Some([]) && AllLegal(types, lines) && TablesReady(lines)
    requires HEADER + Size(ItemsOf(lines)) <= a.code.Length
    modifies a, a.labels, a.code
    ensures ok <==> Unique(ItemsOf(lines))
    ensures ok ==> Left(a, ItemsOf(lines), Entry(types, imago, lines)) == Some([])
  {
    ok := true;
    var i := 0;
    while i < |lines| && ok
      invariant i <= |lines|
      invariant ok ==> Left(a, ItemsOf(lines[..i]), Entry(types, imago, lines[..i])) == Some([])
      invariant !ok ==> !Unique(ItemsOf(lines))
      decreases |lines| - i
    {
      ok := TranslateNext(a, types, imago, lines, i);
      if !ok { TwiceBefore(lines, i + 1); }
      i := i + 1;
    }
    assert lines[..|lines|] == lines;
    if ok { NothingLeft(a, ItemsOf(lines), Entry(types, imago, lines)); }
  }

  /** The code c is what the program should be: the imago instruction, its entry, and the lines. */
  ghost predicate Assembled(types: seq<InstType>, op: nat, imago: int, lines: seq<Line>, c: seq<int>) {
    && |c| == Place(lines, |lines|) && c[0] == op && AllLines(c, 0, lines) && EntryIn(types, imago, lines, c[1])
    && |c| == HEADER + Size(ItemsOf(lines)) && AllAt(c, ItemsOf(lines))
  }

  /** The entry lies behind the last header of the imago's procedure. */
  ghost predicate EntryIn(types: seq<InstType>, imago: int, lines: seq<Line>, entry: int) {
    forall k {:trigger LastEntry(types, imago, lines, k)} :: 0 <= k < |lines| && LastEntry(types, imago, lines, k) ==>
      entry == Place(lines, k + 1)
  }

  ghost predicate LastEntry(types: seq<InstType>, imago: int, lines: seq<Line>, k: nat)
    requires k < |lines|
  {
    IsEntry(types, imago, lines[k]) && forall j :: k < j < |lines| ==> !IsEntry(types, imago, lines[j])
  }

  lemma EntryFound(types: seq<InstType>, imago: int, lines: seq<Line>)
    ensures EntryIn(types, imago, lines, Entry(types, imago, lines))
  {
    forall k | 0 <= k < |lines| && LastEntry(types, imago, lines, k)
      ensures Entry(types, imago, lines) == Place(lines, k + 1)
    {
      EntryAt(types, imago, lines, k);
      PlaceIs(lines, k + 1);
      TemplateSize(ItemsOf(lines[..k + 1]));
    }
  }

  lemma {:induction false} AssembledIs(types: seq<InstType>, op: nat, imago: int, lines: seq<Line>, c: seq<int>)
    requires |c| == HEADER + Size(ItemsOf(lines)) && AllAt(c, ItemsOf(lines)) && c[0] == op
    requires c[1] == Entry(types, imago, lines)
    ensures Assembled(types, op, imago, lines, c)
  {
    var items := ItemsOf(lines);
    forall i | 0 <= i < |items| ensures LoadedAt(c, 0, items, i) { assert ItemAt(c, items, i); }
    LinesLoaded(c, 0, lines);
    EntryFound(types, imago, lines);
    LengthIs(lines);
  }

  lemma LengthIs(lines: seq<Line>)
    ensures Place(lines, |lines|) == HEADER + Size(ItemsOf(lines))
  {
    PlaceIs(lines, |lines|);
    assert lines[..|lines|] == lines;
    TemplateSize(ItemsOf(lines));
  }

  /** A program is assembled exactly if every label is defined once, every label used is defined, and there is an
      entry. */
  method AssembleProgram(types: seq<InstType>, op: nat, imago: int, lines: seq<Line>, sz: nat, max: nat)
    returns (ok: bool, file: seq<int>)
    requires op < |types| && IsImago(types[op]) && AllLegal(types, lines) && TablesReady(lines)
    requires sz > 0 && Place(lines, |lines|) <= max
    ensures ok <==> Complete(lines) && exists k :: 0 <= k < |lines| && IsEntry(types, imago, lines[k])
    ensures ok ==> Assembled(types, op, imago, lines, file)
  {
    var a := new Assembler(sz, max, op);
    file := [];
    LengthIs(lines);
    ok := Translate(a, types, imago, lines);
    if ok {
      NothingLeft(a, ItemsOf(lines), Entry(types, imago, lines));
      file := a.code[..a.cc];
      ok := a.Finish();
      ok := ok && a.code[1] != 0;
      ItemsPlaced(file, ItemsOf(lines), a.cc);
      AssembledIs(types, op, imago, lines, file);
    }
    EntryIs(types, imago, lines);
    UsedIfUnique(ItemsOf(lines));
    CompleteIs(lines);
  }

  /** What is in a block that begins at base, and that an assembled program has been loaded into: every operand that is
      a label is the address of the label, and so is the entry. */
  ghost predicate Loaded(types: seq<InstType>, op: nat, imago: int, lines: seq<Line>, b: seq<int>, base: int) {
    |b| == Place(lines, |lines|) && b[0] == op && AllLines(b, base, lines) && EntryIn(types, imago, lines, b[1] - base)
  }

  lemma AssembledLoads(types: seq<InstType>, op: nat, imago: int, lines: seq<Line>, c: seq<int>, base: int)
    requires op < |types| && IsImago(types[op]) && AllLegal(types, lines) && Assembled(types, op, imago, lines, c)
    ensures Fits(Kinds(types), c, 0) && Known(Kinds(types), c, 0)
    ensures Loaded(types, op, imago, lines, Moved((Kinds(types), c), base), base)
  {
    AssembledMoved(types, lines, c, base);
    LinesLoaded(Moved((Kinds(types), c), base), base, lines);
  }

  lemma MovedAgain(c: Program, d: int, e: int)
    requires Known(c.0, c.1, 0)
    ensures Fits(c.0, Moved(c, d), 0) && Known(c.0, Moved(c, d), 0) && Moved((c.0, Moved(c, d)), e) == Moved(c, d + e)
  {
    MovedLayout(c, d);
    MovedTwice(c, d, e);
  }

  method LoadFile(types: seq<InstType>, file: seq<int>, base: int) returns (ok: bool, code: array<int>)
    requires Fits(Kinds(types), file, 0)
    ensures ok <==> Known(Kinds(types), file, 0)
    ensures ok ==> code[..] == Moved((Kinds(types), file), base)
  {
    code := new int[|file|];
    var loader := new LoadCode.Loader(types, file, code, base);
    ok := loader.Load();
  }

  method CloneCode(types: seq<InstType>, from: seq<int>, distance: int) returns (clone: array<int>)
    requires Fits(Kinds(types), from, 0) && Known(Kinds(types), from, 0)
    ensures clone[..] == Moved((Kinds(types), from), distance)
  {
    clone := new int[|from|];
    var walker := new MoveCode.Walker(types, from, clone, distance);
    walker.Move();
  }

  /** load_code on an assembled program, and clone_block on the block that it is in. */
  method LoadAndClone(types: seq<InstType>, file: seq<int>, base: int, distance: int, ghost op: nat,
                      ghost imago: int, ghost lines: seq<Line>)
    returns (block: seq<int>, copy: seq<int>)
    requires op < |types| && IsImago(types[op]) && AllLegal(types, lines) && Assembled(types, op, imago, lines, file)
    ensures Loaded(types, op, imago, lines, block, base)
    ensures Loaded(types, op, imago, lines, copy, base + distance)
  {
    AssembledLoads(types, op, imago, lines, file, base);
    AssembledLoads(types, op, imago, lines, file, base + distance);
    var ok, code := LoadFile(types, file, base);
    block := code[..];
    MovedAgain((Kinds(types), file), base, distance);
    var clone := CloneCode(types, block, distance);
    copy := clone[..];
  }
}
