// The assembler's translation, instruction by instruction: of the code it makes, the words that are labels are those
// it has read as labels, so that in a loaded or cloned block each of them is the address of the label.
module Assembly {
  import opened Code
  import opened Labels

  // An operand as it is read; a float is put down as two words.
  datatype Operand = Number(w: int) | Real(lo: int, hi: int) | Label(name: string)

  datatype Slot = Slot(key: int, name: string)

  // A line of the program: an instruction with its operands, a hash table with the branch for variables and its
  // slots, or the definition of a label.
  datatype Line =
    | Instruction(op: nat, ops: seq<Operand>)
    | Table(op: nat, other: string, slots: seq<Slot>)
    | Here(name: string)

  function OperandItems(o: Operand): seq<Item> {
    match o
    case Number(w) => [Word(w)]
    case Real(lo, hi) => [Word(lo), Word(hi)]
    case Label(l) => [Use(l)]
  }

  function Operands(ops: seq<Operand>): seq<Item> {
    if ops == [] then [] else OperandItems(ops[0]) + Operands(ops[1..])
  }

  function SlotItems(slots: seq<Slot>): seq<Item> {
    if slots == [] then [] else [Word(slots[0].key), Use(slots[0].name)] + SlotItems(slots[1..])
  }

  /** What is put down for a line: the operation code, then each operand as it is read. */
  function LineItems(line: Line): seq<Item> {
    match line
    case Instruction(op, ops) => [Word(op)] + Operands(ops)
    case Table(op, other, slots) => [Word(op), Word(|slots|), Use(other)] + SlotItems(slots)
    case Here(l) => [Define(l)]
  }

  function Texts(lines: seq<Line>): (r: seq<seq<Item>>)
    ensures |r| == |lines| && forall i {:trigger r[i]} :: 0 <= i < |r| ==> r[i] == LineItems(lines[i])
  {
    seq(|lines|, i requires 0 <= i < |lines| => LineItems(lines[i]))
  }

  function Concat(ss: seq<seq<Item>>): seq<Item> {
    if ss == [] then [] else ss[0] + Concat(ss[1..])
  }

  /** What is put down for the whole program. */
  function ItemsOf(lines: seq<Line>): seq<Item> {
    Concat(Texts(lines))
  }

  lemma FirstLine(lines: seq<Line>)
    requires lines != []
    ensures ItemsOf(lines) == LineItems(lines[0]) + ItemsOf(lines[1..])
  {
    assert Texts(lines)[1..] == Texts(lines[1..]);
  }

  predicate IsImago(t: InstType) {
    t.I_STATIONARY? || t.I_WORKER? || t.I_MESSENGER?
  }

  /** The letter c stands for an operand like o. */
  predicate Reads(c: char, o: Operand) {
    match o
    case Label(_) => c == 'E'
    case Real(_, _) => c == 'R'
    case Number(_) => c != 'E' && c != 'R'
  }

  predicate Spelled(letters: string, ops: seq<Operand>) {
    |ops| == |letters| && forall i :: 0 <= i < |ops| ==> Reads(letters[i], ops[i])
  }

  /** The operands of an instruction are those that its type spells. */
  predicate Legal(types: seq<InstType>, line: Line) {
    match line
    case Instruction(op, ops) =>
      && op < |types| && !IsImago(types[op]) && !types[op].I_HTAB? && !types[op].I_OTHER?
      && Spelled(Letters(types[op]), ops)
    case Table(op, _, _) => op < |types| && types[op].I_HTAB?
    case Here(_) => true
  }

  /** The operands ops are n of one word and then e labels. */
  predicate Operate(ops: seq<Operand>, n: nat, e: nat) {
    && |ops| == n + e && (forall i :: 0 <= i < n ==> ops[i].Number?)
    && forall i :: n <= i < n + e ==> ops[i].Label?
  }

  /** What the assembler reads for the types that have no labels. */
  lemma NumbersRead(t: InstType, ops: seq<Operand>)
    requires Spelled(Letters(t), ops)
    ensures t.I_O? ==> ops == []
    ensures t.I_N? || t.I_C? || t.I_F? || t.I_B? || t.I_I? || t.I_P? ==> Operate(ops, 1, 0)
    ensures t.I_2N? || t.I_NC? || t.I_NF? || t.I_NI? ==> Operate(ops, 2, 0)
    ensures t.I_3N? || t.I_2NF? ==> Operate(ops, 3, 0)
    ensures t.I_4N? ==> Operate(ops, 4, 0)
    ensures t.I_5N? ==> Operate(ops, 5, 0)
    ensures t.I_6N? ==> Operate(ops, 6, 0)
    ensures t.I_7N? ==> Operate(ops, 7, 0)
    ensures t.I_8N? ==> Operate(ops, 8, 0)
    ensures t.I_R? ==> |ops| == 1 && ops[0].Real?
    ensures t.I_NR? ==> |ops| == 2 && ops[0].Number? && ops[1].Real?
  {
    assert forall i :: 0 <= i < |ops| ==> Reads(Letters(t)[i], ops[i]);
  }

  /** What it reads for the types that have: the labels come last. */
  lemma LabelsRead(t: InstType, ops: seq<Operand>)
    requires Spelled(Letters(t), ops)
    ensures t.I_E? ==> Operate(ops, 0, 1)
    ensures t.I_NE? ==> Operate(ops, 1, 1)
    ensures t.I_2NE? || t.I_NFE? ==> Operate(ops, 2, 1)
    ensures t.I_2NFE? || t.I_3NE? ==> Operate(ops, 3, 1)
    ensures t.I_3NFE? ==> Operate(ops, 4, 1)
    ensures t.I_4E? ==> Operate(ops, 0, 4)
    ensures t.I_N4E? ==> Operate(ops, 1, 4)
  {
    assert forall i :: 0 <= i < |ops| ==> Reads(Letters(t)[i], ops[i]);
  }

  /** The labels of a hash table have been met in the lines before it. */
  predicate TableReady(before: seq<Line>, line: Line) {
    line.Table? ==> Here(line.other) in before && forall s :: s in line.slots ==> Here(s.name) in before
  }

  predicate TablesReady(lines: seq<Line>) {
    forall i {:trigger lines[i]} :: 0 <= i < |lines| ==> TableReady(lines[..i], lines[i])
  }

  predicate AllLegal(types: seq<InstType>, lines: seq<Line>) {
    lines == [] || (Legal(types, lines[0]) && AllLegal(types, lines[1..]))
  }

  // A word of the code: one that is known, or one that is a label.
  datatype Spot = Fixed(w: int) | Link(name: string)

  function SpotOf(item: Item): seq<Spot> {
    match item
    case Word(w) => [Fixed(w)]
    case Use(l) => [Link(l)]
    case Define(_) => []
  }

  function Template(items: seq<Item>): seq<Spot> {
    if items == [] then [] else SpotOf(items[0]) + Template(items[1..])
  }

  lemma {:induction false} Joined(a: seq<Item>, b: seq<Item>)
    ensures Template(a + b) == Template(a) + Template(b)
    decreases |a|
  {
    if a == [] {
      assert a + b == b;
    } else {
      Joined(a[1..], b);
      assert (a + b)[1..] == a[1..] + b;
      var f, t := SpotOf(a[0]), Template(a[1..]);
      assert f + t + Template(b) == f + (t + Template(b));
    }
  }

  lemma {:induction false} TemplateSize(items: seq<Item>)
    ensures |Template(items)| == Size(items)
    decreases |items|
  {
    if items != [] {
      var n := |items| - 1;
      TemplateSize(items[..n]);
      Joined(items[..n], [items[n]]);
      assert items[..n] + [items[n]] == items;
      One(items[n]);
    }
  }

  lemma {:induction false} TemplateAt(items: seq<Item>, i: nat)
    requires i < |items| && !items[i].Define?
    ensures Size(items[..i]) < Size(items) == |Template(items)|
    ensures Template(items)[Size(items[..i])] == if items[i].Word? then Fixed(items[i].w) else Link(items[i].name)
  {
    TemplateSize(items);
    TemplateSize(items[..i]);
    Joined(items[..i], items[i..]);
    assert items[..i] + items[i..] == items;
  }

  lemma One(item: Item)
    ensures Template([item]) ==
      if item.Word? then [Fixed(item.w)] else if item.Use? then [Link(item.name)] else []
  {
    assert [item][1..] == [];
  }

  lemma Two(a: Item, b: Item)
    requires a.Word? && !b.Define?
    ensures Template([a, b]) == [Fixed(a.w), if b.Word? then Fixed(b.w) else Link(b.name)]
  {
    One(a);
    One(b);
    Joined([a], [b]);
    assert [a] + [b] == [a, b];
  }

  /** Which words of the operands are labels, by their letters. */
  function Widths(letters: string): seq<bool> {
    if letters == "" then [] else
    (if letters[0] == 'R' then [false, false] else [letters[0] == 'E']) + Widths(letters[1..])
  }

  /** The words of t that are labels are those that s says. */
  ghost predicate Shaped(t: seq<Spot>, s: seq<bool>) {
    |t| == |s| && forall k {:trigger t[k]} {:trigger s[k]} :: 0 <= k < |t| ==> (t[k].Link? <==> s[k])
  }

  lemma {:induction false} SpelledShape(letters: string, ops: seq<Operand>)
    requires Spelled(letters, ops)
    ensures Shaped(Template(Operands(ops)), Widths(letters))
    decreases |ops|
  {
    if ops != [] {
      SpelledShape(letters[1..], ops[1..]);
      assert Reads(letters[0], ops[0]);
      FirstShape(ops[0]);
      Joined(OperandItems(ops[0]), Operands(ops[1..]));
    }
  }

  lemma FirstShape(o: Operand)
    ensures Shaped(Template(OperandItems(o)), if o.Real? then [false, false] else [o.Label?])
  {
    var a := OperandItems(o);
    if o.Real? { Two(a[0], a[1]); } else { One(a[0]); }
  }

  lemma {:induction false} PlainWidths(letters: string)
    requires 'R' !in letters
    ensures |Widths(letters)| == |letters|
    ensures forall k :: 0 <= k < |letters| ==> (Widths(letters)[k] <==> letters[k] == 'E')
    decreases |letters|
  {
    if letters != "" { PlainWidths(letters[1..]); }
  }

  /** The letters s have e labels behind d operands of one word each. */
  predicate LabelsLast(s: string, d: nat, e: nat) {
    |s| == d + e && forall k :: 0 <= k < d + e ==> s[k] != 'R' && (s[k] == 'E' <==> k >= d)
  }

  lemma LettersOrdered(t: InstType)
    requires !t.I_HTAB? && !t.I_OTHER? && !t.I_R? && !t.I_NR?
    ensures KindOf(t).Plain? && LabelsLast(Letters(t), KindOf(t).direct, KindOf(t).labels)
  {
    match t
    case I_O | I_N | I_C | I_F | I_B | I_I | I_P | I_E | I_STATIONARY | I_WORKER | I_MESSENGER =>
    case I_2N | I_3N | I_4N | I_NE | I_NC | I_NF | I_NI =>
    case I_5N | I_6N | I_7N | I_8N =>
    case I_2NE | I_2NF | I_NFE =>
    case I_2NFE | I_3NE | I_3NFE =>
    case I_4E | I_N4E =>
  }

  /** The kind of a type says where the letters have the labels. */
  lemma KindSpelled(t: InstType)
    requires !t.I_HTAB? && !t.I_OTHER?
    ensures KindOf(t).Plain? && KindOf(t).direct + KindOf(t).labels == |Widths(Letters(t))|
    ensures forall k :: 1 <= k <= |Widths(Letters(t))| ==> (Widths(Letters(t))[k - 1] <==> IsLabel(KindOf(t), k))
  {
    if t.I_R? || t.I_NR? {
      FloatWidths();
    } else {
      LettersOrdered(t);
      PlainWidths(Letters(t));
    }
  }

  lemma FloatWidths()
    ensures Widths("R") == [false, false] && Widths("NR") == [false, false, false]
  {
    assert "R"[1..] == "" && "NR"[1..] == "R";
    assert Widths("R") == [false, false];
  }

  lemma {:induction false} SlotShape(slots: seq<Slot>)
    ensures |Template(SlotItems(slots))| == 2 * |slots|
    ensures forall k {:trigger Template(SlotItems(slots))[k]} :: 0 <= k < 2 * |slots| ==>
      (Template(SlotItems(slots))[k].Link? <==> k % 2 == 1)
    ensures forall i {:trigger SlotSpots(Template(SlotItems(slots)), slots, i)} :: 0 <= i < |slots| ==>
      SlotSpots(Template(SlotItems(slots)), slots, i)
    decreases |slots|
  {
    if slots != [] {
      SlotShape(slots[1..]);
      var a, b := Word(slots[0].key), Use(slots[0].name);
      Joined([a, b], SlotItems(slots[1..]));
      Two(a, b);
      forall i | 0 <= i < |slots| ensures SlotSpots(Template(SlotItems(slots)), slots, i) {
        if i > 0 { assert SlotSpots(Template(SlotItems(slots[1..])), slots[1..], i - 1); }
      }
    }
  }

  /** The words of the i-th slot. */
  ghost predicate SlotSpots(s: seq<Spot>, slots: seq<Slot>, i: nat)
    requires i < |slots|
  {
    2 * i + 1 < |s| && s[2 * i] == Fixed(slots[i].key) && s[2 * i + 1] == Link(slots[i].name)
  }

  /** The words s are an instruction of the kind t, with its labels where the kind has them. */
  ghost predicate Instructed(s: seq<Spot>, op: nat, t: Kind) {
    && |s| > 0 && s[0] == Fixed(op) && (forall k {:trigger s[k]} :: 0 <= k < |s| ==> (s[k].Link? <==> IsLabel(t, k)))
    && match t
       case Plain(d, e) => |s| == 1 + d + e
       case HashTable => |s| >= 3 && s[1].Fixed? && s[1].w >= 0 && |s| == 3 + 2 * s[1].w
       case Unknown => false
  }

  lemma {:induction false} LineKind(types: seq<InstType>, line: Line)
    requires Legal(types, line) && !line.Here?
    ensures Instructed(Template(LineItems(line)), line.op, KindOf(types[line.op]))
  {
    if line.Instruction? {
      InstructionKind(line.op, types[line.op], line.ops);
    } else {
      TableKind(line);
    }
  }

  lemma {:induction false} InstructionKind(op: nat, t: InstType, ops: seq<Operand>)
    requires !t.I_HTAB? && !t.I_OTHER? && Spelled(Letters(t), ops)
    ensures Instructed(Template(LineItems(Instruction(op, ops))), op, KindOf(t))
  {
    var s := Template(Operands(ops));
    SpelledShape(Letters(t), ops);
    KindSpelled(t);
    Joined([Word(op)], Operands(ops));
    One(Word(op));
    forall k | 0 <= k < 1 + |s| ensures ([Fixed(op)] + s)[k].Link? <==> IsLabel(KindOf(t), k) {
      if k > 0 { assert ([Fixed(op)] + s)[k] == s[k - 1]; }
    }
  }

  lemma {:induction false} TableKind(line: Line)
    requires line.Table?
    ensures Instructed(Template(LineItems(line)), line.op, HashTable)
  {
    var n, s := |line.slots|, Template(SlotItems(line.slots));
    SlotShape(line.slots);
    TableHead(Word(line.op), Word(n), Use(line.other), SlotItems(line.slots));
    var h: seq<Spot> := [Fixed(line.op), Fixed(n), Link(line.other)];
    forall k | 0 <= k < 3 + |s| ensures (h + s)[k].Link? <==> IsLabel(HashTable, k) {
      if k >= 3 { assert (h + s)[k] == s[k - 3]; }
    }
  }

  lemma {:induction false} TableHead(a: Item, b: Item, c: Item, rest: seq<Item>)
    requires a.Word? && b.Word? && c.Use?
    ensures Template([a, b, c] + rest) == [Fixed(a.w), Fixed(b.w), Link(c.name)] + Template(rest)
  {
    Two(a, b);
    One(c);
    Joined([a, b], [c]);
    assert [a, b] + [c] == [a, b, c];
    Joined([a, b, c], rest);
  }

  /** The code c from p on has the words that are known. */
  ghost predicate Put(c: seq<int>, p: nat, s: seq<Spot>) {
    p + |s| <= |c| && forall k {:trigger s[k]} :: 0 <= k < |s| && s[k].Fixed? ==> c[p + k] == s[k].w
  }

  lemma PutParts(c: seq<int>, p: nat, s: seq<Spot>, t: seq<Spot>)
    requires Put(c, p, s + t)
    ensures Put(c, p, s) && Put(c, p + |s|, t)
  {
    forall k | 0 <= k < |s| && s[k].Fixed? ensures c[p + k] == s[k].w { assert (s + t)[k] == s[k]; }
    forall k | 0 <= k < |t| && t[k].Fixed? ensures c[p + |s| + k] == t[k].w { assert (s + t)[|s| + k] == t[k]; }
  }

  /** The code from p on is instructions of known types, and its labels are those of the words s. */
  ghost predicate LaidFrom(tab: seq<Kind>, c: seq<int>, p: nat, s: seq<Spot>) {
    && p + |s| == |c| && Fits(tab, c, p) && Known(tab, c, p)
    && forall i: nat {:trigger LabelAt(tab, c, p, i)} :: p <= i < |c| ==> (LabelAt(tab, c, p, i) <==> s[i - p].Link?)
  }

  function Flat(ss: seq<seq<Spot>>): seq<Spot> {
    if ss == [] then [] else ss[0] + Flat(ss[1..])
  }

  /** The words of each line. */
  function Chunks(lines: seq<Line>): seq<seq<Spot>> {
    if lines == [] then [] else [Template(LineItems(lines[0]))] + Chunks(lines[1..])
  }

  lemma {:induction false} ChunksJoined(lines: seq<Line>)
    ensures Template(ItemsOf(lines)) == Flat(Chunks(lines))
    decreases |lines|
  {
    if lines != [] {
      FirstLine(lines);
      Joined(LineItems(lines[0]), ItemsOf(lines[1..]));
      ChunksJoined(lines[1..]);
    }
  }

  /** The words s are an instruction of a kind that is known, or none. */
  ghost predicate ChunkOK(tab: seq<Kind>, s: seq<Spot>) {
    s == [] || (s[0].Fixed? && 0 <= s[0].w < |tab| && Instructed(s, s[0].w, tab[s[0].w]))
  }

  ghost predicate ChunksOK(tab: seq<Kind>, ss: seq<seq<Spot>>) {
    ss == [] || (ChunkOK(tab, ss[0]) && ChunksOK(tab, ss[1..]))
  }

  lemma {:induction false} LegalChunks(types: seq<InstType>, lines: seq<Line>)
    requires AllLegal(types, lines)
    ensures ChunksOK(Kinds(types), Chunks(lines))
    decreases |lines|
  {
    if lines != [] {
      LegalChunk(types, lines[0]);
      LegalChunks(types, lines[1..]);
      assert Chunks(lines)[1..] == Chunks(lines[1..]);
    }
  }

  lemma {:induction false} LegalChunk(types: seq<InstType>, line: Line)
    requires Legal(types, line)
    ensures ChunkOK(Kinds(types), Template(LineItems(line)))
  {
    if line.Here? { One(LineItems(line)[0]); } else { LineKind(types, line); }
  }

  lemma {:induction false} BodyLaid(tab: seq<Kind>, c: seq<int>, p: nat, ss: seq<seq<Spot>>)
    requires ChunksOK(tab, ss) && Put(c, p, Flat(ss)) && p + |Flat(ss)| == |c|
    ensures LaidFrom(tab, c, p, Flat(ss))
    decreases |ss|
  {
    if ss != [] {
      var s, rest := ss[0], Flat(ss[1..]);
      PutParts(c, p, s, rest);
      BodyLaid(tab, c, p + |s|, ss[1..]);
      if s == [] { assert s + rest == rest; } else { LineLaid(tab, c, p, s, s[0].w, rest); }
    }
  }

  lemma {:induction false} LineLaid(tab: seq<Kind>, c: seq<int>, p: nat, s: seq<Spot>, op: nat, rest: seq<Spot>)
    requires op < |tab| && Instructed(s, op, tab[op]) && Put(c, p, s) && LaidFrom(tab, c, p + |s|, rest)
    ensures LaidFrom(tab, c, p, s + rest)
  {
    assert c[p] == op && (tab[op].HashTable? ==> c[p + 1] == s[1].w);
    assert InstFits(tab, c, p) && Length(tab, c, p) == |s|;
    forall i: nat | p <= i < |c| ensures LabelAt(tab, c, p, i) <==> (s + rest)[i - p].Link? {
      if i < p + |s| {
        assert s[i - p].Link? <==> IsLabel(tab[op], i - p);
      } else {
        assert LabelAt(tab, c, p, i) <==> LabelAt(tab, c, p + |s|, i);
      }
    }
  }

  /** The word at p has been read as a label. */
  ghost predicate UseAt(items: seq<Item>, p: nat) {
    exists i: nat {:trigger items[i]} :: i < |items| && items[i].Use? && p == HEADER + Size(items[..i])
  }

  ghost predicate AllAt(c: seq<int>, items: seq<Item>) {
    forall i {:trigger ItemAt(c, items, i)} :: 0 <= i < |items| ==> ItemAt(c, items, i)
  }

  lemma {:induction false} ItemsPut(c: seq<int>, items: seq<Item>)
    requires |c| == HEADER + Size(items) && AllAt(c, items)
    ensures Put(c, HEADER, Template(items))
  {
    var s := Template(items);
    TemplateSize(items);
    forall k | 0 <= k < |s| && s[k].Fixed? ensures c[HEADER + k] == s[k].w {
      var i := WordOf(items, k);
      TemplateAt(items, i);
      assert ItemAt(c, items, i);
    }
  }

  /** The labels of assembled code, besides the entry in its header, are the operands read as labels. */
  lemma {:induction false} AssembledLabels(types: seq<InstType>, lines: seq<Line>, c: seq<int>)
    requires AllLegal(types, lines) && |c| == HEADER + Size(ItemsOf(lines)) && AllAt(c, ItemsOf(lines))
    requires 0 <= c[0] < |types| && IsImago(types[c[0]])
    ensures Fits(Kinds(types), c, 0) && Known(Kinds(types), c, 0)
    ensures forall p: nat {:trigger LabelAt(Kinds(types), c, 0, p)} :: p < |c| ==>
      (LabelAt(Kinds(types), c, 0, p) <==> p == 1 || UseAt(ItemsOf(lines), p))
  {
    ItemsPut(c, ItemsOf(lines));
    TemplateSize(ItemsOf(lines));
    LegalChunks(types, lines);
    ChunksJoined(lines);
    BodyLaid(Kinds(types), c, HEADER, Chunks(lines));
    LabelsLaid(Kinds(types), c, ItemsOf(lines));
  }

  lemma {:induction false} LabelsLaid(tab: seq<Kind>, c: seq<int>, items: seq<Item>)
    requires LaidFrom(tab, c, HEADER, Template(items)) && 0 <= c[0] < |tab| && tab[c[0]] == Plain(0, 1)
    ensures forall p: nat {:trigger LabelAt(tab, c, 0, p)} :: p < |c| ==>
      (LabelAt(tab, c, 0, p) <==> p == 1 || UseAt(items, p))
  {
    var s := Template(items);
    TemplateSize(items);
    LineLaid(tab, c, 0, [Fixed(c[0]), Link("")], c[0], s);
    forall p: nat | p < |c| ensures LabelAt(tab, c, 0, p) <==> p == 1 || UseAt(items, p) {
      if p >= HEADER { LinkAt(items, p); }
    }
  }

  lemma {:induction false} LinkAt(items: seq<Item>, p: nat)
    requires HEADER <= p < HEADER + Size(items)
    ensures |Template(items)| == Size(items) && (Template(items)[p - HEADER].Link? <==> UseAt(items, p))
  {
    TemplateSize(items);
    var i := WordOf(items, p - HEADER);
    TemplateAt(items, i);
    if UseAt(items, p) {
      var j: nat :| j < |items| && items[j].Use? && p == HEADER + Size(items[..j]);
      TemplateAt(items, j);
    }
  }

  lemma SizeJoined(a: seq<Item>, b: seq<Item>)
    ensures Size(a + b) == Size(a) + Size(b)
  {
    Joined(a, b);
    TemplateSize(a);
    TemplateSize(b);
    TemplateSize(a + b);
  }

  lemma {:induction false} ConcatJoined(a: seq<seq<Item>>, b: seq<seq<Item>>)
    ensures Concat(a + b) == Concat(a) + Concat(b)
    decreases |a|
  {
    if a == [] {
      assert a + b == b;
    } else {
      ConcatJoined(a[1..], b);
      assert (a + b)[1..] == a[1..] + b;
      assert a[0] + Concat(a[1..]) + Concat(b) == a[0] + (Concat(a[1..]) + Concat(b));
    }
  }

  lemma LinesJoined(a: seq<Line>, b: seq<Line>)
    ensures ItemsOf(a + b) == ItemsOf(a) + ItemsOf(b)
  {
    assert Texts(a + b) == Texts(a) + Texts(b);
    ConcatJoined(Texts(a), Texts(b));
  }

  lemma OneLine(line: Line)
    ensures ItemsOf([line]) == LineItems(line)
  {
    var t := Texts([line]);
    assert t[1..] == [] && t[0] == LineItems(line);
    assert Concat(t) == t[0] + Concat(t[1..]);
  }

  lemma OneMore(lines: seq<Line>, i: nat)
    requires i < |lines|
    ensures ItemsOf(lines[..i + 1]) == ItemsOf(lines[..i]) + LineItems(lines[i])
  {
    LinesJoined(lines[..i], [lines[i]]);
    assert lines[..i] + [lines[i]] == lines[..i + 1];
    OneLine(lines[i]);
  }

  lemma SizeSoFar(lines: seq<Line>, i: nat)
    requires i <= |lines|
    ensures Size(ItemsOf(lines[..i])) <= Size(ItemsOf(lines))
  {
    LinesJoined(lines[..i], lines[i..]);
    assert lines[..i] + lines[i..] == lines;
    SizeJoined(ItemsOf(lines[..i]), ItemsOf(lines[i..]));
  }

  lemma {:induction false} InConcat(ss: seq<seq<Item>>, i: nat, item: Item)
    requires i < |ss| && item in ss[i]
    ensures item in Concat(ss)
    decreases |ss|
  {
    if i > 0 { InConcat(ss[1..], i - 1, item); }
  }

  lemma HereDefines(lines: seq<Line>, l: string)
    requires Here(l) in lines
    ensures Define(l) in ItemsOf(lines)
  {
    var i :| 0 <= i < |lines| && lines[i] == Here(l);
    assert Texts(lines)[i] == [Define(l)];
    InConcat(Texts(lines), i, Define(l));
  }

  /** The label has been met. */
  ghost predicate SlotsMet(m: map<string, nat>, slots: seq<Slot>) {
    forall s {:trigger s.name} :: s in slots ==> s.name in m
  }

  lemma TableMet(before: seq<Line>, line: Line)
    requires TableReady(before, line) && line.Table?
    ensures line.other in Locations(ItemsOf(before), HEADER) && SlotsMet(Locations(ItemsOf(before), HEADER), line.slots)
  {
    HereDefines(before, line.other);
    LocationsDefined(ItemsOf(before), HEADER, line.other);
    forall s {:trigger s.name} | s in line.slots ensures s.name in Locations(ItemsOf(before), HEADER) {
      HereDefines(before, s.name);
      LocationsDefined(ItemsOf(before), HEADER, s.name);
    }
  }

  /** The header of a procedure: if it is the imago's, its place is filled into the imago instruction. */
  predicate IsEntry(types: seq<InstType>, imago: int, line: Line) {
    line.Instruction? && line.op < |types| && types[line.op].I_P? && line.ops == [Number(imago)]
  }

  /** The entry after a line. */
  function EntryWith(types: seq<InstType>, imago: int, line: Line, items: seq<Item>, entry: int): int {
    if IsEntry(types, imago, line) then HEADER + Size(items) else entry
  }

  /** The place behind the last header of the imago's procedure. */
  function Entry(types: seq<InstType>, imago: int, lines: seq<Line>): nat {
    if lines == [] then 0 else
    var n := |lines| - 1;
    if IsEntry(types, imago, lines[n]) then HEADER + Size(ItemsOf(lines)) else Entry(types, imago, lines[..n])
  }

  lemma EntryMore(types: seq<InstType>, imago: int, lines: seq<Line>, i: nat)
    requires i < |lines|
    ensures Entry(types, imago, lines[..i + 1]) ==
      EntryWith(types, imago, lines[i], ItemsOf(lines[..i + 1]), Entry(types, imago, lines[..i]))
  {
    assert lines[..i + 1][..i] == lines[..i];
  }

  lemma {:induction false} EntryIs(types: seq<InstType>, imago: int, lines: seq<Line>)
    ensures Entry(types, imago, lines) == 0 <==> forall k :: 0 <= k < |lines| ==> !IsEntry(types, imago, lines[k])
    decreases |lines|
  {
    if lines != [] { EntryIs(types, imago, lines[..|lines| - 1]); }
  }

  lemma {:induction false} EntryAt(types: seq<InstType>, imago: int, lines: seq<Line>, k: nat)
    requires k < |lines| && IsEntry(types, imago, lines[k])
    requires forall j :: k < j < |lines| ==> !IsEntry(types, imago, lines[j])
    ensures Entry(types, imago, lines) == HEADER + Size(ItemsOf(lines[..k + 1]))
    decreases |lines|
  {
    var n := |lines| - 1;
    if k < n {
      EntryAt(types, imago, lines[..n], k);
      assert lines[..n][..k + 1] == lines[..k + 1];
    } else {
      assert lines[..k + 1] == lines;
    }
  }

  lemma {:induction false} LegalAt(types: seq<InstType>, lines: seq<Line>, i: nat)
    requires AllLegal(types, lines) && i < |lines|
    ensures Legal(types, lines[i])
    decreases |lines|
  {
    if i > 0 { LegalAt(types, lines[1..], i - 1); }
  }

  lemma TwiceBefore(lines: seq<Line>, i: nat)
    requires i <= |lines| && !Unique(ItemsOf(lines[..i]))
    ensures !Unique(ItemsOf(lines))
  {
    var a, b := ItemsOf(lines[..i]), ItemsOf(lines[i..]);
    LinesJoined(lines[..i], lines[i..]);
    assert lines[..i] + lines[i..] == lines && (a + b)[..|a|] == a;
    StillTwice(a + b, |a|);
  }

  /** The block b that begins at base has the word of the i-th item in its place: an operand that is a label is the
      address of the label. */
  ghost predicate LoadedAt(b: seq<int>, base: int, items: seq<Item>, i: nat)
    requires i < |items|
  {
    var p := HEADER + Size(items[..i]);
    match items[i]
    case Word(w) => p < |b| && b[p] == w
    case Use(l) => p < |b| && forall j {:trigger items[j]} :: 0 <= j < |items| && items[j] == Define(l) ==>
      b[p] == base + HEADER + Size(items[..j])
    case Define(_) => true
  }

  ghost predicate AllLoaded(b: seq<int>, base: int, items: seq<Item>) {
    forall i {:trigger LoadedAt(b, base, items, i)} :: 0 <= i < |items| ==> LoadedAt(b, base, items, i)
  }

  /** Assembled code that is moved to base: there is no other word that moving changes. */
  lemma {:induction false} AssembledMoved(types: seq<InstType>, lines: seq<Line>, c: seq<int>, base: int)
    requires AllLegal(types, lines) && |c| == HEADER + Size(ItemsOf(lines)) && AllAt(c, ItemsOf(lines))
    requires 0 <= c[0] < |types| && IsImago(types[c[0]])
    ensures Fits(Kinds(types), c, 0) && Known(Kinds(types), c, 0)
    ensures var b := Moved((Kinds(types), c), base);
      AllLoaded(b, base, ItemsOf(lines)) && b[0] == c[0] && b[1] == base + c[1]
  {
    AssembledLabels(types, lines, c);
    MovedItems(Kinds(types), ItemsOf(lines), c, base);
  }

  lemma {:induction false} MovedItems(tab: seq<Kind>, items: seq<Item>, c: seq<int>, base: int)
    requires Fits(tab, c, 0) && |c| == HEADER + Size(items) && AllAt(c, items)
    requires forall p: nat {:trigger LabelAt(tab, c, 0, p)} :: p < |c| ==>
      (LabelAt(tab, c, 0, p) <==> p == 1 || UseAt(items, p))
    ensures var b := Moved((tab, c), base); AllLoaded(b, base, items) && b[0] == c[0] && b[1] == base + c[1]
  {
    var b := Moved((tab, c), base);
    forall i | 0 <= i < |items| ensures LoadedAt(b, base, items, i) {
      if !items[i].Define? {
        var p := HEADER + Size(items[..i]);
        assert ItemAt(c, items, i);
        TemplateAt(items, i);
        LinkAt(items, p);
        assert b[p] == if LabelAt(tab, c, 0, p) then c[p] + base else c[p];
      }
    }
    assert !UseAt(items, 0);
    assert b[0] == MovedWord((tab, c), base, 0) && b[1] == MovedWord((tab, c), base, 1);
  }
}
