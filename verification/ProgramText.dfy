// A program in memory, line by line: where the words of each line are, and what labels have become.
module ProgramText {
  import opened Labels
  import opened Assembly

  function OperandSize(o: Operand): nat {
    if o.Real? then 2 else 1
  }

  /** The number of words before the i-th operand. */
  function OperandPlace(ops: seq<Operand>, i: nat): nat
    requires i <= |ops|
  {
    if i == 0 then 0 else OperandPlace(ops, i - 1) + OperandSize(ops[i - 1])
  }

  function LineLength(line: Line): nat {
    match line
    case Instruction(_, ops) => 1 + OperandPlace(ops, |ops|)
    case Table(_, _, slots) => 3 + 2 * |slots|
    case Here(_) => 0
  }

  /** Where the k-th line begins. */
  function Place(lines: seq<Line>, k: nat): (p: nat)
    requires k <= |lines|
    ensures p >= HEADER
  {
    if k == 0 then HEADER else Place(lines, k - 1) + LineLength(lines[k - 1])
  }

  /** The word w is the address of the label l in a block that begins at base. */
  ghost predicate AddressIs(w: int, base: int, lines: seq<Line>, l: string) {
    forall j {:trigger lines[j]} :: 0 <= j < |lines| && lines[j] == Here(l) ==> w == base + Place(lines, j)
  }

  /** The i-th operand of an instruction at p is in the block. */
  ghost predicate OperandAt(b: seq<int>, base: int, lines: seq<Line>, p: nat, ops: seq<Operand>, i: nat)
    requires i < |ops|
  {
    var q := p + 1 + OperandPlace(ops, i);
    match ops[i]
    case Number(w) => q < |b| && b[q] == w
    case Real(lo, hi) => q + 1 < |b| && b[q] == lo && b[q + 1] == hi
    case Label(l) => q < |b| && AddressIs(b[q], base, lines, l)
  }

  /** The i-th slot of a hash table at p is in the block. */
  ghost predicate SlotAt(b: seq<int>, base: int, lines: seq<Line>, p: nat, slots: seq<Slot>, i: nat)
    requires i < |slots|
  {
    var q := p + 3 + 2 * i;
    q + 1 < |b| && b[q] == slots[i].key && AddressIs(b[q + 1], base, lines, slots[i].name)
  }

  /** The k-th line is in the block b that begins at base. */
  ghost predicate LineAt(b: seq<int>, base: int, lines: seq<Line>, k: nat)
    requires k < |lines|
  {
    var p := Place(lines, k);
    match lines[k]
    case Instruction(op, ops) =>
      p < |b| && b[p] == op && forall i {:trigger OperandAt(b, base, lines, p, ops, i)} :: 0 <= i < |ops| ==>
        OperandAt(b, base, lines, p, ops, i)
    case Table(op, other, slots) =>
      && p + 2 < |b| && b[p] == op && b[p + 1] == |slots| && AddressIs(b[p + 2], base, lines, other)
      && forall i {:trigger SlotAt(b, base, lines, p, slots, i)} :: 0 <= i < |slots| ==>
          SlotAt(b, base, lines, p, slots, i)
    case Here(_) => true
  }

  ghost predicate AllLines(b: seq<int>, base: int, lines: seq<Line>) {
    forall k {:trigger LineAt(b, base, lines, k)} :: 0 <= k < |lines| ==> LineAt(b, base, lines, k)
  }

  /** The words of one operand. */
  function SpotsOf(o: Operand): (r: seq<Spot>)
    ensures |r| == OperandSize(o)
  {
    match o
    case Number(w) => [Fixed(w)]
    case Real(lo, hi) => [Fixed(lo), Fixed(hi)]
    case Label(l) => [Link(l)]
  }

  function OperandSpots(ops: seq<Operand>): seq<Spot> {
    if ops == [] then [] else OperandSpots(ops[..|ops| - 1]) + SpotsOf(ops[|ops| - 1])
  }

  /** The words of one line. */
  function LineSpots(line: Line): seq<Spot> {
    match line
    case Instruction(op, ops) => [Fixed(op)] + OperandSpots(ops)
    case Table(op, other, slots) => [Fixed(op), Fixed(|slots|), Link(other)] + Template(SlotItems(slots))
    case Here(_) => []
  }

  lemma {:induction false} OperandsJoined(a: seq<Operand>, b: seq<Operand>)
    ensures Operands(a + b) == Operands(a) + Operands(b)
    decreases |a|
  {
    if a == [] {
      assert a + b == b;
    } else {
      OperandsJoined(a[1..], b);
      assert (a + b)[1..] == a[1..] + b;
      var x, y := OperandItems(a[0]), Operands(a[1..]);
      assert x + y + Operands(b) == x + (y + Operands(b));
    }
  }

  lemma OneOperand(o: Operand)
    ensures Template(Operands([o])) == SpotsOf(o)
  {
    assert [o][1..] == [];
    var a := OperandItems(o);
    assert a + [] == a;
    if o.Real? { Two(a[0], a[1]); } else { One(a[0]); }
  }

  lemma {:induction false} OperandsTemplate(ops: seq<Operand>)
    ensures Template(Operands(ops)) == OperandSpots(ops)
    decreases |ops|
  {
    if ops != [] {
      var n := |ops| - 1;
      OperandsTemplate(ops[..n]);
      assert ops == ops[..n] + [ops[n]];
      OperandsJoined(ops[..n], [ops[n]]);
      OneOperand(ops[n]);
      Joined(Operands(ops[..n]), Operands([ops[n]]));
    }
  }

  /** The j-th word of the i-th operand, among those of all. */
  lemma {:induction false} OperandSpotsAt(ops: seq<Operand>, i: nat, j: nat)
    requires i < |ops| && j < |SpotsOf(ops[i])|
    ensures OperandPlace(ops, i) + j < OperandPlace(ops, |ops|) == |OperandSpots(ops)|
    ensures OperandSpots(ops)[OperandPlace(ops, i) + j] == SpotsOf(ops[i])[j]
    decreases |ops|
  {
    var n := |ops| - 1;
    OperandsLength(ops[..n]);
    OperandsLength(ops);
    SamePlace(ops[..n], ops, n);
    if i < n {
      OperandSpotsAt(ops[..n], i, j);
      SamePlace(ops[..n], ops, i);
    }
  }

  lemma {:induction false} OperandsLength(ops: seq<Operand>)
    ensures |OperandSpots(ops)| == OperandPlace(ops, |ops|)
    decreases |ops|
  {
    if ops != [] {
      var n := |ops| - 1;
      OperandsLength(ops[..n]);
      SamePlace(ops[..n], ops, n);
    }
  }

  lemma {:induction false} SamePlace(ops: seq<Operand>, more: seq<Operand>, i: nat)
    requires i <= |ops| && ops <= more
    ensures OperandPlace(ops, i) == OperandPlace(more, i)
    decreases i
  {
    if i > 0 { SamePlace(ops, more, i - 1); }
  }

  lemma LineTemplate(line: Line)
    ensures Template(LineItems(line)) == LineSpots(line) && |LineSpots(line)| == LineLength(line)
  {
    match line
    case Instruction(op, ops) =>
      Joined([Word(op)], Operands(ops));
      One(Word(op));
      OperandsTemplate(ops);
      OperandsLength(ops);
    case Table(op, other, slots) =>
      SlotShape(slots);
      TableHead(Word(op), Word(|slots|), Use(other), SlotItems(slots));
    case Here(l) => One(Define(l));
  }

  /** The words of the program. */
  ghost function Spots(lines: seq<Line>): seq<Spot> {
    Template(ItemsOf(lines))
  }

  lemma SpotsJoined(a: seq<Line>, b: seq<Line>)
    ensures Spots(a + b) == Spots(a) + Spots(b)
  {
    LinesJoined(a, b);
    Joined(ItemsOf(a), ItemsOf(b));
  }

  lemma OneLineSpots(line: Line)
    ensures Spots([line]) == LineSpots(line) && |LineSpots(line)| == LineLength(line)
  {
    OneLine(line);
    LineTemplate(line);
  }

  lemma {:induction false} PlaceIs(lines: seq<Line>, k: nat)
    requires k <= |lines|
    ensures Place(lines, k) == HEADER + |Spots(lines[..k])|
    decreases k
  {
    if k > 0 {
      PlaceIs(lines, k - 1);
      assert lines[..k] == lines[..k - 1] + [lines[k - 1]];
      SpotsJoined(lines[..k - 1], [lines[k - 1]]);
      OneLineSpots(lines[k - 1]);
    }
  }

  /** The words of the k-th line, among all. */
  lemma SpotsInLine(lines: seq<Line>, k: nat)
    requires k < |lines|
    ensures var s, p := Spots(lines), Place(lines, k) - HEADER;
      0 <= p <= p + LineLength(lines[k]) <= |s| && s[p..p + LineLength(lines[k])] == LineSpots(lines[k])
  {
    var a, b, c := lines[..k], [lines[k]], lines[k + 1..];
    assert lines == a + b + c;
    SpotsJoined(a + b, c);
    SpotsJoined(a, b);
    OneLineSpots(lines[k]);
    PlaceIs(lines, k);
  }

  /** A label is defined where its line begins. */
  lemma LabelPlace(lines: seq<Line>, j: nat)
    requires j < |lines| && lines[j].Here?
    ensures var n, items := |ItemsOf(lines[..j])|, ItemsOf(lines);
      n < |items| && items[n] == Define(lines[j].name) && HEADER + Size(items[..n]) == Place(lines, j)
  {
    var a, b, c := ItemsOf(lines[..j]), LineItems(lines[j]), ItemsOf(lines[j + 1..]);
    OneMore(lines, j);
    LinesJoined(lines[..j + 1], lines[j + 1..]);
    assert lines[..j + 1] + lines[j + 1..] == lines;
    assert (a + b + c)[|a|] == b[0] && (a + b + c)[..|a|] == a;
    PlaceIs(lines, j);
    TemplateSize(a);
  }

  /** What has become of a word of the program. */
  ghost predicate SpotAt(b: seq<int>, base: int, lines: seq<Line>, q: nat, x: Spot) {
    q < |b| && match x
               case Fixed(w) => b[q] == w
               case Link(l) => AddressIs(b[q], base, lines, l)
  }

  ghost predicate AllSpots(b: seq<int>, base: int, lines: seq<Line>) {
    forall q {:trigger Spots(lines)[q]} :: 0 <= q < |Spots(lines)| ==>
      SpotAt(b, base, lines, HEADER + q, Spots(lines)[q])
  }

  lemma {:induction false} SpotsLoaded(b: seq<int>, base: int, lines: seq<Line>)
    requires AllLoaded(b, base, ItemsOf(lines))
    ensures AllSpots(b, base, lines)
  {
    forall q: nat {:trigger Spots(lines)[q]} | q < |Spots(lines)|
      ensures SpotAt(b, base, lines, HEADER + q, Spots(lines)[q])
    {
      SpotLoaded(b, base, lines, q);
    }
  }

  lemma {:induction false} SpotLoaded(b: seq<int>, base: int, lines: seq<Line>, q: nat)
    requires AllLoaded(b, base, ItemsOf(lines)) && q < |Spots(lines)|
    ensures SpotAt(b, base, lines, HEADER + q, Spots(lines)[q])
  {
    var items := ItemsOf(lines);
    TemplateSize(items);
    var i := WordOf(items, q);
    TemplateAt(items, i);
    assert LoadedAt(b, base, items, i);
    if items[i].Use? { LabelLoaded(b, base, lines, i); }
  }

  lemma {:induction false} LabelLoaded(b: seq<int>, base: int, lines: seq<Line>, i: nat)
    requires i < |ItemsOf(lines)| && ItemsOf(lines)[i].Use? && LoadedAt(b, base, ItemsOf(lines), i)
    ensures var q := HEADER + Size(ItemsOf(lines)[..i]);
      q < |b| && AddressIs(b[q], base, lines, ItemsOf(lines)[i].name)
  {
    var q, l := HEADER + Size(ItemsOf(lines)[..i]), ItemsOf(lines)[i].name;
    forall j | 0 <= j < |lines| && lines[j] == Here(l) ensures b[q] == base + Place(lines, j) { LabelPlace(lines, j); }
  }

  lemma LineSpotAt(b: seq<int>, base: int, lines: seq<Line>, k: nat, t: nat)
    requires AllSpots(b, base, lines) && k < |lines| && t < LineLength(lines[k])
    ensures |LineSpots(lines[k])| == LineLength(lines[k])
    ensures SpotAt(b, base, lines, Place(lines, k) + t, LineSpots(lines[k])[t])
  {
    SpotsInLine(lines, k);
    var s, p := Spots(lines), Place(lines, k) - HEADER;
    assert s[p..p + LineLength(lines[k])][t] == s[p + t];
  }

  lemma {:induction false} OperandSpotAt(b: seq<int>, base: int, lines: seq<Line>, k: nat, i: nat, j: nat)
    requires AllSpots(b, base, lines) && k < |lines| && lines[k].Instruction? && i < |lines[k].ops|
    requires j < |SpotsOf(lines[k].ops[i])|
    ensures SpotAt(b, base, lines, Place(lines, k) + 1 + OperandPlace(lines[k].ops, i) + j, SpotsOf(lines[k].ops[i])[j])
  {
    OperandInLine(lines[k], i, j);
    LineSpotAt(b, base, lines, k, 1 + OperandPlace(lines[k].ops, i) + j);
  }

  lemma OperandInLine(line: Line, i: nat, j: nat)
    requires line.Instruction? && i < |line.ops| && j < |SpotsOf(line.ops[i])|
    ensures var t := 1 + OperandPlace(line.ops, i) + j;
      t < LineLength(line) == |LineSpots(line)| && LineSpots(line)[t] == SpotsOf(line.ops[i])[j]
  {
    OperandSpotsAt(line.ops, i, j);
    OperandsLength(line.ops);
  }

  lemma {:induction false} OperandLoaded(b: seq<int>, base: int, lines: seq<Line>, k: nat, i: nat)
    requires AllSpots(b, base, lines) && k < |lines| && lines[k].Instruction? && i < |lines[k].ops|
    ensures OperandAt(b, base, lines, Place(lines, k), lines[k].ops, i)
  {
    OperandSpotAt(b, base, lines, k, i, 0);
    if lines[k].ops[i].Real? { OperandSpotAt(b, base, lines, k, i, 1); }
  }

  lemma {:induction false} InstructionLoaded(b: seq<int>, base: int, lines: seq<Line>, k: nat)
    requires AllSpots(b, base, lines) && k < |lines| && lines[k].Instruction?
    ensures LineAt(b, base, lines, k)
  {
    var ops, p := lines[k].ops, Place(lines, k);
    LineSpotAt(b, base, lines, k, 0);
    forall i | 0 <= i < |ops| ensures OperandAt(b, base, lines, p, ops, i) { OperandLoaded(b, base, lines, k, i); }
  }

  lemma {:induction false} SlotLoaded(b: seq<int>, base: int, lines: seq<Line>, k: nat, i: nat)
    requires AllSpots(b, base, lines) && k < |lines| && lines[k].Table? && i < |lines[k].slots|
    ensures SlotAt(b, base, lines, Place(lines, k), lines[k].slots, i)
  {
    SlotInLine(lines[k], i);
    LineSpotAt(b, base, lines, k, 3 + 2 * i);
    LineSpotAt(b, base, lines, k, 4 + 2 * i);
  }

  lemma SlotInLine(line: Line, i: nat)
    requires line.Table? && i < |line.slots|
    ensures |LineSpots(line)| == LineLength(line)
    ensures LineSpots(line)[3 + 2 * i] == Fixed(line.slots[i].key)
    ensures LineSpots(line)[4 + 2 * i] == Link(line.slots[i].name)
  {
    SlotShape(line.slots);
    assert SlotSpots(Template(SlotItems(line.slots)), line.slots, i);
  }

  lemma {:induction false} TableLoaded(b: seq<int>, base: int, lines: seq<Line>, k: nat)
    requires AllSpots(b, base, lines) && k < |lines| && lines[k].Table?
    ensures LineAt(b, base, lines, k)
  {
    var slots, p := lines[k].slots, Place(lines, k);
    LineSpotAt(b, base, lines, k, 0);
    LineSpotAt(b, base, lines, k, 1);
    LineSpotAt(b, base, lines, k, 2);
    forall i | 0 <= i < |slots| ensures SlotAt(b, base, lines, p, slots, i) { SlotLoaded(b, base, lines, k, i); }
  }

  /** Every line of a program is where it should be, and each of its labels is the address of the label's line. */
  lemma {:induction false} LinesLoaded(b: seq<int>, base: int, lines: seq<Line>)
    requires AllLoaded(b, base, ItemsOf(lines))
    ensures AllLines(b, base, lines)
  {
    SpotsLoaded(b, base, lines);
    forall k | 0 <= k < |lines| ensures LineAt(b, base, lines, k) {
      match lines[k]
      case Instruction(_, _) => InstructionLoaded(b, base, lines, k);
      case Table(_, _, _) => TableLoaded(b, base, lines, k);
      case Here(_) =>
    }
  }

  /** No label is defined in two lines. */
  predicate LabelsUnique(lines: seq<Line>) {
    forall i, j :: 0 <= i < j < |lines| && lines[i].Here? && lines[j].Here? ==> lines[i].name != lines[j].name
  }

  /** The labels of the line are defined in the program. */
  predicate LabelsDefined(lines: seq<Line>, line: Line) {
    match line
    case Instruction(_, ops) => forall o :: o in ops && o.Label? ==> Here(o.name) in lines
    case Table(_, other, slots) => Here(other) in lines && forall s :: s in slots ==> Here(s.name) in lines
    case Here(_) => true
  }

  /** Every label is defined in one line, and every label that a line has is. */
  predicate Complete(lines: seq<Line>) {
    LabelsUnique(lines) && forall k {:trigger LabelsDefined(lines, lines[k])} :: 0 <= k < |lines| ==>
      LabelsDefined(lines, lines[k])
  }

  lemma {:induction false} FromConcat(ss: seq<seq<Item>>, item: Item) returns (i: nat)
    requires item in Concat(ss)
    ensures i < |ss| && item in ss[i]
    decreases |ss|
  {
    if item in ss[0] {
      i := 0;
    } else {
      i := FromConcat(ss[1..], item);
      i := i + 1;
    }
  }

  lemma {:induction false} OperandItem(ops: seq<Operand>, l: string)
    ensures Define(l) !in Operands(ops) && (Use(l) in Operands(ops) <==> Label(l) in ops)
    decreases |ops|
  {
    if ops != [] {
      OperandItem(ops[1..], l);
      assert ops == [ops[0]] + ops[1..];
    }
  }

  lemma {:induction false} SlotItem(slots: seq<Slot>, l: string)
    ensures Define(l) !in SlotItems(slots)
    ensures Use(l) in SlotItems(slots) <==> exists s {:trigger s.name} :: s in slots && s.name == l
    decreases |slots|
  {
    if slots != [] {
      SlotItem(slots[1..], l);
      assert slots == [slots[0]] + slots[1..];
    }
  }

  /** Which labels a line defines and uses. */
  lemma LineLabels(lines: seq<Line>, line: Line, l: string)
    ensures Define(l) in LineItems(line) <==> line == Here(l)
    ensures Use(l) in LineItems(line) && LabelsDefined(lines, line) ==> Here(l) in lines
  {
    match line
    case Instruction(_, ops) => OperandItem(ops, l);
    case Table(_, _, slots) => SlotItem(slots, l);
    case Here(_) =>
  }

  lemma DefinesAre(lines: seq<Line>, l: string)
    ensures Define(l) in ItemsOf(lines) <==> Here(l) in lines
  {
    if Here(l) in lines { HereDefines(lines, l); }
    if Define(l) in ItemsOf(lines) {
      var i := FromConcat(Texts(lines), Define(l));
      LineLabels(lines, lines[i], l);
    }
  }

  lemma UniqueMore(items: seq<Item>, more: seq<Item>)
    requires forall x :: x in more ==> !x.Define?
    ensures Unique(items + more) <==> Unique(items)
  {
    var all := items + more;
    if Unique(all) {
      forall i, j | 0 <= i < j < |items| && items[i].Define? && items[j].Define?
        ensures items[i].name != items[j].name
      {
        assert all[i].name != all[j].name;
      }
    }
    if Unique(items) {
      assert forall j :: |items| <= j < |all| ==> all[j] in more;
    }
  }

  lemma UniqueDefine(items: seq<Item>, l: string)
    ensures Unique(items + [Define(l)]) <==> Unique(items) && Define(l) !in items
  {
    var all, n := items + [Define(l)], |items|;
    if Unique(all) {
      forall i, j | 0 <= i < j < n && items[i].Define? && items[j].Define? ensures items[i].name != items[j].name {
        assert all[i].name != all[j].name;
      }
      forall i | 0 <= i < n ensures items[i] != Define(l) { if items[i].Define? { assert all[i].name != all[n].name; } }
    }
  }

  lemma LabelsUniqueMore(lines: seq<Line>, line: Line)
    ensures LabelsUnique(lines + [line]) <==> LabelsUnique(lines) && (line.Here? ==> line !in lines)
  {
    var all, n := lines + [line], |lines|;
    if LabelsUnique(all) {
      forall i, j | 0 <= i < j < n && lines[i].Here? && lines[j].Here? ensures lines[i].name != lines[j].name {
        assert all[i].name != all[j].name;
      }
      if line.Here? {
        forall i | 0 <= i < n ensures lines[i] != line { if lines[i].Here? { assert all[i].name != all[n].name; } }
      }
    }
  }

  lemma {:induction false} UniqueIs(lines: seq<Line>)
    ensures Unique(ItemsOf(lines)) <==> LabelsUnique(lines)
    decreases |lines|
  {
    if lines != [] {
      var n := |lines| - 1;
      var fs, line := lines[..n], lines[n];
      UniqueIs(fs);
      OneMore(lines, n);
      assert lines[..n + 1] == lines == fs + [line];
      LabelsUniqueMore(fs, line);
      if line.Here? {
        UniqueDefine(ItemsOf(fs), line.name);
        DefinesAre(fs, line.name);
      } else {
        forall x | x in LineItems(line) ensures !x.Define? { if x.Define? { LineLabels(fs, line, x.name); } }
        UniqueMore(ItemsOf(fs), LineItems(line));
      }
    }
  }

  ghost predicate AllDefined(items: seq<Item>) {
    forall i {:trigger DefinedAt(items, i)} :: 0 <= i < |items| ==> DefinedAt(items, i)
  }

  lemma LineUses(lines: seq<Line>, k: nat)
    requires k < |lines| && AllDefined(ItemsOf(lines))
    ensures LabelsDefined(lines, lines[k])
  {
    match lines[k]
    case Instruction(_, ops) =>
      forall o | o in ops && o.Label? ensures Here(o.name) in lines {
        OperandItem(ops, o.name);
        UsedInLine(lines, k, o.name);
      }
    case Table(_, other, slots) =>
      UsedInLine(lines, k, other);
      forall s | s in slots ensures Here(s.name) in lines {
        SlotItem(slots, s.name);
        UsedInLine(lines, k, s.name);
      }
    case Here(_) =>
  }

  lemma UsedInLine(lines: seq<Line>, k: nat, l: string)
    requires k < |lines| && Use(l) in LineItems(lines[k])
    requires AllDefined(ItemsOf(lines))
    ensures Here(l) in lines
  {
    assert Texts(lines)[k] == LineItems(lines[k]);
    InConcat(Texts(lines), k, Use(l));
    var i :| 0 <= i < |ItemsOf(lines)| && ItemsOf(lines)[i] == Use(l);
    assert DefinedAt(ItemsOf(lines), i);
    DefinesAre(lines, l);
  }

  /** The items are well-formed if and only if the lines are complete. */
  lemma CompleteIs(lines: seq<Line>)
    ensures WellFormed(ItemsOf(lines)) <==> Complete(lines)
  {
    var items := ItemsOf(lines);
    UniqueIs(lines);
    if WellFormed(items) {
      forall k | 0 <= k < |lines| ensures LabelsDefined(lines, lines[k]) { LineUses(lines, k); }
    }
    if Complete(lines) {
      forall i | 0 <= i < |items| ensures DefinedAt(items, i) {
        if items[i].Use? {
          var k := FromConcat(Texts(lines), items[i]);
          assert LabelsDefined(lines, lines[k]);
          LineLabels(lines, lines[k], items[i].name);
          DefinesAre(lines, items[i].name);
        }
      }
    }
  }
}
