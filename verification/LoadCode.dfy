// Loading an imago's byte code: the words of the file are read instruction by instruction, and the offsets of
// labels become addresses.
module LoadCode {
  import opened Code

  class Loader {
    const types: seq<InstType> // opcode_tab: the types of the operation codes
    const file: seq<int>       // the words of the code in the file
    const code: array<int>     // the block's code
    const base: int            // the address of its first word
    var tp: nat                // the word to be read next
    ghost const marks: seq<bool> // the words that are labels

    constructor (types: seq<InstType>, file: seq<int>, code: array<int>, base: int)
      requires Fits(Kinds(types), file, 0) && code.Length == |file|
      ensures this.types == types && this.file == file && this.code == code && this.base == base && tp == 0
      ensures Sized() && Marks((Kinds(types), file), marks)
    {
      this.types, this.file, this.code, this.base, tp := types, file, code, base, 0;
      marks := seq(|file|, i requires 0 <= i < |file| => LabelAt(Kinds(types), file, 0, i));
    }

    ghost predicate Sized()
      reads this
    {
      tp <= code.Length == |file| == |marks|
    }

    /** All words before tp are in the block as they should be. */
    ghost predicate Good()
      reads this, code
    {
      Sized() && Written(code, file, marks, base, tp)
    }

    /** Read k words to tp, without moving tp. */
    method Scan(k: nat)
      requires Sized() && tp + k <= code.Length
      modifies code
      ensures forall i :: tp <= i < tp + k ==> code[i] == file[i]
      ensures forall i :: 0 <= i < tp ==> code[i] == old(code[i])
    {
      for j := 0 to k
        invariant forall i :: tp <= i < tp + j ==> code[i] == file[i]
        invariant forall i :: 0 <= i < tp ==> code[i] == old(code[i])
      {
        code[tp + j] := file[tp + j];
      }
    }

    /** Turn the offset at tp + j into an address. */
    method Relocate(j: nat)
      requires tp + j < code.Length
      modifies code
      ensures code[tp + j] == base + old(code[tp + j])
      ensures forall i :: 0 <= i < code.Length && i != tp + j ==> code[i] == old(code[i])
    {
      code[tp + j] := base + code[tp + j];
    }

    method ReadPlain(d: nat)
      requires Good() && Ahead(marks, tp, d, 0)
      modifies code, this`tp
      ensures tp == old(tp) + d && Good()
    {
      Scan(d);
      tp := tp + d;
    }

    method ReadWithLabel(d: nat)
      requires Good() && Ahead(marks, tp, d, 1)
      modifies code, this`tp
      ensures tp == old(tp) + d + 1 && Good()
    {
      Scan(d + 1);
      Relocate(d);
      tp := tp + d + 1;
    }

    method ReadWithFour(d: nat)
      requires Good() && Ahead(marks, tp, d, 4)
      modifies code, this`tp
      ensures tp == old(tp) + d + 4 && Good()
    {
      Scan(d + 4);
      Relocate(d);
      Relocate(d + 1);
      Relocate(d + 2);
      Relocate(d + 3);
      tp := tp + d + 4;
    }

    /** The operands of an instruction that has no labels. */
    method ReadNumbers(t: InstType, ghost d: nat)
      requires Good() && KindOf(t) == Plain(d, 0) && Ahead(marks, tp, d, 0)
      modifies code, this`tp
      ensures tp == old(tp) + d && Good()
    {
      match t
      case I_O =>
      case I_N | I_C | I_F | I_B | I_I | I_P => ReadPlain(1);
      case I_R | I_2N | I_NC | I_NF | I_NI => ReadPlain(2);
      case I_3N | I_NR | I_2NF => ReadPlain(3);
      case I_4N => ReadPlain(4);
      case I_5N => ReadPlain(5);
      case I_6N => ReadPlain(6);
      case I_7N => ReadPlain(7);
      case I_8N => ReadPlain(8);
    }

    /** The operands of an instruction that has labels. */
    method ReadLabelled(t: InstType, ghost d: nat, ghost e: nat)
      requires Good() && e > 0 && KindOf(t) == Plain(d, e) && Ahead(marks, tp, d, e)
      modifies code, this`tp
      ensures tp == old(tp) + d + e && Good()
    {
      match t
      case I_STATIONARY | I_WORKER | I_MESSENGER | I_E => ReadWithLabel(0);
      case I_NE => ReadWithLabel(1);
      case I_2NE | I_NFE => ReadWithLabel(2);
      case I_2NFE | I_3NE => ReadWithLabel(3);
      case I_3NFE => ReadWithLabel(4);
      case I_4E => ReadWithFour(0);
      case I_N4E => ReadWithFour(1);
    }

    /** The operands of the instruction whose code has just been read; false for an unknown type. */
    method ReadOperands(t: InstType, ghost p: nat, ghost n: nat) returns (ok: bool)
      requires Good() && tp == p + 1 && OperandsAhead(marks, file, KindOf(t), p, n)
      modifies code, this`tp
      ensures ok <==> KindOf(t) != Unknown
      ensures ok ==> tp == p + n && Good()
    {
      ok := true;
      match KindOf(t)
      case Plain(d, e) => if e > 0 { ReadLabelled(t, d, e); } else { ReadNumbers(t, d); }
      case HashTable => ReadTable(p, n);
      case Unknown => ok := false;
    }

    /** The number of pairs, the label of the variable branch, and the pairs. */
    method ReadTable(ghost p: nat, ghost n: nat)
      requires Good() && tp == p + 1 && TableAhead(marks, file, p, n)
      modifies code, this`tp
      ensures tp == p + n && Good()
    {
      ReadWithLabel(1);
      var i := code[tp - 2];
      while i > 0
        invariant 0 <= i <= file[p + 1] && tp == p + n - 2 * i && Good()
      {
        ReadWithLabel(1);
        i := i - 1;
      }
    }

    ghost predicate AtInstruction(tab: seq<Kind>)
      reads this, code
    {
      && Good() && Fits(tab, file, 0) && Marks((tab, file), marks) && Begins(tab, file, 0, tp) && tab == Kinds(types)
      && Fits(tab, file, tp) && (Known(tab, file, 0) <==> Known(tab, file, tp))
    }

    method ReadInstruction(ghost tab: seq<Kind>) returns (ok: bool)
      requires AtInstruction(tab) && tp < code.Length
      modifies code, this`tp
      ensures Fits(tab, file, 0) && (!ok ==> !Known(tab, file, 0))
      ensures ok ==> AtInstruction(tab) && tp > old(tp)
    {
      var p := tp;
      InstructionLaid((tab, file), marks, p);
      Scan(1);
      tp := tp + 1;
      ok := ReadOperands(types[code[p]], p, Length(tab, file, p));
      if ok {
        Next(tab, file, 0, p);
        AtBoundary(tab, file, 0, tp);
      }
    }

    /** load_code: false for an unknown operation code. */
    method Load() returns (ok: bool)
      requires tp == 0 && Sized() && Fits(Kinds(types), file, 0) && Marks((Kinds(types), file), marks)
      modifies code, this`tp
      ensures ok <==> Known(Kinds(types), file, 0)
      ensures ok ==> code[..] == Moved((Kinds(types), file), base)
    {
      ghost var tab := Kinds(types);
      while tp < code.Length
        invariant AtInstruction(tab)
      {
        ok := ReadInstruction(tab);
        if !ok { return; }
      }
      ok := true;
      AllWritten((tab, file), code, marks, base);
    }
  }
}
