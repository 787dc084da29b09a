// Moving the code of a block to a block at another address, instruction by instruction.
module MoveCode {
  import opened Code

  class Walker {
    const types: seq<InstType> // opcode_tab: the types of the operation codes
    const from: seq<int>       // the code of the old block
    const code: array<int>     // the code of the new block
    const distance: int        // from the old block to the new one
    var tp1: nat               // the next word to be written
    var tp2: nat               // the next word to be read
    ghost const marks: seq<bool> // the words that are labels

    constructor (types: seq<InstType>, from: seq<int>, code: array<int>, distance: int)
      requires Fits(Kinds(types), from, 0) && code.Length == |from|
      ensures this.types == types && this.from == from && this.code == code && this.distance == distance
      ensures tp1 == tp2 == 0 && Sized() && Marks((Kinds(types), from), marks)
    {
      this.types, this.from, this.code, this.distance, tp1, tp2 := types, from, code, distance, 0, 0;
      marks := seq(|from|, i requires 0 <= i < |from| => LabelAt(Kinds(types), from, 0, i));
    }

    ghost predicate Sized()
      reads this
    {
      tp1 == tp2 <= code.Length == |from| == |marks|
    }

    /** All words before tp1 are in the block as they should be. */
    ghost predicate Good()
      reads this, code
    {
      Sized() && Written(code, from, marks, distance, tp1)
    }

    /** cdirect */
    method Direct()
      requires Good() && tp1 < code.Length && !marks[tp1]
      modifies code, this`tp1, this`tp2
      ensures tp1 == old(tp1) + 1 && Good()
    {
      code[tp1] := from[tp2];
      tp1, tp2 := tp1 + 1, tp2 + 1;
    }

    /** cadjust */
    method Adjust()
      requires Good() && tp1 < code.Length && marks[tp1]
      modifies code, this`tp1, this`tp2
      ensures tp1 == old(tp1) + 1 && Good()
    {
      code[tp1] := from[tp2] + distance;
      tp1, tp2 := tp1 + 1, tp2 + 1;
    }

    /** cdirect k times. */
    method Directs(k: nat)
      requires Good() && Ahead(marks, tp1, k, 0)
      modifies code, this`tp1, this`tp2
      ensures tp1 == old(tp1) + k && Good()
    {
      for j := 0 to k
        invariant Good() && tp1 == old(tp1) + j
      {
        Direct();
      }
    }

    /** cdirect k times, then cadjust. */
    method DirectsAdjust(k: nat)
      requires Good() && Ahead(marks, tp1, k, 1)
      modifies code, this`tp1, this`tp2
      ensures tp1 == old(tp1) + k + 1 && Good()
    {
      Directs(k);
      Adjust();
    }

    /** cdirect k times, then cadjust four times. */
    method DirectsFourAdjust(k: nat)
      requires Good() && Ahead(marks, tp1, k, 4)
      modifies code, this`tp1, this`tp2
      ensures tp1 == old(tp1) + k + 4 && Good()
    {
      Directs(k);
      Adjust();
      Adjust();
      Adjust();
      Adjust();
    }

    /** chash */
    method Hash(ghost p: nat, ghost n: nat)
      requires Good() && tp1 == p && TableAhead(marks, from, p, n)
      modifies code, this`tp1, this`tp2
      ensures tp1 == p + n && Good()
    {
      Direct();
      var v := from[tp2];
      Direct();
      Adjust();
      while v > 0
        invariant 0 <= v <= from[p + 1] && tp1 == p + n - 2 * v && Good()
      {
        Direct();
        Adjust();
        v := v - 1;
      }
    }

    /** adjust_code for an instruction that has no labels. */
    method CopyCode(t: InstType, ghost d: nat)
      requires Good() && KindOf(t) == Plain(d, 0) && Ahead(marks, tp1, d + 1, 0)
      modifies code, this`tp1, this`tp2
      ensures tp1 == old(tp1) + d + 1 && Good()
    {
      match t
      case I_O => Directs(1);
      case I_N | I_C | I_F | I_B | I_I | I_P => Directs(2);
      case I_R | I_2N | I_NC | I_NF | I_NI => Directs(3);
      case I_3N | I_NR | I_2NF => Directs(4);
      case I_4N => Directs(5);
      case I_5N => Directs(6);
      case I_6N => Directs(7);
      case I_7N => Directs(8);
      case I_8N => Directs(9);
    }

    /** adjust_code for an instruction that has labels. */
    method AdjustLabelled(t: InstType, ghost d: nat, ghost e: nat)
      requires Good() && e > 0 && KindOf(t) == Plain(d, e) && Ahead(marks, tp1, d + 1, e)
      modifies code, this`tp1, this`tp2
      ensures tp1 == old(tp1) + d + 1 + e && Good()
    {
      match t
      case I_STATIONARY | I_WORKER | I_MESSENGER | I_E => DirectsAdjust(1);
      case I_NE => DirectsAdjust(2);
      case I_2NE | I_NFE => DirectsAdjust(3);
      case I_2NFE | I_3NE => DirectsAdjust(4);
      case I_3NFE => DirectsAdjust(5);
      case I_4E => DirectsFourAdjust(1);
      case I_N4E => DirectsFourAdjust(2);
    }

    /** adjust_code */
    method AdjustCode(t: InstType, ghost p: nat, ghost n: nat)
      requires Good() && tp1 == p && p < code.Length && !marks[p] && OperandsAhead(marks, from, KindOf(t), p, n)
      requires KindOf(t) != Unknown
      modifies code, this`tp1, this`tp2
      ensures tp1 == p + n && Good()
    {
      match KindOf(t)
      case Plain(d, e) => if e > 0 { AdjustLabelled(t, d, e); } else { CopyCode(t, d); }
      case HashTable => Hash(p, n);
    }

    /** The second step of clone_block: the code of the new block. */
    method Move()
      requires tp1 == 0 && Sized() && Fits(Kinds(types), from, 0) && Marks((Kinds(types), from), marks)
      requires Known(Kinds(types), from, 0)
      modifies code, this`tp1, this`tp2
      ensures code[..] == Moved((Kinds(types), from), distance)
    {
      ghost var tab := Kinds(types);
      while tp1 < code.Length
        invariant Good() && Begins(tab, from, 0, tp1)
        invariant Fits(tab, from, tp1) && Known(tab, from, tp1)
        decreases code.Length - tp1
      {
        ghost var p := tp1;
        InstructionLaid((tab, from), marks, p);
        AdjustCode(types[from[tp2]], p, Length(tab, from, p));
        Next(tab, from, 0, p);
        AtBoundary(tab, from, 0, tp1);
      }
      AllWritten((tab, from), code, marks, distance);
    }
  }
}
