// The byte code of an imago: where its instructions begin, which of its words are labels, what it is to load
// it at an address and to move it to another one.
module Code {

  // What follows an operation code: words taken as they are and then labels, or a hash table (the number of pairs,
  // the label of the variable branch, pairs of key and label), or nothing that is known.
  datatype Kind = Plain(direct: nat, labels: nat) | HashTable | Unknown

  // The instruction types, named by their operands: N number, C constant, F functor, B builtin, I integer,
  // P procedure, R float (two words), E label, each as often as the digit before it says.
  datatype InstType =
    | I_STATIONARY | I_WORKER | I_MESSENGER | I_O | I_N | I_E | I_C | I_F | I_B | I_I | I_P | I_R
    | I_2N | I_3N | I_4N | I_5N | I_6N | I_7N | I_8N | I_NE | I_NC | I_NF | I_NI | I_NR | I_2NE | I_2NF
    | I_NFE | I_2NFE | I_3NE | I_3NFE | I_4E | I_N4E
    | I_HTAB
    | I_OTHER // any other number

  /** The words that the operands of a type take. */
  function KindOf(t: InstType): Kind {
    match t
    case I_O => Plain(0, 0)
    case I_N | I_C | I_F | I_B | I_I | I_P => Plain(1, 0)
    case I_R | I_2N | I_NC | I_NF | I_NI => Plain(2, 0)
    case I_3N | I_NR | I_2NF => Plain(3, 0)
    case I_4N => Plain(4, 0)
    case I_5N => Plain(5, 0)
    case I_6N => Plain(6, 0)
    case I_7N => Plain(7, 0)
    case I_8N => Plain(8, 0)
    case I_E | I_STATIONARY | I_WORKER | I_MESSENGER => Plain(0, 1)
    case I_NE => Plain(1, 1)
    case I_2NE | I_NFE => Plain(2, 1)
    case I_3NE | I_2NFE => Plain(3, 1)
    case I_3NFE => Plain(4, 1)
    case I_4E => Plain(0, 4)
    case I_N4E => Plain(1, 4)
    case I_HTAB => HashTable
    case I_OTHER => Unknown
  }

  /** The operands that the letters of the name spell. */
  function Letters(t: InstType): string {
    match t
    case I_O | I_HTAB | I_OTHER => ""
    case I_STATIONARY | I_WORKER | I_MESSENGER | I_E => "E"
    case I_N => "N"
    case I_C => "C"
    case I_F => "F"
    case I_B => "B"
    case I_I => "I"
    case I_P => "P"
    case I_R => "R"
    case I_2N => "NN"
    case I_3N => "NNN"
    case I_4N => "NNNN"
    case I_5N => "NNNNN"
    case I_6N => "NNNNNN"
    case I_7N => "NNNNNNN"
    case I_8N => "NNNNNNNN"
    case I_NE => "NE"
    case I_NC => "NC"
    case I_NF => "NF"
    case I_NI => "NI"
    case I_NR => "NR"
    case I_2NE => "NNE"
    case I_2NF => "NNF"
    case I_NFE => "NFE"
    case I_2NFE => "NNFE"
    case I_3NE => "NNNE"
    case I_3NFE => "NNNFE"
    case I_4E => "EEEE"
    case I_N4E => "NEEEE"
  }

  /** The kinds of the operation codes of a table. */
  ghost function Kinds(types: seq<InstType>): (r: seq<Kind>)
    ensures |r| == |types| && forall i :: 0 <= i < |r| ==> r[i] == KindOf(types[i])
  {
    seq(|types|, i requires 0 <= i < |types| => KindOf(types[i]))
  }

  /** The instruction at p lies inside the code. */
  ghost predicate InstFits(tab: seq<Kind>, w: seq<int>, p: nat)
    requires p < |w|
  {
    && 0 <= w[p] < |tab|
    && match tab[w[p]]
       case Plain(d, e) => p + 1 + d + e <= |w|
       case HashTable => p + 1 < |w| && w[p + 1] >= 0 && p + 3 + 2 * w[p + 1] <= |w|
       case Unknown => true
  }

  ghost function Length(tab: seq<Kind>, w: seq<int>, p: nat): (n: nat)
    requires p < |w| && InstFits(tab, w, p)
    ensures n > 0 && p + n <= |w|
  {
    match tab[w[p]]
    case Plain(d, e) => 1 + d + e
    case HashTable => 3 + 2 * w[p + 1]
    case Unknown => 1
  }

  /** The k-th word of an instruction is a label. */
  ghost predicate IsLabel(t: Kind, k: nat) {
    match t
    case Plain(d, e) => d < k <= d + e
    case HashTable => k > 0 && k % 2 == 0
    case Unknown => false
  }

  /** The instructions from p on fill the code exactly, or up to one of an unknown type. */
  ghost predicate Fits(tab: seq<Kind>, w: seq<int>, p: nat)
    requires p <= |w|
    decreases |w| - p
  {
    p == |w| || (InstFits(tab, w, p) && (tab[w[p]].Unknown? || Fits(tab, w, p + Length(tab, w, p))))
  }

  /** No instruction from p on has an unknown type. */
  ghost predicate Known(tab: seq<Kind>, w: seq<int>, p: nat)
    requires p <= |w| && Fits(tab, w, p)
    decreases |w| - p
  {
    p == |w| || (!tab[w[p]].Unknown? && Known(tab, w, p + Length(tab, w, p)))
  }

  /** An instruction begins at i, if one begins at p. */
  ghost predicate Begins(tab: seq<Kind>, w: seq<int>, p: nat, i: nat)
    requires p <= |w| && Fits(tab, w, p)
    decreases |w| - p
  {
    i == p || (p < |w| && !tab[w[p]].Unknown? && Begins(tab, w, p + Length(tab, w, p), i))
  }

  /** The word at i is a label, if an instruction begins at p. */
  ghost predicate LabelAt(tab: seq<Kind>, w: seq<int>, p: nat, i: nat)
    requires p <= |w| && Fits(tab, w, p)
    decreases |w| - p
  {
    p < |w| && p <= i && !tab[w[p]].Unknown?
    && var n := Length(tab, w, p);
    if i < p + n then IsLabel(tab[w[p]], i - p) else LabelAt(tab, w, p + n, i)
  }

  type Program = c: (seq<Kind>, seq<int>) | Fits(c.0, c.1, 0) ghost witness ([], [])

  /** The code with every label moved by d, and nothing else changed. */
  ghost function Moved(c: Program, d: int): (r: seq<int>)
    ensures |r| == |c.1|
  {
    seq(|c.1|, i requires 0 <= i < |c.1| => MovedWord(c, d, i))
  }

  ghost function MovedWord(c: Program, d: int, i: nat): int
    requires i < |c.1|
  {
    if LabelAt(c.0, c.1, 0, i) then c.1[i] + d else c.1[i]
  }

  /** v agrees with w in all words from p on that are no labels. */
  ghost predicate SameButLabels(tab: seq<Kind>, w: seq<int>, v: seq<int>, p: nat)
    requires p <= |w| == |v| && Fits(tab, w, p)
  {
    forall i {:trigger LabelAt(tab, w, p, i)} {:trigger v[i]} :: p <= i < |w| && !LabelAt(tab, w, p, i) ==> v[i] == w[i]
  }

  lemma SameButLabelsOn(tab: seq<Kind>, w: seq<int>, v: seq<int>, p: nat)
    requires p < |w| == |v| && Fits(tab, w, p) && SameButLabels(tab, w, v, p) && !tab[w[p]].Unknown?
    ensures v[p] == w[p] && InstFits(tab, v, p) && Length(tab, v, p) == Length(tab, w, p)
    ensures SameButLabels(tab, w, v, p + Length(tab, w, p))
  {
    assert !LabelAt(tab, w, p, p);
    if tab[w[p]].HashTable? { assert !LabelAt(tab, w, p, p + 1); }
    var q := p + Length(tab, w, p);
    forall i | q <= i < |w| && !LabelAt(tab, w, q, i) ensures v[i] == w[i] {
      assert !LabelAt(tab, w, p, i);
    }
  }

  /** Changing labels does not change where instructions begin, which words are labels or whether a type is unknown. */
  lemma {:induction false} SameLayout(tab: seq<Kind>, w: seq<int>, v: seq<int>, p: nat)
    requires p <= |w| == |v| && Fits(tab, w, p) && SameButLabels(tab, w, v, p)
    ensures Fits(tab, v, p) && (Known(tab, v, p) <==> Known(tab, w, p))
    ensures forall i: nat :: Begins(tab, v, p, i) <==> Begins(tab, w, p, i)
    ensures forall i: nat :: LabelAt(tab, v, p, i) <==> LabelAt(tab, w, p, i)
    decreases |w| - p
  {
    if p < |w| {
      assert !LabelAt(tab, w, p, p);
      if !tab[w[p]].Unknown? {
        SameButLabelsOn(tab, w, v, p);
        SameLayout(tab, w, v, p + Length(tab, w, p));
      }
    }
  }

  /** The moved code is a program again, with its instructions and labels in the same places. */
  lemma MovedLayout(c: Program, d: int)
    ensures Fits(c.0, Moved(c, d), 0)
    ensures Known(c.0, Moved(c, d), 0) <==> Known(c.0, c.1, 0)
    ensures forall i: nat :: Begins(c.0, Moved(c, d), 0, i) <==> Begins(c.0, c.1, 0, i)
    ensures forall i: nat :: LabelAt(c.0, Moved(c, d), 0, i) <==> LabelAt(c.0, c.1, 0, i)
  {
    SameLayout(c.0, c.1, Moved(c, d), 0);
  }

  /** Moving twice is moving by the sum: a program loaded at b1 and then moved from b1 to b2 is the program loaded at
      b2. */
  lemma MovedTwice(c: Program, d: int, e: int)
    ensures Fits(c.0, Moved(c, d), 0) && Moved((c.0, Moved(c, d)), e) == Moved(c, d + e)
  {
    MovedLayout(c, d);
  }

  /** Moving back restores the code. */
  lemma MovedBack(c: Program, d: int)
    ensures Fits(c.0, Moved(c, d), 0) && Moved((c.0, Moved(c, d)), -d) == c.1
  {
    MovedTwice(c, d, -d);
  }

  /** What a walk through the code sees at an instruction boundary p. */
  lemma {:induction false} AtBoundary(tab: seq<Kind>, w: seq<int>, q: nat, p: nat)
    requires q <= |w| && Fits(tab, w, q) && Begins(tab, w, q, p)
    ensures q <= p <= |w| && Fits(tab, w, p)
    decreases |w| - q
  {
    if q != p { AtBoundary(tab, w, q + Length(tab, w, q), p); }
  }

  lemma {:induction false} Inside(tab: seq<Kind>, w: seq<int>, q: nat, p: nat, i: nat)
    requires q <= |w| && Fits(tab, w, q) && Begins(tab, w, q, p) && p <= |w| && Fits(tab, w, p) && p <= i
    ensures LabelAt(tab, w, q, i) <==> LabelAt(tab, w, p, i)
    decreases |w| - q
  {
    if q != p {
      AtBoundary(tab, w, q + Length(tab, w, q), p);
      Inside(tab, w, q + Length(tab, w, q), p, i);
    }
  }

  /** The instruction after the one at a boundary p, and what is known of the code by then. */
  lemma {:induction false} Next(tab: seq<Kind>, w: seq<int>, q: nat, p: nat)
    requires q <= |w| && Fits(tab, w, q) && Begins(tab, w, q, p) && p < |w| && Fits(tab, w, p) && !tab[w[p]].Unknown?
    ensures Begins(tab, w, q, p + Length(tab, w, p))
    ensures Known(tab, w, p) <==> Known(tab, w, p + Length(tab, w, p))
    decreases |w| - q
  {
    if q != p { Next(tab, w, q + Length(tab, w, q), p); }
  }

  /** marks tells which words are labels. */
  ghost predicate Marks(c: Program, marks: seq<bool>) {
    |marks| == |c.1| && forall i :: 0 <= i < |marks| ==> (marks[i] <==> LabelAt(c.0, c.1, 0, i))
  }

  /** The n words of an instruction begin at p. */
  ghost predicate Laid(marks: seq<bool>, t: Kind, p: nat, n: nat) {
    p + n <= |marks| && forall i {:trigger marks[i]} :: p <= i < p + n ==> (marks[i] <==> IsLabel(t, i - p))
  }

  /** At p there are d words that are no labels, and then e labels. */
  ghost predicate Ahead(marks: seq<bool>, p: nat, d: nat, e: nat) {
    p + d + e <= |marks| && forall i :: p <= i < p + d + e ==> (marks[i] <==> i >= p + d)
  }

  /** A hash table of n words begins at p. */
  ghost predicate TableAhead(marks: seq<bool>, w: seq<int>, p: nat, n: nat) {
    p + 1 < |w| && w[p + 1] >= 0 && n == 3 + 2 * w[p + 1] && Laid(marks, HashTable, p, n)
  }

  /** The n words of an instruction of kind t begin at p. */
  ghost predicate OperandsAhead(marks: seq<bool>, w: seq<int>, t: Kind, p: nat, n: nat) {
    match t
    case Plain(d, e) => Ahead(marks, p + 1, d, e) && n == 1 + d + e
    case HashTable => TableAhead(marks, w, p, n)
    case Unknown => true
  }

  lemma InstructionLaid(c: Program, marks: seq<bool>, p: nat)
    requires Marks(c, marks) && Begins(c.0, c.1, 0, p) && p < |c.1|
    ensures InstFits(c.0, c.1, p) && Fits(c.0, c.1, p) && !marks[p]
    ensures OperandsAhead(marks, c.1, c.0[c.1[p]], p, Length(c.0, c.1, p))
  {
    AtBoundary(c.0, c.1, 0, p);
    Inside(c.0, c.1, 0, p, p);
    WordsLaid(c, marks, p, Length(c.0, c.1, p));
  }

  lemma WordsLaid(c: Program, marks: seq<bool>, p: nat, n: nat)
    requires Marks(c, marks) && Begins(c.0, c.1, 0, p) && p < |c.1| && Fits(c.0, c.1, p) && n == Length(c.0, c.1, p)
    ensures Laid(marks, c.0[c.1[p]], p, n)
  {
    forall i | p <= i < p + n ensures marks[i] <==> IsLabel(c.0[c.1[p]], i - p) {
      Inside(c.0, c.1, 0, p, i);
    }
  }

  /** The first n words of the code are those of w, with labels moved by d. */
  ghost predicate Written(code: array<int>, w: seq<int>, marks: seq<bool>, d: int, n: nat)
    requires n <= code.Length == |w| == |marks|
    reads code
  {
    forall i :: 0 <= i < n ==> code[i] == if marks[i] then w[i] + d else w[i]
  }

  lemma AllWritten(c: Program, code: array<int>, marks: seq<bool>, d: int)
    requires Marks(c, marks) && code.Length == |c.1| && Written(code, c.1, marks, d, code.Length)
    ensures code[..] == Moved(c, d)
  {
    forall i | 0 <= i < code.Length ensures code[i] == Moved(c, d)[i] {
      assert marks[i] <==> LabelAt(c.0, c.1, 0, i);
    }
  }
}
