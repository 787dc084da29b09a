// The symbolic-name table of an imago: zero-terminated strings laid end to end; a symbol is the index of
// its string, counted from ASCII_SIZE on, and smaller symbols are single characters.
module NameTable {

  const NUL := 0 as char
  const ASCII_SIZE: nat := 128

  /** The string that starts at i. */
  function CString(s: seq<char>, i: nat): seq<char>
    requires i <= |s|
    decreases |s| - i
  {
    if i == |s| || s[i] == NUL then [] else [s[i]] + CString(s, i + 1)
  }

  predicate Terminated(s: seq<char>) {
    s == [] || s[|s| - 1] == NUL
  }

  predicate StartsAt(s: seq<char>, i: nat) {
    i < |s| && (i == 0 || s[i - 1] == NUL)
  }

  /** What a symbol is called. */
  datatype Symbol = Ascii(f: nat) | Named(name: seq<char>)

  function SymbolOf(names: seq<char>, f: nat): Symbol {
    if f < ASCII_SIZE then Ascii(f)
    else if f - ASCII_SIZE < |names| then Named(CString(names, f - ASCII_SIZE))
    else Named([])
  }

  /** A table that grows behind its last terminator keeps the strings of all earlier indices. */
  lemma {:induction false} CStringKept(s: seq<char>, t: seq<char>, i: nat)
    requires s <= t && Terminated(s) && i < |s|
    ensures CString(t, i) == CString(s, i)
    decreases |s| - i
  {
    assert t[i] == s[i];
    if s[i] != NUL { CStringKept(s, t, i + 1); }
  }

  lemma SymbolKept(s: seq<char>, t: seq<char>, f: nat)
    requires s <= t && Terminated(s) && f < ASCII_SIZE + |s|
    ensures SymbolOf(t, f) == SymbolOf(s, f)
  {
    if f >= ASCII_SIZE { CStringKept(s, t, f - ASCII_SIZE); }
  }

  lemma {:induction false} CStringAppended(s: seq<char>, w: seq<char>, i: nat)
    requires i <= |w| && forall j :: 0 <= j < |w| ==> w[j] != NUL
    ensures CString(s + w + [NUL], |s| + i) == w[i..]
    decreases |w| - i
  {
    if i < |w| {
      CStringAppended(s, w, i + 1);
      assert w[i..] == [w[i]] + w[i + 1..];
    }
  }

  lemma {:induction false} CStringHasNoNul(s: seq<char>, i: nat)
    requires i <= |s|
    ensures forall j :: 0 <= j < |CString(s, i)| ==> CString(s, i)[j] != NUL
    decreases |s| - i
  {
    if i < |s| && s[i] != NUL { CStringHasNoNul(s, i + 1); }
  }

  /** t is the table after w has been looked up in s: the first string of s equal to w, or w appended. */
  ghost predicate LookedUp(s: seq<char>, w: seq<char>, index: nat, t: seq<char>) {
    && StartsAt(t, index) && CString(t, index) == w
    && (forall j: nat {:trigger StartsAt(s, j)} :: StartsAt(s, j) && j < index ==> CString(s, j) != w)
    && t == if index < |s| then s else s + w + [NUL]
  }

  /** Every index that had a string before still has it. */
  lemma LookedUpKeeps(s: seq<char>, w: seq<char>, index: nat, t: seq<char>)
    requires LookedUp(s, w, index, t) && Terminated(s)
    ensures s <= t && Terminated(t) && SymbolOf(t, ASCII_SIZE + index) == Named(w)
    ensures forall f {:trigger SymbolOf(t, f)} :: 0 <= f < ASCII_SIZE + |s| ==> SymbolOf(t, f) == SymbolOf(s, f)
  {
    assert s <= t;
    forall f | 0 <= f < ASCII_SIZE + |s| ensures SymbolOf(t, f) == SymbolOf(s, f) { SymbolKept(s, t, f); }
  }

  /** The symbol f is a single character, or the index at which its string is found: no other string before it is the
      same. */
  ghost predicate Canonical(s: seq<char>, f: nat) {
    f < ASCII_SIZE || (
      && StartsAt(s, f - ASCII_SIZE)
      && forall j: nat {:trigger StartsAt(s, j)} :: StartsAt(s, j) && j < f - ASCII_SIZE ==>
          CString(s, j) != CString(s, f - ASCII_SIZE))
  }

  /** Two such symbols with one name are one symbol. */
  lemma CanonicalUnique(s: seq<char>, f: nat, g: nat)
    requires Canonical(s, f) && Canonical(s, g) && SymbolOf(s, f) == SymbolOf(s, g)
    ensures f == g
  {
  }

  /** A table that grows keeps them. */
  lemma CanonicalKept(s: seq<char>, t: seq<char>, f: nat)
    requires s <= t && Terminated(s) && Canonical(s, f)
    ensures Canonical(t, f)
  {
    if f >= ASCII_SIZE {
      CStringKept(s, t, f - ASCII_SIZE);
      forall j: nat | StartsAt(t, j) && j < f - ASCII_SIZE ensures CString(t, j) != CString(t, f - ASCII_SIZE) {
        assert StartsAt(s, j);
        CStringKept(s, t, j);
      }
    }
  }

  /** What has been looked up is such a symbol. */
  lemma LookedUpCanonical(s: seq<char>, w: seq<char>, index: nat, t: seq<char>)
    requires LookedUp(s, w, index, t) && Terminated(s)
    ensures Canonical(t, ASCII_SIZE + index)
  {
    assert s <= t && Terminated(t);
    CStringEnds(t, index);
    forall j: nat | StartsAt(t, j) && j < index ensures CString(t, j) != w {
      assert StartsAt(s, j);
      CStringKept(s, t, j);
    }
  }

  lemma {:induction false} CStringEnds(s: seq<char>, i: nat)
    requires Terminated(s) && i < |s|
    ensures i + |CString(s, i)| < |s|
    decreases |s| - i
  {
    if s[i] != NUL { CStringEnds(s, i + 1); }
  }

  lemma SameHead(s: seq<char>, i: nat, t: seq<char>, j: nat)
    requires i < |s| && j < |t| && s[i] == t[j] != NUL
    ensures CString(s, i) == CString(t, j) <==> CString(s, i + 1) == CString(t, j + 1)
  {
    assert CString(s, i)[1..] == CString(s, i + 1);
    assert CString(t, j)[1..] == CString(t, j + 1);
  }

  lemma OtherHead(s: seq<char>, i: nat, t: seq<char>, j: nat)
    requires i < |s| && j < |t| && s[i] != t[j]
    ensures CString(s, i) != CString(t, j)
  {
    if s[i] != NUL && t[j] != NUL { assert CString(s, i)[0] != CString(t, j)[0]; }
  }

  /** search_index: a sequential search of the child's table, with the pointers of the source as indices; the
      string looked for starts at pcon of the parent's table. */
  method SearchIndex(names: seq<char>, pnames: seq<char>, pcon: nat) returns (index: nat, names': seq<char>)
    requires Terminated(names) && Terminated(pnames) && pcon < |pnames|
    ensures LookedUp(names, CString(pnames, pcon), index, names')
  {
    ghost var w := CString(pnames, pcon);
    var ccon := 0;
    while ccon < |names|
      invariant ccon <= |names| && (ccon == 0 || names[ccon - 1] == NUL)
      invariant forall j: nat {:trigger StartsAt(names, j)} :: StartsAt(names, j) && j < ccon ==> CString(names, j) != w
    {
      var found, cp := Compare(names, ccon, pnames, pcon);
      if found {
        return ccon, names;
      }
      ccon := SkipString(names, ccon, cp);
    }
    index := ccon;
    names' := CopyString(names, pnames, pcon);
    CStringHasNoNul(pnames, pcon);
    CStringAppended(names, w, 0);
  }

  /** Whether the string at ccon is the one at pcon, and how far they were compared. */
  method Compare(names: seq<char>, ccon: nat, pnames: seq<char>, pcon: nat) returns (found: bool, cp: nat)
    requires Terminated(names) && ccon < |names| && Terminated(pnames) && pcon < |pnames|
    ensures found <==> CString(names, ccon) == CString(pnames, pcon)
    ensures ccon <= cp < |names| && forall i :: ccon <= i < cp ==> names[i] != NUL
  {
    var pp := pcon;
    cp := ccon;
    while pnames[pp] != NUL && pnames[pp] == names[cp]
      invariant pp < |pnames| && ccon <= cp < |names|
      invariant forall i :: ccon <= i < cp ==> names[i] != NUL
      invariant CString(names, ccon) == CString(pnames, pcon) <==> CString(names, cp) == CString(pnames, pp)
      decreases |pnames| - pp
    {
      SameHead(names, cp, pnames, pp);
      pp, cp := pp + 1, cp + 1;
    }
    found := pnames[pp] == NUL && names[cp] == NUL;
    if !found { OtherHead(names, cp, pnames, pp); }
  }

  /** The string at pcon goes behind the table. */
  method CopyString(names: seq<char>, pnames: seq<char>, pcon: nat) returns (names': seq<char>)
    requires Terminated(pnames) && pcon < |pnames|
    ensures names' == names + CString(pnames, pcon) + [NUL]
  {
    var pp := pcon;
    names' := names;
    var c := pnames[pp];
    while c != NUL
      invariant pcon <= pp < |pnames| && c == pnames[pp] && names' == names + pnames[pcon..pp]
      invariant CString(pnames, pcon) == pnames[pcon..pp] + CString(pnames, pp)
      decreases |pnames| - pp
    {
      names' := names' + [c];
      pp := pp + 1;
      c := pnames[pp];
    }
    names' := names' + [c];
    assert CString(pnames, pcon) == pnames[pcon..pp];
  }

  /** The start of the next string. */
  method SkipString(names: seq<char>, ghost ccon: nat, start: nat) returns (cp: nat)
    requires Terminated(names) && ccon <= start < |names|
    requires forall i :: ccon <= i < start ==> names[i] != NUL
    ensures ccon < cp <= |names| && names[cp - 1] == NUL && forall i :: ccon <= i < cp - 1 ==> names[i] != NUL
  {
    cp := start;
    var c := names[cp];
    cp := cp + 1;
    while c != NUL && cp < |names|
      invariant start < cp <= |names| && c == names[cp - 1]
      invariant forall i :: ccon <= i < cp - 1 ==> names[i] != NUL
      decreases |names| - cp
    {
      c := names[cp];
      cp := cp + 1;
    }
  }
}
