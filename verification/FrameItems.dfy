// Integers, shorts, bytes and texts in front of a frame list: what is written last is read first.
module FrameItems {
  import opened Terms
  import opened Frames

  datatype Item =
    | Long(v: nat)            // an int, as its 32 bits
    | Short(v: nat)           // a short, as its 16 bits
    | Octet(c: byte)
    | Text(t: seq<byte>)      // a string; the zero behind it is written too
  {
    predicate Valid() {
      match this
      case Long(v) => v < 0x1_0000_0000
      case Short(v) => v < 0x1_0000
      case Octet(_) => true
      case Text(t) => 0 !in t
    }
  }

  datatype Kind = LongKind | ShortKind | OctetKind | TextKind(max: nat)

  /** The bytes of a number in network order. */
  function BigEndian(v: nat, n: nat): (b: seq<byte>)
    ensures |b| == n
  {
    if n == 0 then [] else BigEndian(v / 256, n - 1) + [(v % 256) as byte]
  }

  function Value(b: seq<byte>): nat {
    if b == [] then 0 else Value(b[..|b| - 1]) * 256 + b[|b| - 1] as nat
  }

  function Power(n: nat): nat {
    if n == 0 then 1 else 256 * Power(n - 1)
  }

  lemma {:induction false} ValueOfBytes(v: nat, n: nat)
    requires v < Power(n)
    ensures Value(BigEndian(v, n)) == v
  {
    if n > 0 {
      ValueOfBytes(v / 256, n - 1);
      assert BigEndian(v, n)[..n - 1] == BigEndian(v / 256, n - 1);
    }
  }

  lemma Powers()
    ensures Power(2) == 0x1_0000 && Power(4) == 0x1_0000_0000
  {
    assert Power(1) == 256 * Power(0);
    assert Power(2) == 256 * Power(1);
    assert Power(3) == 256 * Power(2);
  }

  /** The byte with this weight in a number. */
  function ByteOf(v: nat, weight: nat): byte
    requires weight > 0
  {
    (v / weight % 256) as byte
  }

  /** The byte of the highest weight comes first. */
  lemma NetworkOrder(v: nat)
    ensures BigEndian(v, 4) == [ByteOf(v, 0x100_0000), ByteOf(v, 0x1_0000), ByteOf(v, 0x100), ByteOf(v, 1)]
    ensures BigEndian(v, 2) == [ByteOf(v, 0x100), ByteOf(v, 1)]
  {
    Bytes(v);
    LastByte(v, 1);
    LastByte(v / 256, 0);
    LastByte(v, 3);
    LastByte(v / 256, 2);
    LastByte(v / 256 / 256, 1);
    LastByte(v / 256 / 256 / 256, 0);
  }

  lemma LastByte(v: nat, n: nat)
    ensures BigEndian(v, n + 1) == BigEndian(v / 256, n) + [ByteOf(v, 1)]
  {
  }

  lemma Bytes(v: nat)
    ensures ByteOf(v / 256, 1) == ByteOf(v, 0x100) && ByteOf(v / 256 / 256, 1) == ByteOf(v, 0x1_0000)
    ensures ByteOf(v / 256 / 256 / 256, 1) == ByteOf(v, 0x100_0000)
  {
    var a := v / 256;
    var b := a / 256;
    var c := b / 256;
    assert b == v / 0x1_0000;
    assert c == v / 0x100_0000;
  }

  function Encode(m: Item): seq<byte> {
    match m
    case Long(v) => BigEndian(v, 4)
    case Short(v) => BigEndian(v, 2)
    case Octet(c) => [c]
    case Text(t) => t + [0]
  }

  /** An item of this kind can be read back: a text must fit the buffer. */
  predicate Suits(k: Kind, m: Item) {
    match m
    case Long(_) => k == LongKind
    case Short(_) => k == ShortKind
    case Octet(_) => k == OctetKind
    case Text(t) => k.TextKind? && |t| < k.max
  }

  /** frame_write_int, frame_write_short, frame_write_byte, frame_write_text. */
  method Write(lt: FrameList, m: Item)
    requires m.Valid()
    modifies lt
    ensures lt.Contents() == Encode(m) + old(lt.Contents())
    ensures match m
      case Long(v) => lt.Contents() ==
        [ByteOf(v, 0x100_0000), ByteOf(v, 0x1_0000), ByteOf(v, 0x100), ByteOf(v, 1)] + old(lt.Contents())
      case Short(v) => lt.Contents() == [ByteOf(v, 0x100), ByteOf(v, 1)] + old(lt.Contents())
      case Octet(c) => lt.Contents() == [c] + old(lt.Contents())
      case Text(t) => lt.Contents() == t + [0] + old(lt.Contents())
  {
    if m.Long? { NetworkOrder(m.v); } else if m.Short? { NetworkOrder(m.v); }
    match m
    case Long(v) => lt.WriteString(BigEndian(v, 4));
    case Short(v) => lt.WriteString(BigEndian(v, 2));
    case Octet(c) => lt.WriteString([c]);
    case Text(t) => lt.WriteString(t + [0]);
  }

  /** The bytes before the first zero. */
  function UpToZero(c: seq<byte>): (n: nat)
    ensures n <= |c| && 0 !in c[..n] && (n < |c| ==> c[n] == 0)
  {
    if c == [] || c[0] == 0 then 0 else
    assert c[..1 + UpToZero(c[1..])] == [c[0]] + c[1..][..UpToZero(c[1..])];
    1 + UpToZero(c[1..])
  }

  lemma {:induction false} UpToZeroUnique(c: seq<byte>, n: nat)
    requires n <= |c| && 0 !in c[..n] && (n < |c| ==> c[n] == 0)
    ensures UpToZero(c) == n
  {
    if n > 0 {
      assert c[..n][0] == c[0] && c[..n][1..] == c[1..][..n - 1];
      UpToZeroUnique(c[1..], n - 1);
    }
  }

  lemma ZeroIn(c: seq<byte>, i: nat, n: nat)
    requires i < n <= |c| && c[i] == 0
    ensures 0 in c[..n]
  {
    assert c[..n][i] == 0;
  }

  /** What the readers make of the bytes c: the item, if there are enough bytes, and what is left.  A text ends at its
      zero or when the buffer is full. */
  function Parse(c: seq<byte>, k: Kind): (Option<Item>, seq<byte>) {
    match k
    case LongKind => if |c| < 4 then (None, []) else (Some(Long(Value(c[..4]))), c[4..])
    case ShortKind => if |c| < 2 then (None, []) else (Some(Short(Value(c[..2]))), c[2..])
    case OctetKind => if |c| < 1 then (None, []) else (Some(Octet(c[0])), c[1..])
    case TextKind(max) =>
      var n := UpToZero(c);
      if n < max && n < |c| then (Some(Text(c[..n])), c[n + 1..])
      else if max < |c| then (Some(Text(c[..max])), c[max..])
      else (Some(Text(c)), [])
  }

  /** Reading what has been written gives it back. */
  lemma ParseEncode(m: Item, k: Kind, rest: seq<byte>)
    requires m.Valid() && Suits(k, m)
    ensures Parse(Encode(m) + rest, k) == (Some(m), rest)
  {
    var c := Encode(m) + rest;
    Powers();
    match m
    case Long(v) =>
      ValueOfBytes(v, 4);
      assert c[..4] == BigEndian(v, 4) && c[4..] == rest;
    case Short(v) =>
      ValueOfBytes(v, 2);
      assert c[..2] == BigEndian(v, 2) && c[2..] == rest;
    case Octet(b) => assert c[1..] == rest;
    case Text(t) =>
      assert c[..|t|] == t && c[|t| + 1..] == rest;
      UpToZeroUnique(c, |t|);
  }

  /** frame_read_int, frame_read_short, frame_read_byte, frame_read_text. */
  method Read(lt: FrameList, k: Kind) returns (r: Option<Item>)
    modifies lt
    ensures (r, lt.Contents()) == Parse(old(lt.Contents()), k)
  {
    ghost var c := lt.Contents();
    match k
    case LongKind =>
      var d, n := lt.ReadAux(4, false);
      Front(c, d, lt.Contents());
      r := if n != 4 then None else Some(Long(Value(d)));
    case ShortKind =>
      var d, n := lt.ReadAux(2, false);
      Front(c, d, lt.Contents());
      r := if n != 2 then None else Some(Short(Value(d)));
    case OctetKind =>
      var d, n := lt.ReadAux(1, false);
      Front(c, d, lt.Contents());
      r := if n != 1 then None else Some(Octet(d[0]));
    case TextKind(max) =>
      var d, n := lt.ReadAux(max, true);
      TextRead(c, d, n, lt.Contents(), max);
      r := Some(Text(d[..n]));
  }

  lemma Front(c: seq<byte>, d: seq<byte>, rest: seq<byte>)
    requires c == d + rest
    ensures c[..|d|] == d && c[|d|..] == rest
  {
  }

  lemma TextRead(c: seq<byte>, d: seq<byte>, n: nat, rest: seq<byte>, max: nat)
    requires c == d + rest && |d| <= max
    requires if 0 in d then n == |d| - 1 && d[n] == 0 && 0 !in d[..n] else n == |d| && (|d| == max || rest == [])
    ensures Parse(c, TextKind(max)) == (Some(Text(d[..n])), rest)
  {
    Front(c, d, rest);
    assert d[..n] == c[..n];
    if 0 in d {
      UpToZeroUnique(c, n);
    } else {
      var z := UpToZero(c);
      if z < |d| { ZeroIn(c, z, |d|); }
      if rest == [] { assert d == c; }
    }
  }

  lemma EncodeMore(ms: seq<Item>, i: nat, c: seq<byte>)
    requires i < |ms|
    ensures EncodeAll(ms[..i + 1]) + c == Encode(ms[i]) + (EncodeAll(ms[..i]) + c)
  {
    assert ms[..i + 1][..i] == ms[..i];
    assert (Encode(ms[i]) + EncodeAll(ms[..i])) + c == Encode(ms[i]) + (EncodeAll(ms[..i]) + c);
  }

  /** Items are written one in front of the other. */
  method WriteAll(lt: FrameList, ms: seq<Item>)
    requires forall i :: 0 <= i < |ms| ==> ms[i].Valid()
    modifies lt
    ensures lt.Contents() == EncodeAll(ms) + old(lt.Contents())
  {
    var i := 0;
    while i < |ms|
      invariant i <= |ms| && lt.Contents() == EncodeAll(ms[..i]) + old(lt.Contents())
    {
      Write(lt, ms[i]);
      EncodeMore(ms, i, old(lt.Contents()));
      i := i + 1;
    }
    assert ms[..i] == ms;
  }

  /** What a series of writes puts in front: the item written last comes first. */
  function EncodeAll(ms: seq<Item>): seq<byte> {
    if ms == [] then [] else Encode(ms[|ms| - 1]) + EncodeAll(ms[..|ms| - 1])
  }

  method ReadOne(lt: FrameList, k: Kind, ghost m: Item, ghost rest: seq<byte>) returns (r: Option<Item>)
    requires m.Valid() && Suits(k, m) && lt.Contents() == Encode(m) + rest
    modifies lt
    ensures r == Some(m) && lt.Contents() == rest
  {
    ParseEncode(m, k, rest);
    r := Read(lt, k);
  }

  /** The items, the last one first. */
  function Reversed(ms: seq<Item>): seq<Option<Item>> {
    if ms == [] then [] else [Some(ms[|ms| - 1])] + Reversed(ms[..|ms| - 1])
  }

  ghost predicate AllSuit(ks: seq<Kind>, ms: seq<Item>) {
    |ks| == |ms| && forall i :: 0 <= i < |ms| ==> ms[i].Valid() && Suits(ks[i], ms[i])
  }

  /** Reading in the reverse order undoes a series of writes. */
  method ReadBack(lt: FrameList, ks: seq<Kind>, ghost ms: seq<Item>,
                  ghost rest: seq<byte>) returns (rs: seq<Option<Item>>)
    requires AllSuit(ks, ms) && lt.Contents() == EncodeAll(ms) + rest
    modifies lt
    ensures rs == Reversed(ms) && lt.Contents() == rest
    decreases |ks|
  {
    if ks == [] {
      rs := [];
    } else {
      var n := |ks| - 1;
      assert ms[..n + 1] == ms;
      EncodeMore(ms, n, rest);
      var r := ReadOne(lt, ks[n], ms[n], EncodeAll(ms[..n]) + rest);
      rs := ReadBack(lt, ks[..n], ms[..n], rest);
      rs := [r] + rs;
    }
  }

  /** A series of writes, and the reads in the reverse order: every item comes back, and the list is as before. */
  method RoundTrip(lt: FrameList, ms: seq<Item>, ks: seq<Kind>) returns (rs: seq<Option<Item>>)
    requires AllSuit(ks, ms)
    modifies lt
    ensures rs == Reversed(ms) && lt.Contents() == old(lt.Contents())
  {
    WriteAll(lt, ms);
    rs := ReadBack(lt, ks, ms, old(lt.Contents()));
  }
}
