// The frame layer of the transport: lists of blocks that are filled from their ends behave as one sequence of bytes.
module Frames {
  import opened Terms


  newtype byte = x: int | 0 <= x < 256

  const FRAME_SIZE: nat := 4096

  /** A block; its bytes lie behind top. */
  datatype Block = Block(top: nat, fc: seq<byte>) {
    ghost predicate Valid() { |fc| == FRAME_SIZE && top < FRAME_SIZE }

    ghost function Bytes(): (b: seq<byte>)
      requires Valid()
      ensures |b| == FRAME_SIZE - 1 - top
    {
      fc[top + 1..]
    }
  }

  type Frame = f: Block | f.Valid() witness Block(FRAME_SIZE - 1, seq(FRAME_SIZE, i => 0))

  /** frame_new: a clean frame. */
  function NewFrame(): (f: Frame)
    ensures f.Bytes() == []
  {
    Block(FRAME_SIZE - 1, seq(FRAME_SIZE, i => 0))
  }

  /** The bytes of all frames. */
  ghost function Concat(fs: seq<Frame>): seq<byte> {
    if fs == [] then [] else fs[0].Bytes() + Concat(fs[1..])
  }

  lemma {:induction false} ConcatAppend(fs: seq<Frame>, gs: seq<Frame>)
    ensures Concat(fs + gs) == Concat(fs) + Concat(gs)
  {
    if fs == [] {
      assert fs + gs == gs;
    } else {
      assert (fs + gs)[1..] == fs[1..] + gs;
      ConcatAppend(fs[1..], gs);
    }
  }

  lemma ConcatOne(f: Frame)
    ensures Concat([f]) == f.Bytes()
  {
    assert [f][1..] == [];
  }

  /** The inner loop of writing: the last of the first e bytes of st go in front, as many as there is room for. */
  method PutFront(f: Frame, st: seq<byte>, e: nat) returns (g: Frame, e': nat)
    requires e <= |st|
    ensures e' <= e && g.Bytes() == st[e'..e] + f.Bytes()
    ensures (e' == 0 || g.top == 0) && (e > 0 && f.top > 0 ==> e' < e)
  {
    g, e' := f, e;
    while 0 < e' && g.top != 0
      invariant e' <= e && g.top + (e - e') == f.top && g.Bytes() == st[e'..e] + f.Bytes()
    {
      e' := e' - 1;
      g := Block(g.top - 1, g.fc[g.top := st[e']]);
    }
  }

  /** The inner loop of reading: bytes are taken from the front, at most n, and with the flag set none behind a zero. */
  method TakeFront(f: Frame, n: nat, flag: bool) returns (g: Frame, d: seq<byte>, stop: bool)
    ensures f.Bytes() == d + g.Bytes() && |d| <= n
    ensures stop ==> flag && d != [] && d[|d| - 1] == 0 && 0 !in d[..|d| - 1]
    ensures !stop ==> (|d| == n || g.Bytes() == []) && (flag ==> 0 !in d)
  {
    g, d, stop := f, [], false;
    while g.top + 1 < FRAME_SIZE && |d| < n && !stop
      invariant f.Bytes() == d + g.Bytes() && |d| <= n
      invariant if stop then flag && d != [] && d[|d| - 1] == 0 && 0 !in d[..|d| - 1] else flag ==> 0 !in d
      decreases FRAME_SIZE - g.top, !stop
    {
      var c := g.fc[g.top + 1];
      g := Block(g.top + 1, g.fc);
      d := d + [c];
      stop := flag && c == 0;
    }
  }

  /** d goes up to its first zero, when reading has stopped there, and has none otherwise; if that matters. */
  ghost predicate Until(d: seq<byte>, stop: bool, flag: bool) {
    if stop then flag && d != [] && d[|d| - 1] == 0 && 0 !in d[..|d| - 1] else flag ==> 0 !in d
  }

  lemma UntilJoin(d: seq<byte>, e: seq<byte>, stop: bool, flag: bool)
    requires Until(d, false, flag) && Until(e, stop, flag)
    ensures Until(d + e, stop, flag)
  {
    if stop { assert (d + e)[..|d + e| - 1] == d + e[..|e| - 1]; }
  }

  lemma Joined(d: seq<byte>, e: seq<byte>, x: seq<byte>)
    ensures (d + e) + x == d + (e + x)
  {
  }

  /** Of the bytes c, the first a have gone: x are left, and y0 has become y. */
  ghost predicate Moved(c: seq<byte>, y0: seq<byte>, a: nat, x: seq<byte>, y: seq<byte>) {
    a <= |c| && x == c[a..] && y == y0 + c[..a]
  }

  lemma MovedFurther(c: seq<byte>, y0: seq<byte>, a: nat, x: seq<byte>, y: seq<byte>, b: nat, x': seq<byte>,
                     y': seq<byte>)
    requires Moved(c, y0, a, x, y) && Moved(x, y, b, x', y')
    ensures Moved(c, y0, a + b, x', y')
  {
    assert c[..a + b] == c[..a] + c[a..][..b];
  }

  lemma DroppedFurther(c: seq<byte>, a: nat, x: seq<byte>, b: nat, y: seq<byte>)
    requires a <= |c| && x == c[a..] && b <= |x| && y == x[b..]
    ensures a + b <= |c| && y == c[a + b..]
  {
  }

  class FrameList {
    var frames: seq<Frame>

    ghost function Contents(): seq<byte>
      reads this
    {
      Concat(frames)
    }

    constructor ()
      ensures frames == [] && Contents() == []
    {
      frames := [];
    }

    /** One round of the write loop. */
    method WriteRound(st: seq<byte>, e: nat) returns (e': nat)
      requires e <= |st|
      modifies this
      ensures e' <= e && Contents() == st[e'..e] + old(Contents()) && (e > 0 ==> e' < e)
      ensures frames != []
    {
      if frames == [] || frames[0].top <= 0 {
        frames := [NewFrame()] + frames;
        assert frames[1..] == old(frames);
      }
      var g;
      g, e' := PutFront(frames[0], st, e);
      ghost var rest := frames[1..];
      frames := frames[0 := g];
      assert frames[1..] == rest;
    }

    /** frame_write_string: the bytes of st go in front. */
    method WriteString(st: seq<byte>)
      modifies this
      ensures Contents() == st + old(Contents()) && frames != []
    {
      var e: nat := WriteRound(st, |st|);
      assert st[e..|st|] == st[e..];
      while 0 < e
        invariant e <= |st| && Contents() == st[e..] + old(Contents()) && frames != []
      {
        var e' := WriteRound(st, e);
        assert st[e'..] == st[e'..e] + st[e..];
        e := e';
      }
    }

    /** frame_append_string: the bytes of st go behind, in frames of their own. */
    method AppendString(st: seq<byte>)
      modifies this
      ensures Contents() == old(Contents()) + st && old(frames) <= frames
    {
      var ext := new FrameList();
      ext.WriteString(st);
      ghost var fs, es := frames, ext.frames;
      while ext.frames != []
        invariant fresh(ext) && fs + es == frames + ext.frames
        decreases |ext.frames|
      {
        var link := ext.frames[0];
        ext.frames := ext.frames[1..];
        frames := frames + [link];
      }
      assert frames == fs + es;
      ConcatAppend(fs, es);
    }

    /** frame_size. */
    method Size() returns (s: nat)
      ensures s == |Contents()|
    {
      s := 0;
      var i := 0;
      while i < |frames|
        invariant i <= |frames| && s + |Concat(frames[i..])| == |Contents()|
      {
        assert frames[i..][1..] == frames[i + 1..];
        s := s + (FRAME_SIZE - (frames[i].top + 1));
        i := i + 1;
      }
    }

    /** frame_erase: the first bytes go, and how many. */
    method Erase(length: nat) returns (r: nat)
      modifies this
      ensures r == if length <= |old(Contents())| then length else |old(Contents())|
      ensures Contents() == old(Contents())[r..]
    {
      ghost var c := Contents();
      var s: nat := EraseRound(length);
      while s > 0 && frames != []
        invariant s <= length && length - s <= |c| && Contents() == c[length - s..]
        decreases if s == 0 then 0 else 1, |frames|
      {
        ghost var x, s0 := Contents(), s;
        s := EraseRound(s);
        DroppedFurther(c, length - s0, x, s0 - s, Contents());
      }
      r := length - s;
      assert |Contents()| == |c| - r;
    }

    method EraseRound(s: nat) returns (s': nat)
      modifies this
      ensures s' <= s && s - s' <= |old(Contents())| && Contents() == old(Contents())[s - s'..]
      ensures if old(frames) == [] then frames == [] && s' == s else s' == 0 || |frames| < |old(frames)|
    {
      if frames == [] { return s; }
      var cf := frames[0];
      var e := FRAME_SIZE - (cf.top + 1);
      if s >= e {
        frames := frames[1..];
        s' := s - e;
      } else {
        ghost var rest := frames[1..];
        frames := frames[0 := Block(cf.top + s, cf.fc)];
        assert frames[1..] == rest;
        s' := 0;
      }
    }

    /** frame_read_string_aux: bytes are read from the front, at most length of them, and with the flag set none behind
        a zero; the result does not count that zero. */
    method ReadAux(length: nat, flag: bool) returns (d: seq<byte>, r: nat)
      modifies this
      ensures d + Contents() == old(Contents()) && |d| <= length
      ensures if flag && 0 in d then r == |d| - 1 && d[r] == 0 && 0 !in d[..r]
              else r == |d| && (|d| == length || Contents() == [])
    {
      var stop;
      d, stop := ReadRound(length, flag);
      while |d| < length && !stop && frames != []
        invariant d + Contents() == old(Contents()) && |d| <= length && Until(d, stop, flag)
        decreases if stop || |d| == length then 0 else 1, |frames|
      {
        var d';
        d', stop := ReadRound(length - |d|, flag);
        UntilJoin(d, d', stop, flag);
        Joined(d, d', Contents());
        d := d + d';
      }
      r := if stop then |d| - 1 else |d|;
    }

    /** One round of the read loop: the first frame, which goes when it is empty. */
    method ReadRound(l1: nat, flag: bool) returns (d: seq<byte>, stop: bool)
      modifies this
      ensures d + Contents() == old(Contents()) && |d| <= l1
      ensures Until(d, stop, flag) && (!stop ==> |d| == l1 || frames == [] || |frames| < |old(frames)|)
    {
      if frames == [] { return [], false; }
      var g;
      g, d, stop := TakeFront(frames[0], l1, flag);
      ghost var rest := frames[1..];
      if g.top + 1 >= FRAME_SIZE {
        frames := frames[1..];
      } else {
        frames := frames[0 := g];
        assert frames[1..] == rest;
      }
    }

    /** frame_peek_string: the first bytes, which stay.  There is no test for the end of the list: asked for more than
        there is, the code follows the last frame's null link (None), unless the list has no frame at all. */
    method PeekString(length: nat) returns (d: Option<seq<byte>>)
      ensures d.None? <==> length > |Contents()| && frames != []
      ensures d.Some? ==> d.value == if length <= |Contents()| then Contents()[..length] else []
    {
      if frames == [] { return Some([]); }
      var b: seq<byte> := [];
      ghost var all := Contents();
      var i, c := 0, frames[0].top + 1;
      while |b| < length
        invariant i < |frames| && frames[i].top < c <= FRAME_SIZE && |b| <= length && Peeked(all, b, frames, i, c)
        decreases |frames| - i, FRAME_SIZE - c
      {
        if c == FRAME_SIZE {
          NextFrame(all, b, frames, i);
          if i + 1 == |frames| { return None; }
          i := i + 1;
          c := frames[i].top + 1;
        } else {
          NextByte(all, b, frames, i, c);
          b := b + [frames[i].fc[c]];
          c := c + 1;
        }
      }
      d := Some(b);
    }

    /** The bytes up to the first empty frame. */
    ghost function Reachable(): seq<byte>
      reads this
    {
      UpToEmpty(frames)
    }

    /** frame_copy: the first bytes are appended to another list.  It stops at an empty frame. */
    method Copy(dlt: FrameList, l: nat) returns (r: nat)
      requires dlt != this
      modifies dlt
      ensures r == if l <= |Reachable()| then l else |Reachable()|
      ensures dlt.Contents() == old(dlt.Contents()) + Reachable()[..r] && Reachable() <= Contents()
    {
      ghost var all, c0 := Reachable(), dlt.Contents();
      UpToEmptyPrefix(frames);
      r := 0;
      var i := 0;
      while i < |frames| && r < l
        invariant i <= |frames| && r <= l && CopiedTo(frames, i, all, r, l, c0, dlt.Contents())
      {
        var l2 := dlt.AppendFront(frames[i], l - r);
        CopiedFrame(frames, i, all, r, l, l2, c0, dlt.Contents());
        if l2 <= 0 { return; }
        r := r + l2;
        i := i + 1;
      }
    }

    /** The first bytes of a frame are appended. */
    method AppendFront(cf: Frame, l1: nat) returns (l2: nat)
      modifies this
      ensures l2 == if l1 < |cf.Bytes()| then l1 else |cf.Bytes()|
      ensures Contents() == old(Contents()) + cf.Bytes()[..l2]
    {
      l2 := FRAME_SIZE - (cf.top + 1);
      l2 := if l1 < l2 then l1 else l2;
      if l2 > 0 {
        assert cf.fc[cf.top + 1..cf.top + 1 + l2] == cf.Bytes()[..l2];
        AppendString(cf.fc[cf.top + 1..cf.top + 1 + l2]);
      }
    }

    /** frame_move: whole frames move to another list, and of the last one only the bytes asked for. */
    method Move(dlt: FrameList, l: nat) returns (r: nat)
      requires dlt != this
      modifies this, dlt
      ensures r == if l <= |old(Contents())| then l else |old(Contents())|
      ensures Moved(old(Contents()), old(dlt.Contents()), r, Contents(), dlt.Contents())
    {
      ghost var c, c0 := Contents(), dlt.Contents();
      var l1: nat := MoveRound(dlt, l);
      while l1 > 0 && frames != []
        invariant l1 <= l && Moved(c, c0, l - l1, Contents(), dlt.Contents())
        decreases if l1 == 0 then 0 else 1, |frames|
      {
        ghost var x, y, l0 := Contents(), dlt.Contents(), l1;
        l1 := MoveRound(dlt, l1);
        MovedFurther(c, c0, l - l0, x, y, l0 - l1, Contents(), dlt.Contents());
      }
      r := l - l1;
      assert |Contents()| == |c| - r;
    }

    method MoveRound(dlt: FrameList, l1: nat) returns (l': nat)
      requires dlt != this
      modifies this, dlt
      ensures l' <= l1 && Moved(old(Contents()), old(dlt.Contents()), l1 - l', Contents(), dlt.Contents())
      ensures if old(frames) == [] then frames == [] && l' == l1 else l' == 0 || |frames| < |old(frames)|
    {
      if frames == [] { return l1; }
      var cf := frames[0];
      ghost var rest := frames[1..];
      if l1 >= FRAME_SIZE - (cf.top + 1) {
        frames := frames[1..];
        ConcatAppend(dlt.frames, [cf]);
        ConcatOne(cf);
        dlt.frames := dlt.frames + [cf];
        l' := l1 - (FRAME_SIZE - (cf.top + 1));
      } else {
        l' := 0;
        if l1 > 0 {
          var exf := CopyInto(NewFrame(), cf, l1);
          frames := frames[0 := Block(cf.top + l1, cf.fc)];
          assert frames[1..] == rest;
          ConcatAppend(dlt.frames, [exf]);
          ConcatOne(exf);
          dlt.frames := dlt.frames + [exf];
        }
      }
    }
  }

  /** The first l1 bytes of cf go into the empty frame exf. */
  method CopyInto(exf: Frame, cf: Frame, l1: nat) returns (g: Frame)
    requires exf.Bytes() == [] && 0 < l1 < FRAME_SIZE - (cf.top + 1)
    ensures g.Bytes() == cf.Bytes()[..l1]
  {
    g := Block(exf.top - l1, exf.fc);
    var i, l, t := g.top + 1, l1, cf.top;
    while l > 0
      invariant 0 <= l <= l1 && i == g.top + 1 + (l1 - l) && t == cf.top + (l1 - l) && g.top + 1 + l1 == FRAME_SIZE
      invariant g.Valid() && forall k {:trigger g.fc[k]} :: g.top < k < i ==> g.fc[k] == cf.fc[cf.top + (k - g.top)]
    {
      t := t + 1;
      g := Block(g.top, g.fc[i := cf.fc[t]]);
      i := i + 1;
      l := l - 1;
    }
  }

  /** r of the bytes all have been copied behind c0; the others are those of the frames from the i-th on, unless l
      bytes were enough. */
  ghost predicate CopiedTo(fs: seq<Frame>, i: nat, all: seq<byte>, r: nat, l: nat, c0: seq<byte>, c: seq<byte>) {
    i <= |fs| && r <= |all| && c == c0 + all[..r] && (r == l || all[r..] == UpToEmpty(fs[i..]))
  }

  /** The i-th frame has been copied, as far as l bytes were asked for. */
  lemma CopiedFrame(fs: seq<Frame>, i: nat, all: seq<byte>, r: nat, l: nat, l2: nat, c0: seq<byte>, c: seq<byte>)
    requires i < |fs| && r < l && r <= |all| && all[r..] == UpToEmpty(fs[i..])
    requires l2 == if l - r < |fs[i].Bytes()| then l - r else |fs[i].Bytes()|
    requires c == (c0 + all[..r]) + fs[i].Bytes()[..l2]
    ensures if l2 == 0 then r == |all| && c == c0 + all[..r] else CopiedTo(fs, i + 1, all, r + l2, l, c0, c)
  {
    var b := fs[i].Bytes();
    assert fs[i..][0] == fs[i] && fs[i..][1..] == fs[i + 1..];
    if l2 > 0 { FrontOf(all, r, b, UpToEmpty(fs[i + 1..]), l2); }
  }

  lemma FrontOf(all: seq<byte>, r: nat, b: seq<byte>, x: seq<byte>, l2: nat)
    requires r <= |all| && all[r..] == b + x && l2 <= |b|
    ensures r + l2 <= |all| && all[..r + l2] == all[..r] + b[..l2]
    ensures l2 == |b| ==> all[r + l2..] == x
  {
    assert all[r..][..l2] == b[..l2];
  }

  /** The bytes from c of the i-th frame on. */
  ghost function Rest(fs: seq<Frame>, i: nat, c: nat): seq<byte>
    requires i < |fs| && c <= FRAME_SIZE
  {
    fs[i].fc[c..] + Concat(fs[i + 1..])
  }

  ghost predicate Peeked(all: seq<byte>, d: seq<byte>, fs: seq<Frame>, i: nat, c: nat) {
    i < |fs| && c <= FRAME_SIZE && all == d + Rest(fs, i, c)
  }

  lemma NextByte(all: seq<byte>, d: seq<byte>, fs: seq<Frame>, i: nat, c: nat)
    requires Peeked(all, d, fs, i, c) && c < FRAME_SIZE
    ensures Peeked(all, d + [fs[i].fc[c]], fs, i, c + 1)
  {
    assert fs[i].fc[c..] == [fs[i].fc[c]] + fs[i].fc[c + 1..];
    Joined(d, [fs[i].fc[c]], Rest(fs, i, c + 1));
  }

  /** Behind a frame read to its end there is another one, or all bytes have been read. */
  lemma NextFrame(all: seq<byte>, d: seq<byte>, fs: seq<Frame>, i: nat)
    requires Peeked(all, d, fs, i, FRAME_SIZE)
    ensures if i + 1 < |fs| then Peeked(all, d, fs, i + 1, fs[i + 1].top + 1) else d == all
  {
    if i + 1 < |fs| { assert fs[i + 1..][1..] == fs[i + 2..]; }
  }

  /** The bytes of the frames before the first empty one. */
  ghost function UpToEmpty(fs: seq<Frame>): seq<byte> {
    if fs == [] || fs[0].Bytes() == [] then [] else fs[0].Bytes() + UpToEmpty(fs[1..])
  }

  lemma {:induction false} UpToEmptyPrefix(fs: seq<Frame>)
    ensures UpToEmpty(fs) <= Concat(fs)
    ensures UpToEmpty(fs) == Concat(fs) <==> forall i, j :: 0 <= i < j < |fs| && fs[i].Bytes() == [] ==>
        fs[j].Bytes() == []
  {
    if fs != [] { UpToEmptyPrefix(fs[1..]); }
  }

  /** Writing nothing to an empty list leaves an empty frame, and bytes appended behind it are not copied. */
  method CopyLoses(b: byte) returns (r: nat, list: FrameList, copy: FrameList)
    ensures list.Contents() == [b] && r == 0 && copy.Contents() == []
  {
    list := new FrameList();
    list.WriteString([]);
    ConcatEmpty(list.frames);
    ghost var fs := list.frames;
    list.AppendString([b]);
    assert list.frames[0] == fs[0];
    copy := new FrameList();
    r := list.Copy(copy, 1);
  }

  lemma ConcatEmpty(fs: seq<Frame>)
    requires fs != [] && Concat(fs) == []
    ensures fs[0].Bytes() == []
  {
  }
}
