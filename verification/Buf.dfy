// cmd/psql/buf.go: typed readers that advance a slice, and typed writers that
// build framed messages in one growing slice and patch each length in place.
module Buf {
  import opened Bytes
  import opened Frames
  import opened Slices
  import opened Wrappers

  class ReadBuf {
    var b: Slice

    constructor (s: Slice)
      ensures b == s
    {
      b := s;
    }

    ghost predicate Has(k: Kind)
      reads this, b.arr
    {
      b.Valid() && Take(k, b.View()).Some?
    }

    method Int32() returns (n: int)
      requires Has(KInt32)
      modifies this
      ensures b.Valid() && b.arr == old(b.arr)
      ensures Some(Taken(Field.Int32(n), b.View())) == Take(KInt32, old(b.View()))
    {
      n := Signed32(FromBe32(b.View()));
      Advance(4);
    }

    // The object identifier is read as the same four bytes without a sign.
    method Oid() returns (n: nat)
      requires Has(KInt32)
      modifies this
      ensures b.Valid() && b.arr == old(b.arr)
      ensures Be32(n) + b.View() == old(b.View())
    {
      n := FromBe32(b.View());
      Advance(4);
      FromBe32Inverse(old(b.View()));
    }

    method Int16() returns (n: int)
      requires Has(KInt16)
      modifies this
      ensures b.Valid() && b.arr == old(b.arr)
      ensures Some(Taken(Field.Int16(n), b.View())) == Take(KInt16, old(b.View()))
    {
      n := FromBe16(b.View());
      Advance(2);
    }

    method String() returns (s: seq<byte>)
      requires Has(KStr)
      modifies this
      ensures b.Valid() && b.arr == old(b.arr)
      ensures Some(Taken(Str(s), b.View())) == Take(KStr, old(b.View()))
    {
      var i := IndexByte(b.View(), 0);
      s := b.View()[..i];
      Advance(i + 1);
    }

    // Hands out a slice of the same array: no bytes are copied.
    method Next(n: nat) returns (v: Slice)
      requires Has(KRaw(n))
      modifies this
      ensures b.Valid() && b.arr == old(b.arr)
      ensures v.Valid() && v.arr == b.arr
      ensures Some(Taken(Raw(v.View()), b.View())) == Take(KRaw(n), old(b.View()))
    {
      v := b.(len := n);
      assert v.View() == b.View()[..n];
      Advance(n);
    }

    method Byte() returns (c: byte)
      requires Has(KByte)
      modifies this
      ensures b.Valid() && b.arr == old(b.arr)
      ensures Some(Taken(Field.Byte(c), b.View())) == Take(KByte, old(b.View()))
    {
      var v := Next(1);
      c := v.View()[0];
    }

    // *b = (*b)[n:]
    method Advance(n: nat)
      requires b.Valid() && n <= b.len
      modifies this
      ensures b.Valid() && b.arr == old(b.arr) && b.View() == old(b.View())[n..]
    {
      b := Slice(b.arr, b.off + n, b.len - n, b.cap - n);
    }
  }

  lemma FromBe32Inverse(v: seq<byte>)
    requires |v| >= 4
    ensures Be32(FromBe32(v)) + v[4..] == v
  {
    var w := Be32(FromBe32(v)) + [];
    Be32RoundTrip(FromBe32(v), []);
    FromBe32Injective(w, v[..4]);
  }

  lemma FromBe32Injective(v: seq<byte>, w: seq<byte>)
    requires |v| == |w| == 4 && FromBe32(v) == FromBe32(w)
    ensures v == w
  {
    assert v[0] == w[0];
    assert v[1] == w[1];
    assert v[2] == w[2];
    assert v[3] == w[3];
  }

  // The messages closed so far, and the open one.
  class WriteBuf {
    var buf: Slice
    var pos: nat
    ghost var done: seq<Msg>
    ghost var open: Msg

    // The contents are the closed frames, the open message's type byte, four
    // bytes of any value, and the open payload; pos is where the four bytes are.
    ghost predicate Valid()
      reads this, buf.arr
    {
      buf.Valid() && Shape(buf.View(), pos, done, open)
    }

    // &writeBuf{buf: s, pos: 1} over five bytes the first of which is a type
    // byte: the other four hold whatever was there before.
    constructor (s: Slice)
      requires s.Valid() && s.len == 5
      ensures Valid() && buf == s && done == [] && open == Msg(s.View()[0], [])
    {
      buf, pos := s, 1;
      done, open := [], Msg(s.View()[0], []);
    }

    method Int32(n: int)
      requires Valid()
      modifies this, buf.arr
      ensures Valid() && Moved(old(buf)) && done == old(done)
      ensures open == Extend(old(open), Field.Int32(n))
    {
      Put(Field.Int32(n));
    }

    method Int16(n: int)
      requires Valid()
      modifies this, buf.arr
      ensures Valid() && Moved(old(buf)) && done == old(done)
      ensures open == Extend(old(open), Field.Int16(n))
    {
      Put(Field.Int16(n));
    }

    method String(s: seq<byte>)
      requires Valid()
      modifies this, buf.arr
      ensures Valid() && Moved(old(buf)) && done == old(done)
      ensures open == Extend(old(open), Str(s))
    {
      Put(Str(s));
    }

    method Byte(c: byte)
      requires Valid()
      modifies this, buf.arr
      ensures Valid() && Moved(old(buf)) && done == old(done)
      ensures open == Extend(old(open), Field.Byte(c))
    {
      Put(Field.Byte(c));
    }

    // v may be a window into the very array that is written to: append copies
    // the bytes v had at the call.
    method Bytes(v: Slice)
      requires Valid() && v.Valid()
      modifies this, buf.arr
      ensures Valid() && Moved(old(buf)) && done == old(done)
      ensures open == Extend(old(open), Raw(old(v.View())))
    {
      Put(Raw(v.View()));
    }

    // Where the buffer may be after appends: the same array or a new one.
    twostate predicate Moved(was: Slice)
      reads this
    {
      (buf.arr == was.arr && buf.off == was.off && buf.cap == was.cap) || fresh(buf.arr)
    }

    method Put(f: Field)
      requires Valid()
      modifies this, buf.arr
      ensures Valid() && Moved(old(buf)) && done == old(done) && pos == old(pos)
      ensures open == Extend(old(open), f)
    {
      Extended(buf.View(), pos, done, open, f);
      buf := Append(buf, Encode(f));
      open := Extend(open, f);
    }

    // Patch the length of the open message: it counts itself and the payload.
    method PatchLength()
      requires Valid()
      modifies buf.arr
      ensures Valid()
      ensures buf.View() == Stream(done + [open])
      ensures buf.arr[..] == Overwrite(old(buf.arr[..]), buf.off + pos, Be32(|open.payload| + 4))
    {
      Patched(buf.View(), pos, done, open);
      PutUint32(buf, pos, buf.len - pos);
    }

    method Wrap() returns (s: Slice)
      requires Valid()
      modifies buf.arr
      ensures Valid() && s == buf
      ensures s.View() == Stream(done + [open])
      ensures buf.arr[..] == Overwrite(old(buf.arr[..]), buf.off + pos, Be32(|open.payload| + 4))
    {
      PatchLength();
      s := buf;
    }

    // Close the open message and start one of type c.
    method Next(c: byte)
      requires Valid()
      modifies this, buf.arr
      ensures Valid() && Moved(old(buf))
      ensures done == old(done) + [old(open)] && open == Msg(c, [])
    {
      PatchLength();
      pos := buf.len + 1;
      ghost var was := buf.View();
      buf := Append(buf, [c, 0, 0, 0, 0]);
      done, open := done + [open], Msg(c, []);
      assert buf.View()[..pos] == was + [c];
      assert buf.View()[pos + 4..] == [];
    }
  }

  function Extend(m: Msg, f: Field): Msg {
    Msg(m.tag, m.payload + Encode(f))
  }

  ghost predicate Shape(v: seq<byte>, pos: nat, done: seq<Msg>, open: Msg) {
    && pos == |Stream(done)| + 1
    && |v| == pos + 4 + |open.payload|
    && v[..pos] == Stream(done) + [open.tag]
    && v[pos + 4..] == open.payload
  }

  lemma Extended(v: seq<byte>, pos: nat, done: seq<Msg>, open: Msg, f: Field)
    requires Shape(v, pos, done, open)
    ensures Shape(v + Encode(f), pos, done, Extend(open, f))
  {
    var r := v + Encode(f);
    assert r[..pos] == v[..pos];
    assert r[pos + 4..] == v[pos + 4..] + Encode(f);
  }

  lemma Patched(v: seq<byte>, pos: nat, done: seq<Msg>, open: Msg)
    requires Shape(v, pos, done, open)
    ensures var p := Overwrite(v, pos, Be32(|open.payload| + 4));
            p == Stream(done + [open]) && Shape(p, pos, done, open)
  {
    var p := Overwrite(v, pos, Be32(|open.payload| + 4));
    StreamSnoc(done, open);
    assert p == Stream(done) + Frame(open);
    assert p[..pos] == v[..pos] && p[pos + 4..] == v[pos + 4..];
  }

  // ---- Every sequence of writer calls ----

  datatype Call = Write(f: Field) | Open(tag: byte)

  // The messages a sequence of calls writes, starting from an open message.
  function Written(open: Msg, calls: seq<Call>): (ms: seq<Msg>)
    ensures |ms| > 0
    decreases |calls|
  {
    if calls == [] then [open]
    else match calls[0]
      case Write(f) => Written(Extend(open, f), calls[1..])
      case Open(c) => [open] + Written(Msg(c, []), calls[1..])
  }

  // What one more call does to the messages.
  function After(ms: seq<Msg>, c: Call): (r: seq<Msg>)
    requires |ms| > 0
    ensures |r| > 0
  {
    match c
    case Write(f) => ms[..|ms| - 1] + [Extend(ms[|ms| - 1], f)]
    case Open(t) => ms + [Msg(t, [])]
  }

  lemma {:induction false} WrittenSnoc(open: Msg, calls: seq<Call>, c: Call)
    ensures Written(open, calls + [c]) == After(Written(open, calls), c)
    decreases |calls|
  {
    if calls == [] {
      assert calls + [c] == [c];
      assert [c][1..] == [];
    } else {
      assert (calls + [c])[1..] == calls[1..] + [c];
      match calls[0]
      case Write(f) => WrittenSnoc(Extend(open, f), calls[1..], c);
      case Open(t) => WrittenSnoc(Msg(t, []), calls[1..], c);
    }
  }

  method Perform(w: WriteBuf, c: Call)
    requires w.Valid()
    modifies w, w.buf.arr
    ensures w.Valid() && w.Moved(old(w.buf))
    ensures w.done + [w.open] == After(old(w.done + [w.open]), c)
  {
    match c
    case Write(Int32(n)) => w.Int32(n);
    case Write(Int16(n)) => w.Int16(n);
    case Write(Str(v)) => w.String(v);
    case Write(Byte(b)) => w.Byte(b);
    case Write(Raw(v)) => {
      var x := Make(|v|);
      Copy(x, v);
      w.Bytes(x);
    }
    case Open(t) => w.Next(t);
  }

  // Whatever calls are made, in whatever order, over whatever stale bytes, and
  // however often the buffer moves to a new array: what Wrap hands to the
  // connection is the stream of the messages written, so a receiver that reads
  // frame by frame gets exactly those, if and only if no length wraps.
  method WriteMessages(s: Slice, calls: seq<Call>) returns (out: Slice)
    requires s.Valid() && s.len == 5
    modifies s.arr
    ensures var ms := Written(Msg(old(s.View())[0], []), calls);
            && out.Valid() && out.View() == Stream(ms)
            && (Parse(out.View()) == Some(ms) <==> forall m :: m in ms ==> Fits(m))
  {
    var w := new WriteBuf(s);
    ghost var first := w.open;
    for i := 0 to |calls|
      invariant w.Valid() && fresh(w)
      invariant w.buf.arr == s.arr || fresh(w.buf.arr)
      invariant w.done + [w.open] == Written(first, calls[..i])
    {
      WrittenSnoc(first, calls[..i], calls[i]);
      assert calls[..i + 1] == calls[..i] + [calls[i]];
      Perform(w, calls[i]);
    }
    assert calls[..|calls|] == calls;
    ghost var ms := w.done + [w.open];
    out := w.Wrap();
    ParseStream(ms);
  }
}
