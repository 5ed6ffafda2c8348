// The message framing of the PostgreSQL frontend/backend protocol 3.0 ("Message
// Formats"): a type byte, a 32-bit length that counts itself, and the payload.
// Typed payload fields and their readers are here too.
module Frames {
  import opened Bytes
  import opened Wrappers

  datatype Msg = Msg(tag: byte, payload: seq<byte>)

  function Frame(m: Msg): seq<byte> {
    [m.tag] + Be32(|m.payload| + 4) + m.payload
  }

  function Stream(ms: seq<Msg>): seq<byte> {
    if ms == [] then [] else Frame(ms[0]) + Stream(ms[1..])
  }

  // A payload whose length field does not wrap around 32 bits.
  predicate Fits(m: Msg) {
    |m.payload| + 4 < TWO_TO_THE_32
  }

  datatype Received =
    | Got(msg: Msg, rest: seq<byte>)
    | Short // the input ended inside the frame
    | Crash // a length below 4: slicing with a negative bound panics

  // Take one frame off the front of the input.
  function Receive(input: seq<byte>): (r: Received)
    ensures r.Got? ==> |r.rest| < |input|
  {
    if |input| < 5 then Short
    else
      var n := FromBe32(input[1..5]) - 4;
      if n < 0 then Crash
      else if |input| < 5 + n then Short
      else Got(Msg(input[0], input[5..5 + n]), input[5 + n..])
  }

  function Parse(input: seq<byte>): Option<seq<Msg>>
    decreases |input|
  {
    if input == [] then Some([])
    else
      match Receive(input)
      case Got(m, rest) =>
        (match Parse(rest)
         case Some(ms) => Some([m] + ms)
         case None => None)
      case _ => None
  }

  // A frame byte by byte: its type, a length that counts itself and the payload but
  // not the type, most significant byte first, and the payload.
  lemma FrameBytes(tag: byte, a: byte, b: byte, c: byte, d: byte, payload: seq<byte>)
    requires Value32(a, b, c, d) == |payload| + 4
    ensures Frame(Msg(tag, payload)) == [tag, a, b, c, d] + payload
  {
    BigEndian(a, b, c, d, []);
    assert [tag] + [a, b, c, d] == [tag, a, b, c, d];
  }

  lemma ReceiveFrame(m: Msg, tail: seq<byte>)
    ensures Fits(m) ==> Receive(Frame(m) + tail) == Got(m, tail)
    ensures !Fits(m) ==> Receive(Frame(m) + tail) == Crash
                         || (Receive(Frame(m) + tail).Got? && Receive(Frame(m) + tail).msg != m)
  {
    var input := Frame(m) + tail;
    var lengthField := input[1..5];
    assert lengthField == Be32(|m.payload| + 4);
    Be32RoundTrip(|m.payload| + 4, []);
    assert lengthField + [] == lengthField;
    var n := FromBe32(lengthField) - 4;
    if Fits(m) {
      assert input[5..5 + n] == m.payload;
      assert input[5 + n..] == tail;
    }
  }

  // Framing round trip: the stream parses back to exactly the messages written
  // if and only if no length field wrapped.
  lemma {:induction false} ParseStream(ms: seq<Msg>)
    ensures Parse(Stream(ms)) == Some(ms) <==> forall m :: m in ms ==> Fits(m)
  {
    if ms != [] {
      ReceiveFrame(ms[0], Stream(ms[1..]));
      ParseStream(ms[1..]);
      assert ms == [ms[0]] + ms[1..];
      if Fits(ms[0]) {
        assert Parse(Stream(ms)).Some? <==> Parse(Stream(ms[1..])).Some?;
        if Parse(Stream(ms)) == Some(ms) {
          assert ms[1..] == Parse(Stream(ms[1..])).value;
        }
      } else if Parse(Stream(ms)).Some? {
        assert Parse(Stream(ms)).value[0] != ms[0];
      }
    }
  }

  lemma {:induction false} StreamSnoc(ms: seq<Msg>, m: Msg)
    ensures Stream(ms + [m]) == Stream(ms) + Frame(m)
  {
    if ms == [] {
      assert Stream([m]) == Frame(m) + Stream([]);
    } else {
      assert (ms + [m])[1..] == ms[1..] + [m];
      StreamSnoc(ms[1..], m);
    }
  }

  // ---- Typed fields ----

  datatype Field =
    | Int32(n: int)
    | Int16(n: int)
    | Str(s: seq<byte>)
    | Byte(c: byte)
    | Raw(v: seq<byte>)

  // What a writer appends for the field.
  function Encode(f: Field): seq<byte> {
    match f
    case Int32(n) => Be32(n)
    case Int16(n) => Be16(n)
    case Str(s) => s + [0]
    case Byte(c) => [c]
    case Raw(v) => v
  }

  function EncodeAll(fs: seq<Field>): seq<byte> {
    if fs == [] then [] else Encode(fs[0]) + EncodeAll(fs[1..])
  }

  // The fields byte by byte.
  lemma Int32Bytes(a: byte, b: byte, c: byte, d: byte)
    ensures Encode(Int32(Value32(a, b, c, d))) == [a, b, c, d]
  {
    BigEndian(a, b, c, d, []);
    EncodesInt32(Value32(a, b, c, d));
  }

  lemma EncodesInt32(n: int)
    ensures Encode(Int32(n)) == Be32(n)
  {
  }

  lemma Int16Bytes(a: byte, b: byte)
    ensures Encode(Int16(256 * (a as int) + b)) == [a, b]
  {
    BigEndian16(a, b, []);
    EncodesInt16(256 * (a as int) + b);
  }

  lemma EncodesInt16(n: int)
    ensures Encode(Int16(n)) == Be16(n)
  {
  }

  lemma PlainBytes(c: byte, s: seq<byte>)
    ensures Encode(Str(s)) == s + [0] && Encode(Byte(c)) == [c] && Encode(Raw(s)) == s
  {
  }

  datatype Kind = KInt32 | KInt16 | KStr | KByte | KRaw(n: nat)

  function KindOf(f: Field): Kind {
    match f
    case Int32(_) => KInt32
    case Int16(_) => KInt16
    case Str(_) => KStr
    case Byte(_) => KByte
    case Raw(v) => KRaw(|v|)
  }

  function Schema(fs: seq<Field>): (ks: seq<Kind>)
    ensures |ks| == |fs|
  {
    if fs == [] then [] else [KindOf(fs[0])] + Schema(fs[1..])
  }

  datatype Taken = Taken(field: Field, rest: seq<byte>)

  // What a reader takes off the front; None where it would panic.
  function Take(k: Kind, b: seq<byte>): Option<Taken> {
    match k
    case KInt32 => if |b| < 4 then None else Some(Taken(Int32(Signed32(FromBe32(b))), b[4..]))
    case KInt16 => if |b| < 2 then None else Some(Taken(Int16(FromBe16(b)), b[2..]))
    case KStr =>
      var i := IndexByte(b, 0);
      if i == -1 then None else Some(Taken(Str(b[..i]), b[i + 1..]))
    case KByte => if |b| < 1 then None else Some(Taken(Byte(b[0]), b[1..]))
    case KRaw(n) => if |b| < n then None else Some(Taken(Raw(b[..n]), b[n..]))
  }

  function TakeAll(ks: seq<Kind>, b: seq<byte>): Option<(seq<Field>, seq<byte>)> {
    if ks == [] then Some(([], b))
    else
      match Take(ks[0], b)
      case None => None
      case Some(t) =>
        match TakeAll(ks[1..], t.rest)
        case None => None
        case Some((fs, rest)) => Some(([t.field] + fs, rest))
  }

  // The values the wire can carry: int32 is signed, int16 is unsigned, and a
  // string ends at its first NUL.
  predicate Exact(f: Field) {
    match f
    case Int32(n) => -TWO_TO_THE_31 <= n < TWO_TO_THE_31
    case Int16(n) => 0 <= n < TWO_TO_THE_16
    case Str(s) => 0 !in s
    case Byte(_) => true
    case Raw(_) => true
  }

  lemma TakeEncoded(f: Field, tail: seq<byte>)
    ensures Take(KindOf(f), Encode(f) + tail).Some?
    ensures Exact(f) ==> Take(KindOf(f), Encode(f) + tail) == Some(Taken(f, tail))
    ensures !Exact(f) ==> Take(KindOf(f), Encode(f) + tail).value.field != f
  {
    var b := Encode(f) + tail;
    match f
    case Int32(n) => Be32RoundTrip(n, tail);
    case Int16(n) => Be16RoundTrip(n, tail);
    case Str(s) =>
      assert b[|s|] == 0;
      if 0 !in s {
        assert b[..|s|] == s;
        IndexByteIsFirst(b, 0, |s|);
      }
    case Byte(_) =>
    case Raw(v) =>
      assert b[..|v|] == v;
  }

  // Writing a list of fields and reading with the same list of readers gives the
  // fields back and leaves exactly the trailing bytes, if and only if every
  // field is one the wire can carry.
  lemma {:induction false} CodecRoundTrip(fs: seq<Field>, tail: seq<byte>)
    ensures TakeAll(Schema(fs), EncodeAll(fs) + tail) == Some((fs, tail))
       <==> forall f :: f in fs ==> Exact(f)
  {
    if fs == [] {
      assert EncodeAll(fs) + tail == tail;
    } else {
      var rest := EncodeAll(fs[1..]) + tail;
      assert EncodeAll(fs) + tail == Encode(fs[0]) + rest;
      assert fs == [fs[0]] + fs[1..];
      TakeEncoded(fs[0], rest);
      CodecRoundTrip(fs[1..], tail);
      var r := TakeAll(Schema(fs), EncodeAll(fs) + tail);
      if Exact(fs[0]) && r == Some((fs, tail)) {
        var rr := TakeAll(Schema(fs[1..]), rest);
        assert rr.Some? && [fs[0]] + rr.value.0 == fs;
        assert rr.value.0 == fs[1..];
      }
      if !Exact(fs[0]) && r.Some? {
        assert r.value.0[0] != fs[0];
      }
    }
  }
}
