// strings.Split, bytes.Split and strings.Join with a separator of one byte.
module Pieces {
  import opened Bytes
  import opened Wrappers

  // The pieces between the separators.
  function SplitOn(b: seq<byte>, sep: byte): (ps: seq<seq<byte>>)
    ensures |ps| > 0
  {
    if b == [] then [[]] else AddByte(SplitOn(b[..|b| - 1], sep), b[|b| - 1], sep)
  }

  // The pieces after one more byte.
  function AddByte(ps: seq<seq<byte>>, c: byte, sep: byte): (r: seq<seq<byte>>)
    requires |ps| > 0
    ensures |r| > 0
  {
    if c == sep then ps + [[]] else ps[..|ps| - 1] + [ps[|ps| - 1] + [c]]
  }

  function Join(ss: seq<seq<byte>>, sep: byte): seq<byte> {
    if ss == [] then []
    else if |ss| == 1 then ss[0]
    else ss[0] + [sep] + Join(ss[1..], sep)
  }

  lemma SplitSnoc(b: seq<byte>, c: byte, sep: byte)
    ensures SplitOn(b + [c], sep) == AddByte(SplitOn(b, sep), c, sep)
  {
    assert (b + [c])[..|b|] == b;
  }

  lemma {:induction false} SplitOnePiece(s: seq<byte>, sep: byte)
    requires sep !in s
    ensures SplitOn(s, sep) == [s]
  {
    if s != [] {
      var front, c := s[..|s| - 1], s[|s| - 1];
      assert s == front + [c];
      SplitOnePiece(front, sep);
      SplitSnoc(front, c, sep);
    }
  }

  // A first piece, a separator and more are the pieces of the rest behind that piece.
  lemma {:induction false} SplitCons(s: seq<byte>, b: seq<byte>, sep: byte)
    requires sep !in s
    ensures SplitOn(s + [sep] + b, sep) == [s] + SplitOn(b, sep)
    decreases |b|
  {
    if b == [] {
      SplitOnePiece(s, sep);
      SplitSnoc(s, sep, sep);
      assert s + [sep] + b == s + [sep];
    } else {
      var c, front := b[|b| - 1], b[..|b| - 1];
      SplitCons(s, front, sep);
      SplitSnoc(front, c, sep);
      SplitSnoc(s + [sep] + front, c, sep);
      assert front + [c] == b;
      Regroup(s + [sep], front, [c]);
      AddByteCons(s, SplitOn(front, sep), c, sep);
    }
  }

  lemma AddByteCons(s: seq<byte>, ps: seq<seq<byte>>, c: byte, sep: byte)
    requires |ps| > 0
    ensures AddByte([s] + ps, c, sep) == [s] + AddByte(ps, c, sep)
  {
    var n := |ps| - 1;
    assert ([s] + ps)[..n + 1] == [s] + ps[..n];
  }

  lemma JoinCons(s: seq<byte>, ss: seq<seq<byte>>, sep: byte)
    requires ss != []
    ensures Join([s] + ss, sep) == s + [sep] + Join(ss, sep)
  {
    assert ([s] + ss)[1..] == ss;
  }

  // The pieces hold no separator and, joined, are the text again.
  lemma {:induction false} JoinOfSplit(b: seq<byte>, sep: byte)
    ensures Join(SplitOn(b, sep), sep) == b
    ensures forall p :: p in SplitOn(b, sep) ==> sep !in p
    decreases |b|
  {
    var i := IndexByte(b, sep);
    if i == -1 {
      SplitOnePiece(b, sep);
    } else {
      var s, rest := b[..i], b[i + 1..];
      CutAt(b, i);
      SplitCons(s, rest, sep);
      JoinOfSplit(rest, sep);
      JoinCons(s, SplitOn(rest, sep), sep);
    }
  }

  // Pieces that hold no separator are found again when they were joined.
  lemma {:induction false} SplitOfJoin(ss: seq<seq<byte>>, sep: byte)
    requires ss != [] && forall s :: s in ss ==> sep !in s
    ensures SplitOn(Join(ss, sep), sep) == ss
  {
    assert ss[0] in ss;
    if |ss| == 1 {
      SplitOnePiece(ss[0], sep);
    } else {
      SplitOfJoin(ss[1..], sep);
      SplitCons(ss[0], Join(ss[1..], sep), sep);
    }
  }
}
