// NUL-separated lists: nullTermToStrings, bytes.Split on a zero byte, and the
// search for the user name among startup parameters (cmd/psql/psql.go).
module NulList {
  import opened Bytes
  import opened Pieces
  import opened Wrappers

  const USER: seq<byte> := Ascii("user")

  // The strings that end in a NUL, in order; an unterminated tail is dropped.
  function NulStrings(b: seq<byte>): seq<seq<byte>>
    decreases |b|
  {
    var i := IndexByte(b, 0);
    if i == -1 then [] else [b[..i]] + NulStrings(b[i + 1..])
  }

  // What follows the last NUL.
  function Tail(b: seq<byte>): (t: seq<byte>)
    ensures 0 !in t
    decreases |b|
  {
    var i := IndexByte(b, 0);
    if i == -1 then b else Tail(b[i + 1..])
  }

  // bytes.Split(b, []byte{0})
  function Split(b: seq<byte>): (ps: seq<seq<byte>>)
    ensures |ps| > 0
  {
    SplitOn(b, 0)
  }

  function Terminated(ss: seq<seq<byte>>): seq<byte> {
    if ss == [] then [] else ss[0] + [0] + Terminated(ss[1..])
  }

  // The loop of nullTermToStrings: cut at each NUL from the front.
  method NullTermToStrings(b: seq<byte>) returns (s: seq<seq<byte>>)
    ensures s == NulStrings(b)
  {
    s := [];
    var rest := b;
    while true
      invariant NulStrings(b) == s + NulStrings(rest)
      decreases |rest|
    {
      var i := IndexByte(rest, 0);
      if i == -1 {
        break;
      }
      assert NulStrings(rest) == [rest[..i]] + NulStrings(rest[i + 1..]);
      s := s + [rest[..i]];
      rest := rest[i + 1..];
    }
  }

  lemma {:induction false} NulStringsOfTerminated(ss: seq<seq<byte>>, tail: seq<byte>)
    requires 0 !in tail
    ensures (NulStrings(Terminated(ss) + tail) == ss && Tail(Terminated(ss) + tail) == tail)
       <==> forall s :: s in ss ==> 0 !in s
  {
    var b := Terminated(ss) + tail;
    if ss == [] {
      assert b == tail;
    } else {
      var s, rest := ss[0], Terminated(ss[1..]) + tail;
      assert ss == [s] + ss[1..];
      Regroup(s + [0], Terminated(ss[1..]), tail);
      NulStringsOfTerminated(ss[1..], tail);
      if 0 !in s {
        NulStringsCons(s, rest);
        if NulStrings(b) == ss {
          assert NulStrings(rest) == NulStrings(b)[1..] == ss[1..];
        }
      } else {
        assert b[|s|] == 0;
        assert 0 !in NulStrings(b)[0];
      }
    }
  }

  lemma NulStringsCons(s: seq<byte>, rest: seq<byte>)
    requires 0 !in s
    ensures NulStrings(s + [0] + rest) == [s] + NulStrings(rest)
    ensures Tail(s + [0] + rest) == Tail(rest)
  {
    var b := s + [0] + rest;
    assert b[..|s|] == s && b[|s| + 1..] == rest && b[|s|] == 0;
    IndexByteIsFirst(b, 0, |s|);
  }

  lemma TerminatedCons(s: seq<byte>, ss: seq<seq<byte>>)
    ensures Terminated([s] + ss) == s + [0] + Terminated(ss)
  {
    assert ([s] + ss)[1..] == ss;
  }

  // Decoding is the inverse of encoding in the other direction as well: the
  // strings and the tail determine the bytes, and none of them holds a NUL.
  lemma {:induction false} TerminatedOfNulStrings(b: seq<byte>)
    ensures Terminated(NulStrings(b)) + Tail(b) == b
    ensures forall s :: s in NulStrings(b) ==> 0 !in s
    decreases |b|
  {
    var i := IndexByte(b, 0);
    if i == -1 {
      assert [] + b == b;
    } else {
      var s, rest := b[..i], b[i + 1..];
      TerminatedOfNulStrings(rest);
      TerminatedCons(s, NulStrings(rest));
      Regroup(s + [0], Terminated(NulStrings(rest)), Tail(rest));
      CutAt(b, i);
    }
  }

  // Splitting gives the terminated strings and, as one more piece, the tail.
  lemma {:induction false} SplitIsNulStringsAndTail(b: seq<byte>)
    ensures Split(b) == NulStrings(b) + [Tail(b)]
    decreases |b|
  {
    var i := IndexByte(b, 0);
    if i == -1 {
      SplitOnePiece(b, 0);
    } else {
      var s, rest := b[..i], b[i + 1..];
      CutAt(b, i);
      SplitCons(s, rest, 0);
      SplitIsNulStringsAndTail(rest);
      Regroup([s], NulStrings(rest), [Tail(rest)]);
    }
  }

  // ---- The user name ----

  // The variable user after the first n pieces: each piece equal to "user",
  // whether it stands at a key or at a value, takes the piece that follows.
  function UserAfter(params: seq<seq<byte>>, n: nat): seq<byte>
    requires n <= |params|
  {
    if n == 0 then []
    else if params[n - 1] == USER && n < |params| then params[n]
    else UserAfter(params, n - 1)
  }

  predicate EndsInUser(params: seq<seq<byte>>) {
    |params| > 0 && params[|params| - 1] == USER
  }

  // The search loop; it indexes past the end when the last piece is "user".
  method FindUser(params: seq<seq<byte>>) returns (user: seq<byte>, crash: bool)
    ensures crash <==> EndsInUser(params)
    ensures !crash ==> user == UserAfter(params, |params|)
  {
    user := [];
    for n := 0 to |params|
      invariant user == UserAfter(params, n)
      invariant n == |params| ==> !EndsInUser(params)
    {
      if params[n] == USER {
        if n + 1 == |params| {
          return user, true;
        }
        user := params[n + 1];
      }
    }
    crash := false;
  }

  // The index is in range for every body that ends in a NUL; over all bodies it
  // fails for exactly those whose unterminated tail is "user".
  lemma UserIndexInRange(body: seq<byte>)
    ensures EndsInUser(Split(body)) <==> Tail(body) == USER
    ensures |body| > 0 && body[|body| - 1] == 0 ==> !EndsInUser(Split(body))
  {
    SplitIsNulStringsAndTail(body);
    if |body| > 0 && body[|body| - 1] == 0 {
      assert Split(body)[|Split(body)| - 1] == [];
    }
  }

  // A startup parameter: a name and its value.
  datatype Param = Param(name: seq<byte>, value: seq<byte>)

  function Flat(ps: seq<Param>): (r: seq<seq<byte>>)
    ensures |r| == 2 * |ps|
  {
    if ps == [] then [] else Flat(ps[..|ps| - 1]) + [ps[|ps| - 1].name, ps[|ps| - 1].value]
  }

  // The body a client sends: each name and value terminated, then one more NUL.
  function StartupBody(ps: seq<Param>): seq<byte> {
    Terminated(Flat(ps)) + [0]
  }

  predicate NulFree(ps: seq<Param>) {
    forall p :: p in ps ==> 0 !in p.name && 0 !in p.value
  }

  // The value the protocol means: that of the last parameter named "user".
  function NamedUser(ps: seq<Param>): seq<byte> {
    if ps == [] then []
    else if ps[|ps| - 1].name == USER then ps[|ps| - 1].value
    else NamedUser(ps[..|ps| - 1])
  }

  // No value at or behind the last parameter named "user" is itself "user".
  predicate NoStrayUser(ps: seq<Param>) {
    ps != [] ==>
      && ps[|ps| - 1].value != USER
      && (ps[|ps| - 1].name == USER || NoStrayUser(ps[..|ps| - 1]))
  }

  // The name that follows the last value equal to "user" (empty at the end).
  function NameAfterStray(ps: seq<Param>, next: seq<byte>): seq<byte> {
    if ps == [] then next
    else if ps[|ps| - 1].value == USER then next
    else NameAfterStray(ps[..|ps| - 1], ps[|ps| - 1].name)
  }

  lemma {:induction false} SplitStartupBody(ps: seq<Param>)
    requires NulFree(ps)
    ensures Split(StartupBody(ps)) == Flat(ps) + [[], []]
  {
    var ss := Flat(ps) + [[]];
    FlatNulFree(ps);
    TerminatedSnoc(Flat(ps), []);
    assert Terminated(ss) + [] == Terminated(ss) == StartupBody(ps);
    assert forall s :: s in ss ==> 0 !in s;
    NulStringsOfTerminated(ss, []);
    SplitIsNulStringsAndTail(StartupBody(ps));
  }

  lemma {:induction false} FlatNulFree(ps: seq<Param>)
    requires NulFree(ps)
    ensures forall s :: s in Flat(ps) ==> 0 !in s
  {
    if ps != [] {
      FlatNulFree(ps[..|ps| - 1]);
      assert ps[|ps| - 1] in ps;
    }
  }

  lemma {:induction false} TerminatedSnoc(ss: seq<seq<byte>>, s: seq<byte>)
    ensures Terminated(ss + [s]) == Terminated(ss) + s + [0]
  {
    if ss == [] {
      assert [s][1..] == [];
    } else {
      assert (ss + [s])[1..] == ss[1..] + [s];
      TerminatedSnoc(ss[1..], s);
    }
  }

  lemma {:induction false} UserAfterPairs(ps: seq<Param>, rest: seq<seq<byte>>)
    requires |rest| > 0
    ensures UserAfter(Flat(ps) + rest, 2 * |ps|)
         == if NoStrayUser(ps) then NamedUser(ps) else NameAfterStray(ps, rest[0])
  {
    if ps != [] {
      var last, front := ps[|ps| - 1], ps[..|ps| - 1];
      var rest' := [last.name, last.value] + rest;
      assert Flat(ps) + rest == Flat(front) + rest';
      UserAfterPairs(front, rest');
      assert (Flat(front) + rest')[2 * |front|] == last.name;
      assert (Flat(front) + rest')[2 * |front| + 1] == last.value;
      assert (Flat(front) + rest')[2 * |front| + 2] == rest[0];
    }
  }

  // The user recorded for a well-formed startup body. It is the protocol's user
  // if no value at or behind the last "user" parameter is "user"; otherwise it
  // is the name of the parameter after that value.
  lemma UserFound(ps: seq<Param>)
    requires NulFree(ps)
    ensures var params := Split(StartupBody(ps));
            && !EndsInUser(params)
            && UserAfter(params, |params|) == (if NoStrayUser(ps) then NamedUser(ps) else NameAfterStray(ps, []))
  {
    SplitStartupBody(ps);
    UserAfterPairs(ps, [[], []]);
    var params := Split(StartupBody(ps));
    assert params[2 * |ps|] == [] && params[2 * |ps| + 1] == [];
  }

  // So it is right exactly when no value strays, or the following name happens
  // to be the user's name; and it is always wrong for a user called "user".
  lemma UserRightIff(ps: seq<Param>)
    requires NulFree(ps)
    ensures var params := Split(StartupBody(ps));
            (UserAfter(params, |params|) == NamedUser(ps)
             <==> NoStrayUser(ps) || NameAfterStray(ps, []) == NamedUser(ps))
    ensures var params := Split(StartupBody(ps));
            NamedUser(ps) == USER ==> UserAfter(params, |params|) != NamedUser(ps)
  {
    UserFound(ps);
    if NamedUser(ps) == USER {
      UserCalledUser(ps, []);
    }
  }

  lemma {:induction false} UserCalledUser(ps: seq<Param>, next: seq<byte>)
    requires NamedUser(ps) == USER && next != USER
    ensures !NoStrayUser(ps) && NameAfterStray(ps, next) != USER
  {
    var last := ps[|ps| - 1];
    if last.value != USER {
      UserCalledUser(ps[..|ps| - 1], last.name);
    }
  }
}
