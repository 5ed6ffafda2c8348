// Sessions of the PostgreSQL trap by what clients send: any number of requests for
// encryption, a startup packet, and then a password, nothing, or something broken.
// Message types, lengths and codes are spelled out here as bytes.
module Clients {
  import opened Bytes
  import opened Frames
  import opened NulList
  import opened Pieces
  import opened Session
  import opened Wrappers

  // ---- Before the startup packet ----

  // Requests for encryption; the trap does not look at their lengths.
  function SslRequests(lengths: seq<int>): seq<byte> {
    if lengths == [] then [] else Be32(lengths[0]) + [4, 210, 22, 47] + SslRequests(lengths[1..])
  }

  function StartupPacket(version: int, body: seq<byte>): seq<byte> {
    Be32(|body| + 8) + Be32(version) + body
  }

  predicate StartupFits(version: int, body: seq<byte>) {
    |body| + 8 < TWO_TO_THE_32 && 0 <= version < TWO_TO_THE_32 && version != 80877103
  }

  // The first n writes succeed.
  predicate WritesOk(faults: seq<Fault>, n: nat) {
    forall i :: 0 <= i < n ==> FaultAt(faults, i).error.NoError?
  }

  predicate NoFaults(faults: seq<Fault>) {
    forall f :: f in faults ==> f.error.NoError?
  }

  // An 'N' for each request.
  function Ns(n: nat): (r: seq<byte>)
    ensures |r| == n && forall c :: c in r ==> c == 78
  {
    if n == 0 then [] else [78] + Ns(n - 1)
  }

  lemma HeaderBytes(a: int, b: int, tail: seq<byte>)
    requires 0 <= b < TWO_TO_THE_32
    ensures var input := Be32(a) + Be32(b) + tail;
            && |input| >= 8 && FromBe32(input) == a % TWO_TO_THE_32 && FromBe32(input[4..]) == b && input[8..] == tail
  {
    var input := Be32(a) + Be32(b) + tail;
    assert input == Be32(a) + (Be32(b) + tail);
    Be32RoundTrip(a, Be32(b) + tail);
    assert input[4..] == Be32(b) + tail;
    Be32RoundTrip(b, tail);
  }

  lemma SslCode()
    ensures Be32(80877103) == [4, 210, 22, 47]
  {
    BigEndian(4, 210, 22, 47, []);
  }

  // One request, answered or not.
  lemma StartAtSsl(length: int, rest: seq<byte>, output: seq<byte>, faults: seq<Fault>, k: nat)
    ensures var input := Be32(length) + [4, 210, 22, 47] + rest;
            Start(input, output, faults, k)
            == if FaultAt(faults, k).error.NoError? then Start(rest, output + [78], faults, k + 1)
               else NoStartup(output + Leaves([78], FaultAt(faults, k)))
  {
    SslCode();
    HeaderBytes(length, 80877103, rest);
  }

  lemma {:induction false} StartAfterRequests(lengths: seq<int>, rest: seq<byte>, output: seq<byte>, faults: seq<Fault>,
                                              k: nat)
    requires forall i :: k <= i < k + |lengths| ==> FaultAt(faults, i).error.NoError?
    ensures Start(SslRequests(lengths) + rest, output, faults, k)
         == Start(rest, output + Ns(|lengths|), faults, k + |lengths|)
  {
    if lengths == [] {
      assert SslRequests(lengths) + rest == rest && output + Ns(0) == output;
    } else {
      var later := SslRequests(lengths[1..]) + rest;
      Regroup(Be32(lengths[0]) + [4, 210, 22, 47], SslRequests(lengths[1..]), rest);
      StartAtSsl(lengths[0], later, output, faults, k);
      StartAfterRequests(lengths[1..], rest, output + [78], faults, k + 1);
      Regroup(output, [78], Ns(|lengths| - 1));
    }
  }

  lemma StartAtPacket(version: int, body: seq<byte>, tail: seq<byte>, output: seq<byte>, faults: seq<Fault>, k: nat)
    requires StartupFits(version, body)
    ensures Start(StartupPacket(version, body) + tail, output, faults, k) == Ready(body, tail, output, k)
  {
    var input := StartupPacket(version, body) + tail;
    Regroup(Be32(|body| + 8) + Be32(version), body, tail);
    HeaderBytes(|body| + 8, version, body + tail);
    var n := |body|;
    assert input[8..8 + n] == input[8..][..n] == body && input[8 + n..] == input[8..][n..] == tail;
  }

  // After any number of requests, each answered with 'N', the startup body is read
  // and nothing beyond it.
  lemma StartAfterSsl(lengths: seq<int>, version: int, body: seq<byte>, tail: seq<byte>, faults: seq<Fault>)
    requires StartupFits(version, body) && WritesOk(faults, |lengths|)
    ensures Start(SslRequests(lengths) + (StartupPacket(version, body) + tail), [], faults, 0)
         == Ready(body, tail, Ns(|lengths|), |lengths|)
  {
    StartAfterRequests(lengths, StartupPacket(version, body) + tail, [], faults, 0);
    assert [] + Ns(|lengths|) == Ns(|lengths|);
    StartAtPacket(version, body, tail, Ns(|lengths|), faults, |lengths|);
  }

  // No startup packet: the input ends before eight bytes, or the length is below
  // eight, or the input ends before the length says.
  predicate NoPacket(rest: seq<byte>) {
    |rest| >= 8 ==> rest[4..8] != [4, 210, 22, 47] && (Length(rest) < 8 || |rest| < Length(rest))
  }

  // The value of the first four bytes.
  function Length(b: seq<byte>): nat
    requires |b| >= 4
  {
    Value32(b[0], b[1], b[2], b[3])
  }

  lemma LengthIs(b: seq<byte>)
    requires |b| >= 4
    ensures FromBe32(b) == Length(b) && Be32(Length(b)) == b[..4]
  {
    var tail := b[4..];
    assert b == [b[0], b[1], b[2], b[3]] + tail;
    BigEndian(b[0], b[1], b[2], b[3], tail);
  }

  // A session without a startup packet reports nothing; it panics exactly when a
  // length is below eight.
  lemma NoPacketSession(lengths: seq<int>, rest: seq<byte>, faults: seq<Fault>)
    requires WritesOk(faults, |lengths|) && NoPacket(rest)
    ensures Run(SslRequests(lengths) + rest, [], faults, 0)
         == Outcome([], Ns(|lengths|), |rest| >= 8 && Length(rest) < 8)
  {
    StartOfNoPacket(lengths, rest, faults);
    RunWithoutPacket(SslRequests(lengths) + rest, faults, Ns(|lengths|), |rest| >= 8 && Length(rest) < 8);
  }

  lemma RunWithoutPacket(input: seq<byte>, faults: seq<Fault>, output: seq<byte>, crashed: bool)
    requires Start(input, [], faults, 0) == if crashed then StartupCrash(output) else NoStartup(output)
    ensures Run(input, [], faults, 0) == Outcome([], output, crashed)
  {
  }

  lemma StartOfNoPacket(lengths: seq<int>, rest: seq<byte>, faults: seq<Fault>)
    requires WritesOk(faults, |lengths|) && NoPacket(rest)
    ensures Start(SslRequests(lengths) + rest, [], faults, 0)
         == if |rest| >= 8 && Length(rest) < 8 then StartupCrash(Ns(|lengths|)) else NoStartup(Ns(|lengths|))
  {
    StartAfterRequests(lengths, rest, [], faults, 0);
    assert [] + Ns(|lengths|) == Ns(|lengths|);
    StartWithoutPacket(rest, Ns(|lengths|), faults, |lengths|);
  }

  lemma StartWithoutPacket(rest: seq<byte>, output: seq<byte>, faults: seq<Fault>, k: nat)
    requires NoPacket(rest)
    ensures Start(rest, output, faults, k)
         == if |rest| >= 8 && Length(rest) < 8 then StartupCrash(output) else NoStartup(output)
  {
    if |rest| >= 8 {
      LengthIs(rest);
      NotSsl(rest[4..]);
      assert rest[4..][..4] == rest[4..8];
    }
  }

  lemma NotSsl(b: seq<byte>)
    requires |b| >= 4 && b[..4] != [4, 210, 22, 47]
    ensures FromBe32(b) != SSL_REQUEST
  {
    LengthIs(b);
    SslCode();
  }

  // So does one in which an answer to a request cannot be written.
  lemma UnansweredRequest(lengths: seq<int>, rest: seq<byte>, faults: seq<Fault>)
    requires lengths != [] && WritesOk(faults, |lengths| - 1) && !FaultAt(faults, |lengths| - 1).error.NoError?
    ensures var n := |lengths| - 1;
            Run(SslRequests(lengths) + rest, [], faults, 0)
            == Outcome([], Ns(n) + Leaves([78], FaultAt(faults, n)), false)
  {
    RefusedRequest(lengths, rest, faults);
  }

  lemma RefusedRequest(lengths: seq<int>, rest: seq<byte>, faults: seq<Fault>)
    requires lengths != [] && WritesOk(faults, |lengths| - 1) && !FaultAt(faults, |lengths| - 1).error.NoError?
    ensures var n := |lengths| - 1;
            Start(SslRequests(lengths) + rest, [], faults, 0) == NoStartup(Ns(n) + Leaves([78], FaultAt(faults, n)))
  {
    var n := |lengths| - 1;
    RequestsSnoc(lengths, rest);
    var last := Be32(lengths[n]) + [4, 210, 22, 47] + rest;
    StartAfterRequests(lengths[..n], last, [], faults, 0);
    assert [] + Ns(n) == Ns(n);
    StartAtSsl(lengths[n], rest, Ns(n), faults, n);
  }

  lemma {:induction false} RequestsSnoc(lengths: seq<int>, rest: seq<byte>)
    requires lengths != []
    ensures var n := |lengths| - 1;
            SslRequests(lengths) + rest
            == SslRequests(lengths[..n]) + (Be32(lengths[n]) + [4, 210, 22, 47] + rest)
  {
    var n := |lengths| - 1;
    var first := Be32(lengths[0]) + [4, 210, 22, 47];
    Regroup(first, SslRequests(lengths[1..]), rest);
    if n == 0 {
      assert SslRequests(lengths[1..]) + rest == rest && SslRequests(lengths[..0]) + (first + rest) == first + rest;
    } else {
      RequestsSnoc(lengths[1..], rest);
      assert lengths[..n][1..] == lengths[1..][..n - 1] && lengths[..n][0] == lengths[0];
      Regroup(first, SslRequests(lengths[..n][1..]), Be32(lengths[n]) + [4, 210, 22, 47] + rest);
    }
  }

  // ---- Behind the startup packet ----

  // Messages that the trap passes over.
  predicate Notices(ms: seq<Msg>) {
    forall m :: m in ms ==> m.tag == 78 && Fits(m)
  }

  lemma {:induction false} RecvAfterNotices(ms: seq<Msg>, rest: seq<byte>)
    requires Notices(ms)
    ensures Recv(Stream(ms) + rest) == Recv(rest)
  {
    if ms == [] {
      assert Stream(ms) + rest == rest;
    } else {
      Regroup(Frame(ms[0]), Stream(ms[1..]), rest);
      ReceiveFrame(ms[0], Stream(ms[1..]) + rest);
      RecvAfterNotices(ms[1..], rest);
    }
  }

  // No message any more: the input ends before five bytes or before the length says,
  // or an error message comes.
  predicate NoMessage(rest: seq<byte>) {
    |rest| >= 5 ==> Length(rest[1..]) >= 4 && (|rest| < 1 + Length(rest[1..]) || rest[0] == 69)
  }

  // A length below four, or a message without a payload.
  predicate BrokenMessage(rest: seq<byte>) {
    |rest| >= 5 && (Length(rest[1..]) < 4 || (Length(rest[1..]) == 4 && rest[0] != 69 && rest[0] != 78))
  }

  lemma ReceiveLength(rest: seq<byte>)
    requires |rest| >= 5
    ensures FromBe32(rest[1..5]) == Length(rest[1..])
  {
    LengthIs(rest[1..5]);
  }

  lemma RecvNothing(rest: seq<byte>)
    requires NoMessage(rest)
    ensures Recv(rest) == NoReply
  {
    if |rest| >= 5 {
      ReceiveLength(rest);
    }
  }

  lemma RecvBroken(rest: seq<byte>)
    requires BrokenMessage(rest)
    ensures PanicsIn(Recv(rest))
  {
    ReceiveLength(rest);
  }

  // The request for a password, as it goes out.
  const REQUEST: seq<byte> := [82, 0, 0, 0, 8, 0, 0, 0, 3]

  lemma RequestIs()
    ensures Frame(AUTH_REQUEST) == REQUEST
  {
    BigEndian(0, 0, 0, 8, []);
    BigEndian(0, 0, 0, 3, []);
    assert AUTH_REQUEST.tag == 82 && AUTH_REQUEST.payload == [0, 0, 0, 3];
    assert Frame(AUTH_REQUEST) == [82] + [0, 0, 0, 8] + [0, 0, 0, 3];
  }

  // After the startup packet, over any body whose unterminated tail is not "user".
  lemma RunSession(lengths: seq<int>, version: int, body: seq<byte>, rest: seq<byte>, faults: seq<Fault>)
    requires StartupFits(version, body) && WritesOk(faults, |lengths|) && Tail(body) != USER
    ensures var (user, n) := (UserAfter(Split(body), |Split(body)|), |lengths|);
            var sent := Ns(n) + Leaves(REQUEST, FaultAt(faults, n));
            Run(SslRequests(lengths) + (StartupPacket(version, body) + rest), [], faults, 0)
            == if FaultAt(faults, n).error.Eof? then Outcome([EventOf(user, [], body)], sent, false)
               else Report(user, body, Recv(rest), sent, FaultAt(faults, n + 1))
  {
    StartAfterSsl(lengths, version, body, rest, faults);
    UserIndexInRange(body);
    RequestIs();
  }

  // ---- Well-formed clients ----

  // What the trap takes for the user of these parameters.
  function RecordedUser(ps: seq<Param>): seq<byte> {
    if NoStrayUser(ps) then NamedUser(ps) else NameAfterStray(ps, [])
  }

  // The report on a client with these parameters.
  function Reported(ps: seq<Param>, password: seq<byte>): Event {
    Event(RecordedUser(ps), password, Join(Flat(ps) + [[]], 124))
  }

  // Requests for encryption, a startup packet with these parameters, and more.
  function Opening(lengths: seq<int>, version: int, ps: seq<Param>, rest: seq<byte>): seq<byte> {
    SslRequests(lengths) + (StartupPacket(version, StartupBody(ps)) + rest)
  }

  predicate WellFormed(version: int, ps: seq<Param>) {
    NulFree(ps) && StartupFits(version, StartupBody(ps))
  }

  lemma BodyOf(ps: seq<Param>)
    requires NulFree(ps)
    ensures var body := StartupBody(ps);
            && Tail(body) != USER && UserAfter(Split(body), |Split(body)|) == RecordedUser(ps)
            && forall password :: EventOf(RecordedUser(ps), password, body) == Reported(ps, password)
  {
    UserIndexInRange(StartupBody(ps));
    UserFound(ps);
    BodyStrings(ps);
  }

  // When the request for a password meets the end of the connection, one event is
  // sent, without a password, whatever the client sent behind the startup packet.
  lemma LostSession(lengths: seq<int>, version: int, ps: seq<Param>, rest: seq<byte>, faults: seq<Fault>)
    requires WellFormed(version, ps) && WritesOk(faults, |lengths|) && FaultAt(faults, |lengths|).error.Eof?
    ensures Run(Opening(lengths, version, ps, rest), [], faults, 0)
         == Outcome([Reported(ps, [])], Ns(|lengths|) + Leaves(REQUEST, FaultAt(faults, |lengths|)), false)
  {
    BodyOf(ps);
    RunSession(lengths, version, StartupBody(ps), rest, faults);
  }

  // A client that sends no password, because it leaves, breaks off inside a message
  // or reports an error: one event, without a password.
  lemma SilentSession(lengths: seq<int>, version: int, ps: seq<Param>, notices: seq<Msg>, rest: seq<byte>,
                      faults: seq<Fault>)
    requires WellFormed(version, ps) && WritesOk(faults, |lengths|) && Notices(notices) && NoMessage(rest)
    ensures Run(Opening(lengths, version, ps, Stream(notices) + rest), [], faults, 0)
         == Outcome([Reported(ps, [])], Ns(|lengths|) + Leaves(REQUEST, FaultAt(faults, |lengths|)), false)
  {
    BodyOf(ps);
    RunSession(lengths, version, StartupBody(ps), Stream(notices) + rest, faults);
    RecvAfterNotices(notices, rest);
    RecvNothing(rest);
  }

  // A client that sends something broken: no event, as the session panics.
  lemma BrokenSession(lengths: seq<int>, version: int, ps: seq<Param>, notices: seq<Msg>, rest: seq<byte>,
                      faults: seq<Fault>)
    requires WellFormed(version, ps) && WritesOk(faults, |lengths|) && !FaultAt(faults, |lengths|).error.Eof?
    requires Notices(notices) && BrokenMessage(rest)
    ensures Run(Opening(lengths, version, ps, Stream(notices) + rest), [], faults, 0)
         == Outcome([], Ns(|lengths|) + Leaves(REQUEST, FaultAt(faults, |lengths|)), true)
  {
    BodyOf(ps);
    RunSession(lengths, version, StartupBody(ps), Stream(notices) + rest, faults);
    RecvAfterNotices(notices, rest);
    RecvBroken(rest);
  }

  // A message with a payload, of any type but 'E' and 'N'.
  predicate Answer(m: Msg) {
    Fits(m) && m.tag != 69 && m.tag != 78 && m.payload != []
  }

  // A client that sends a password: one event with that password, whether or not
  // the rejection can be written.
  lemma AnsweredSession(lengths: seq<int>, version: int, ps: seq<Param>, notices: seq<Msg>, m: Msg, tail: seq<byte>,
                        faults: seq<Fault>)
    requires WellFormed(version, ps) && WritesOk(faults, |lengths|) && !FaultAt(faults, |lengths|).error.Eof?
    requires Notices(notices) && Answer(m)
    ensures var n := |lengths|;
            Run(Opening(lengths, version, ps, Stream(notices) + (Frame(m) + tail)), [], faults, 0)
            == Outcome([Reported(ps, m.payload[..|m.payload| - 1])],
                       Ns(n) + Leaves(REQUEST, FaultAt(faults, n))
                       + Leaves(Frame(ErrorReply(RecordedUser(ps))), FaultAt(faults, n + 1)), false)
  {
    BodyOf(ps);
    RunSession(lengths, version, StartupBody(ps), Stream(notices) + (Frame(m) + tail), faults);
    RecvAfterNotices(notices, Frame(m) + tail);
    ReceiveFrame(m, tail);
  }

  // End to end: any number of SSL requests, a startup packet with any well-formed
  // parameters, any number of notices and a NUL-terminated password message
  // produce exactly one event, with that password, and the output is one 'N' per
  // SSL request followed by two messages that parse back.
  lemma WholeSession(lengths: seq<int>, version: int, ps: seq<Param>, notices: seq<Msg>, tag: byte,
                     password: seq<byte>, tail: seq<byte>, faults: seq<Fault>)
    requires WellFormed(version, ps) && NoFaults(faults)
    requires Notices(notices) && tag != 69 && tag != 78 && |password| + 5 < TWO_TO_THE_32
    ensures var user := RecordedUser(ps);
            var rest := Stream(notices) + (Frame(Msg(tag, password + [0])) + tail);
            var replies := [Msg(82, [0, 0, 0, 3]), Msg(69, Rejection(user))];
            && Run(Opening(lengths, version, ps, rest), [], faults, 0)
               == Outcome([Reported(ps, password)], Ns(|lengths|) + Stream(replies), false)
            && (Fits(replies[1]) ==> Parse(Stream(replies)) == Some(replies))
            && NulStrings(replies[1].payload) == ErrorFields(user)
  {
    WholeRun(lengths, version, ps, notices, tag, password, tail, faults);
    BodyOf(ps);
    UserNulFree(StartupBody(ps));
    RepliesAre(RecordedUser(ps));
    RejectionIs(RecordedUser(ps));
    ErrorFieldsReadBack(RecordedUser(ps));
  }

  lemma WholeRun(lengths: seq<int>, version: int, ps: seq<Param>, notices: seq<Msg>, tag: byte, password: seq<byte>,
                 tail: seq<byte>, faults: seq<Fault>)
    requires WellFormed(version, ps) && NoFaults(faults)
    requires Notices(notices) && tag != 69 && tag != 78 && |password| + 5 < TWO_TO_THE_32
    ensures var rest := Stream(notices) + (Frame(Msg(tag, password + [0])) + tail);
            Run(Opening(lengths, version, ps, rest), [], faults, 0)
            == Outcome([Reported(ps, password)],
                       Ns(|lengths|) + (REQUEST + Frame(ErrorReply(RecordedUser(ps)))), false)
  {
    var m := Msg(tag, password + [0]);
    assert m.payload[..|m.payload| - 1] == password;
    UndisturbedSession(lengths, version, ps, notices, m, tail, faults);
  }

  lemma UndisturbedSession(lengths: seq<int>, version: int, ps: seq<Param>, notices: seq<Msg>, m: Msg, tail: seq<byte>,
                           faults: seq<Fault>)
    requires WellFormed(version, ps) && NoFaults(faults) && Notices(notices) && Answer(m)
    ensures Run(Opening(lengths, version, ps, Stream(notices) + (Frame(m) + tail)), [], faults, 0)
         == Outcome([Reported(ps, m.payload[..|m.payload| - 1])],
                    Ns(|lengths|) + (REQUEST + Frame(ErrorReply(RecordedUser(ps)))), false)
  {
    AnsweredSession(lengths, version, ps, notices, m, tail, faults);
    AllLeaves(REQUEST, faults, |lengths|);
    AllLeaves(Frame(ErrorReply(RecordedUser(ps))), faults, |lengths| + 1);
    Regroup(Ns(|lengths|), REQUEST, Frame(ErrorReply(RecordedUser(ps))));
  }

  lemma AllLeaves(d: seq<byte>, faults: seq<Fault>, k: nat)
    requires NoFaults(faults)
    ensures Leaves(d, FaultAt(faults, k)) == d
  {
  }

  lemma RepliesAre(user: seq<byte>)
    ensures var replies := [Msg(82, [0, 0, 0, 3]), Msg(69, Rejection(user))];
            && REQUEST + Frame(ErrorReply(user)) == Stream(replies)
            && (Fits(replies[1]) ==> Parse(Stream(replies)) == Some(replies))
  {
    RequestIs();
    RejectionIs(user);
    BigEndian(0, 0, 0, 3, []);
    StreamOfTwo(AUTH_REQUEST, ErrorReply(user));
    ParseStream([AUTH_REQUEST, ErrorReply(user)]);
  }

  lemma StreamOfTwo(a: Msg, b: Msg)
    ensures Stream([a, b]) == Frame(a) + Frame(b)
  {
    assert [a, b] == [a] + [b];
    StreamSnoc([a], b);
    StreamSnoc([], a);
    assert [] + [a] == [a];
    assert Stream([]) + Frame(a) == Frame(a);
  }

  // The text of a string and the NUL behind it.
  function Text(s: string): seq<byte> {
    Ascii(s) + [0]
  }

  // The rejection, field by field: severity, code, message, file, line and routine.
  function Rejection(user: seq<byte>): seq<byte> {
    Text("SFATAL") + (Text("C28P01")
    + (Ascii("Mpassword authentication failed for user \"") + user + Text("\"")
    + (Text("Fauth.c") + (Text("L288") + (Text("Rauth_failed") + [0])))))
  }

  lemma RejectionIs(user: seq<byte>)
    ensures ErrorReply(user) == Msg(69, Rejection(user))
  {
    var fs := ErrorFields(user);
    TerminatedFrom(fs, 0);
    TerminatedFrom(fs, 1);
    TerminatedFrom(fs, 2);
    TerminatedFrom(fs, 3);
    TerminatedFrom(fs, 4);
    TerminatedFrom(fs, 5);
    TerminatedFrom(fs, 6);
    assert fs[0..] == fs && fs[7..] == [];
    assert [] + [0] + [] == [0];
    Regroup(Ascii("Mpassword authentication failed for user \"") + user, Ascii("\""), [0]);
  }

  lemma TerminatedFrom(ss: seq<seq<byte>>, i: nat)
    requires i < |ss|
    ensures Terminated(ss[i..]) == ss[i] + [0] + Terminated(ss[i + 1..])
  {
    assert ss[i..][1..] == ss[i + 1..];
  }

  // ---- One parameter ----

  // A client that gives nothing but its user name, as long as that is not "user":
  // the user and the parameters that are reported.
  lemma OneParameter(user: seq<byte>, password: seq<byte>)
    requires user != Ascii("user")
    ensures Reported([Param(Ascii("user"), user)], password)
         == Event(user, password, Ascii("user") + [124] + (user + [124]))
  {
    var ps := [Param(Ascii("user"), user)];
    assert ps[..0] == [] && Flat(ps) == [] + [Ascii("user"), user];
    var pieces := [Ascii("user")] + ([user] + [[]]);
    assert Flat(ps) + [[]] == pieces;
    JoinCons(Ascii("user"), [user] + [[]], 124);
    JoinCons(user, [[]], 124);
    assert user + [124] + [] == user + [124];
  }
}
