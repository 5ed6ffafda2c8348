// One client session of the PostgreSQL trap as a function of the bytes the
// client sends and of how the writes fare (cmd/psql/psql.go, handleClient). There
// is no memory here: Handler.dfy is the code over shared arrays, and refines it.
module Session {
  import opened Bytes
  import opened Frames
  import opened NulList
  import opened Pieces
  import opened Wrappers

  const SSL_REQUEST := 80877103
  const TAG_R: byte := 'R' as int
  const TAG_E: byte := 'E' as int
  const TAG_N: byte := 'N' as int

  datatype IoError = NoError | Eof | OtherError

  // How one Write on the connection fares: on an error only sent bytes leave.
  datatype Fault = Fault(error: IoError, sent: nat)

  // Writes beyond the listed ones succeed.
  function FaultAt(faults: seq<Fault>, k: nat): Fault {
    if k < |faults| then faults[k] else Fault(NoError, 0)
  }

  function Leaves(d: seq<byte>, f: Fault): seq<byte> {
    if f.error.NoError? || |d| <= f.sent then d else d[..f.sent]
  }

  // The fields of api.Event that depend on what the client sent.
  datatype Event = Event(user: seq<byte>, password: seq<byte>, version: seq<byte>)

  // strings.Join(ss, "|")
  function JoinBars(ss: seq<seq<byte>>): seq<byte> {
    Join(ss, '|' as int)
  }

  function EventOf(user: seq<byte>, password: seq<byte>, body: seq<byte>): Event {
    Event(user, password, JoinBars(NulStrings(body)))
  }

  datatype Startup =
    | Ready(body: seq<byte>, rest: seq<byte>, output: seq<byte>, writes: nat)
    | NoStartup(output: seq<byte>)
    | StartupCrash(output: seq<byte>)

  // recvStartMessage: answer SSL requests with 'N' (without looking at their
  // length) until another version arrives, then take its body.
  function Start(input: seq<byte>, output: seq<byte>, faults: seq<Fault>, k: nat): (r: Startup)
    ensures r.Ready? ==> |r.rest| < |input|
  {
    if |input| < 8 then NoStartup(output)
    else
      var n, version := FromBe32(input) - 8, FromBe32(input[4..]);
      if version == SSL_REQUEST then
        var out := output + Leaves([TAG_N], FaultAt(faults, k));
        if FaultAt(faults, k).error.NoError? then Start(input[8..], out, faults, k + 1) else NoStartup(out)
      else if n < 0 then StartupCrash(output)
      else if |input| < 8 + n then NoStartup(output)
      else Ready(input[8..8 + n], input[8 + n..], output, k)
  }

  datatype Reply = Reply(msg: Msg, rest: seq<byte>) | NoReply | ReplyCrash

  // recv: skip 'N' messages; an 'E' message or the end of input is an error.
  function Recv(input: seq<byte>): Reply
    decreases |input|
  {
    match Receive(input)
    case Short => NoReply
    case Crash => ReplyCrash
    case Got(m, rest) =>
      if m.tag == TAG_E then NoReply
      else if m.tag == TAG_N then Recv(rest)
      else Reply(m, rest)
  }

  const AUTH_REQUEST := Msg(TAG_R, Be32(3))

  function ErrorFields(user: seq<byte>): (fs: seq<seq<byte>>)
    ensures |fs| == 7
  {
    [ Ascii("SFATAL"), Ascii("C28P01"),
      Ascii("Mpassword authentication failed for user \"") + user + Ascii("\""),
      Ascii("Fauth.c"), Ascii("L288"), Ascii("Rauth_failed"), [] ]
  }

  function ErrorReply(user: seq<byte>): Msg {
    Msg(TAG_E, Terminated(ErrorFields(user)))
  }

  datatype Outcome = Outcome(events: seq<Event>, output: seq<byte>, crashed: bool)

  // handleClient
  function Run(input: seq<byte>, output: seq<byte>, faults: seq<Fault>, k: nat): Outcome {
    match Start(input, output, faults, k)
    case NoStartup(out) => Outcome([], out, false)
    case StartupCrash(out) => Outcome([], out, true)
    case Ready(body, rest, out, k') => Greet(body, rest, out, FaultAt(faults, k'), FaultAt(faults, k' + 1))
  }

  // Look up the user and ask for a password; of all errors only EOF is noticed.
  function Greet(body: seq<byte>, input: seq<byte>, output: seq<byte>, f: Fault, f': Fault): Outcome {
    var params := Split(body);
    if EndsInUser(params) then Outcome([], output, true)
    else
      var user, out := UserAfter(params, |params|), output + Leaves(Frame(AUTH_REQUEST), f);
      if f.error.Eof? then Outcome([EventOf(user, [], body)], out, false)
      else Converse(user, body, input, out, f')
  }

  // Wait for the password, report it, and refuse it.
  function Converse(user: seq<byte>, body: seq<byte>, input: seq<byte>, output: seq<byte>, f: Fault): Outcome {
    Report(user, body, Recv(input), output, f)
  }

  function Report(user: seq<byte>, body: seq<byte>, r: Reply, output: seq<byte>, f: Fault): Outcome {
    match r
    case NoReply => Outcome([EventOf(user, [], body)], output, false)
    case ReplyCrash => Outcome([], output, true)
    case Reply(m, _) =>
      if m.payload == [] then Outcome([], output, true)
      else
        var password := m.payload[..|m.payload| - 1];
        Outcome([EventOf(user, password, body)], output + Leaves(Frame(ErrorReply(user)), f), false)
  }

  // ---- Every input ----

  // What makes a session panic: a startup length that is too small, a startup body
  // whose unterminated tail is "user" or, unless the request for a password
  // already met the end of the connection, a frame length that is too small or a
  // message without a payload in place of the password.
  predicate Panics(input: seq<byte>, output: seq<byte>, faults: seq<Fault>, k: nat) {
    match Start(input, output, faults, k)
    case NoStartup(_) => false
    case StartupCrash(_) => true
    case Ready(body, rest, _, k') =>
      Tail(body) == USER || (!FaultAt(faults, k').error.Eof? && PanicsIn(Recv(rest)))
  }

  predicate PanicsIn(r: Reply) {
    r.ReplyCrash? || (r.Reply? && r.msg.payload == [])
  }

  // Over every input and every way the writes fare: one event when a startup packet
  // is read and nothing on the way to the password panics, and otherwise none. It
  // has the user and the parameters of the packet, whatever comes behind it. The
  // output only grows, by one 'N' per SSL request and no more than two messages.
  lemma EventPerStartup(input: seq<byte>, output: seq<byte>, faults: seq<Fault>, k: nat)
    ensures var o, s := Run(input, output, faults, k), Start(input, output, faults, k);
            && o.crashed == Panics(input, output, faults, k)
            && |o.events| == (if s.Ready? && !Panics(input, output, faults, k) then 1 else 0)
            && (forall e :: e in o.events ==>
                  s.Ready? && e.user == UserAfter(Split(s.body), |Split(s.body)|)
                  && e.version == JoinBars(NulStrings(s.body)))
            && s.output <= o.output
    ensures var s := Start(input, output, faults, k);
            output <= s.output && (forall i :: |output| <= i < |s.output| ==> s.output[i] == TAG_N)
  {
    StartOutput(input, output, faults, k);
    var s := Start(input, output, faults, k);
    if s.Ready? {
      GreetOutcome(s.body, s.rest, s.output, FaultAt(faults, s.writes), FaultAt(faults, s.writes + 1));
    }
  }

  lemma GreetOutcome(body: seq<byte>, input: seq<byte>, output: seq<byte>, f: Fault, f': Fault)
    ensures var o := Greet(body, input, output, f, f');
            && o.crashed == (Tail(body) == USER || (!f.error.Eof? && PanicsIn(Recv(input))))
            && |o.events| == (if o.crashed then 0 else 1) && output <= o.output
            && (forall e :: e in o.events ==>
                  e.user == UserAfter(Split(body), |Split(body)|) && e.version == JoinBars(NulStrings(body)))
  {
    UserIndexInRange(body);
  }

  lemma {:induction false} StartOutput(input: seq<byte>, output: seq<byte>, faults: seq<Fault>, k: nat)
    ensures var s := Start(input, output, faults, k);
            output <= s.output && (forall i :: |output| <= i < |s.output| ==> s.output[i] == TAG_N)
    decreases |input|
  {
    if |input| >= 8 && FromBe32(input[4..]) == SSL_REQUEST && FaultAt(faults, k).error.NoError? {
      StartOutput(input[8..], output + [TAG_N], faults, k + 1);
    }
  }

  // ---- What is sent back ----

  lemma {:induction false} BodyStrings(ps: seq<Param>)
    requires NulFree(ps)
    ensures NulStrings(StartupBody(ps)) == Flat(ps) + [[]]
  {
    SplitStartupBody(ps);
    SplitIsNulStringsAndTail(StartupBody(ps));
    var ss := NulStrings(StartupBody(ps));
    assert ss == Split(StartupBody(ps))[..|ss|];
  }

  lemma {:induction false} UserNulFree(body: seq<byte>)
    ensures 0 !in UserAfter(Split(body), |Split(body)|)
  {
    SplitIsNulStringsAndTail(body);
    TerminatedOfNulStrings(body);
    UserIsPiece(Split(body), |Split(body)|);
  }

  lemma {:induction false} UserIsPiece(params: seq<seq<byte>>, n: nat)
    requires n <= |params|
    ensures UserAfter(params, n) == [] || UserAfter(params, n) in params
  {
    if n > 0 && !(params[n - 1] == USER && n < |params|) {
      UserIsPiece(params, n - 1);
    }
  }

  lemma ErrorFieldsNulFree(user: seq<byte>)
    requires 0 !in user
    ensures forall f :: f in ErrorFields(user) ==> 0 !in f
  {
    var fs := ErrorFields(user);
    AsciiNulFree("SFATAL");
    AsciiNulFree("C28P01");
    UserFieldNulFree(user);
    AsciiNulFree("Fauth.c");
    AsciiNulFree("L288");
    AsciiNulFree("Rauth_failed");
    forall i | 0 <= i < 7
      ensures 0 !in fs[i]
    {
    }
  }

  lemma UserFieldNulFree(user: seq<byte>)
    requires 0 !in user
    ensures 0 !in Ascii("Mpassword authentication failed for user \"") + user + Ascii("\"")
  {
    AsciiNulFree("Mpassword authentication failed for user \"");
    AsciiNulFree("\"");
  }

  predicate Printable(s: string) {
    forall i :: 0 <= i < |s| ==> 0 < s[i] as int < 0x80
  }

  lemma AsciiNulFree(s: string)
    requires Printable(s)
    ensures 0 !in Ascii(s)
  {
  }

  // The error message can be read back as the seven fields it was written from.
  lemma {:induction false} ErrorFieldsReadBack(user: seq<byte>)
    requires 0 !in user
    ensures NulStrings(ErrorReply(user).payload) == ErrorFields(user)
  {
    ErrorFieldsNulFree(user);
    NulStringsOfTerminatedOnly(ErrorFields(user));
  }

  lemma {:induction false} NulStringsOfTerminatedOnly(ss: seq<seq<byte>>)
    requires forall s :: s in ss ==> 0 !in s
    ensures NulStrings(Terminated(ss)) == ss
  {
    NulStringsOfTerminated(ss, []);
    assert Terminated(ss) + [] == Terminated(ss);
  }
}
