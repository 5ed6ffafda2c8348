// cmd/pop/pop.go: the POP trap (RFC 1939, section 7), with one reader for the whole
// connection.
module Pop {
  import opened Bytes
  import opened Lines
  import opened Wrappers

  const HELLO := Ascii("+OK POP3 server\r\n")
  const OK := Ascii("+OK\r\n")
  const UNAUTH := Ascii("-ERR Password incorrect\r\n")

  // getSafeArg(args, 0)
  function FirstArg(c: Command): seq<byte> {
    if |c.args| > 0 then c.args[0] else []
  }

  // The events sent and the replies written so far.
  datatype Outcome = Outcome(events: seq<Credentials>, written: seq<seq<byte>>)

  // A session after the greeting, command by command.
  function Run(cs: seq<Command>, user: seq<byte>, o: Outcome): Outcome {
    if cs == [] then o
    else if cs[0].name == USER then Run(cs[1..], FirstArg(cs[0]), o.(written := o.written + [OK]))
    else if cs[0].name == PASS then
      Run(cs[1..], user, Outcome(o.events + [Credentials(user, FirstArg(cs[0]))], o.written + [UNAUTH]))
    else if cs[0].name == QUIT then o
    else Run(cs[1..], user, o)
  }

  function Session(input: seq<byte>, written: seq<seq<byte>>): Outcome {
    Run(Commands(LinesOf(input)), [], Outcome([], written + [HELLO]))
  }

  // The session depends on the bytes of the connection alone, and not on how they
  // are split into reads.
  method HandleConnection(conn: Conn) returns (events: seq<Credentials>)
    modifies conn
    ensures Outcome(events, conn.written) == Session(Concat(old(conn.chunks)), old(conn.written))
  {
    ghost var all := Session(Concat(conn.chunks), conn.written);
    conn.Write(HELLO);
    var reader := new Reader(conn);
    var user: seq<byte> := [];
    events := [];
    assert [] + Concat(conn.chunks) == Concat(conn.chunks);
    while true
      invariant reader.conn == conn
      invariant all == Run(Commands(LinesOf(reader.buf + Concat(conn.chunks))), user, Outcome(events, conn.written))
      decreases |conn.chunks|, |reader.buf|
    {
      NextCommand(reader.buf, conn.chunks);
      var line := reader.ReadLine();
      if line.None? {
        return;
      }
      var c := Parse(line.value);
      if c.name == USER {
        user := FirstArg(c);
        conn.Write(OK);
      } else if c.name == PASS {
        events := events + [Credentials(user, FirstArg(c))];
        conn.Write(UNAUTH);
      } else if c.name == QUIT {
        return;
      }
    }
  }

  lemma NextCommand(buf: seq<byte>, chunks: seq<seq<byte>>)
    ensures var r := TakeLine(buf, chunks);
            Commands(LinesOf(buf + Concat(chunks)))
            == if r.line.None? then [] else [Parse(r.line.value)] + Commands(LinesOf(r.buf + Concat(r.chunks)))
  {
    TakeLineIs(buf, chunks);
    CommandsUnfold(buf + Concat(chunks));
  }

  // ---- What is reported ----

  // The commands before the first QUIT.
  function BeforeQuit(cs: seq<Command>): (r: seq<Command>)
    ensures r <= cs
  {
    if cs == [] || cs[0].name == QUIT then [] else [cs[0]] + BeforeQuit(cs[1..])
  }

  // The argument of the last USER among the commands, or what it was before them.
  function LatestUser(cs: seq<Command>, user: seq<byte>): seq<byte> {
    if cs == [] then user
    else
      var n := |cs| - 1;
      if cs[n].name == USER then FirstArg(cs[n]) else LatestUser(cs[..n], user)
  }

  // One report for each PASS, with the latest USER before it.
  function Reports(cs: seq<Command>, user: seq<byte>): seq<Credentials> {
    if cs == [] then []
    else
      var n := |cs| - 1;
      Reports(cs[..n], user)
      + (if cs[n].name == PASS then [Credentials(LatestUser(cs[..n], user), FirstArg(cs[n]))] else [])
  }

  lemma {:induction false} LatestUserCons(c: Command, cs: seq<Command>, user: seq<byte>)
    ensures LatestUser([c] + cs, user) == LatestUser(cs, if c.name == USER then FirstArg(c) else user)
  {
    if cs == [] {
      assert [c] + cs == [c];
    } else {
      var n := |cs| - 1;
      assert ([c] + cs)[..n + 1] == [c] + cs[..n];
      LatestUserCons(c, cs[..n], user);
    }
  }

  lemma {:induction false} ReportsCons(c: Command, cs: seq<Command>, user: seq<byte>)
    requires USER != PASS
    ensures Reports([c] + cs, user)
         == (if c.name == PASS then [Credentials(user, FirstArg(c))] else [])
            + Reports(cs, if c.name == USER then FirstArg(c) else user)
  {
    if cs == [] {
      assert [c] + cs == [c];
      assert [c][..0] == [];
    } else {
      var n := |cs| - 1;
      assert ([c] + cs)[..n + 1] == [c] + cs[..n];
      ReportsCons(c, cs[..n], user);
      LatestUserCons(c, cs[..n], user);
    }
  }

  lemma NamesDiffer()
    ensures USER != PASS && USER != QUIT && PASS != QUIT
  {
    assert USER[0] != PASS[0] && USER[0] != QUIT[0] && PASS[0] != QUIT[0];
  }

  // Exactly one event is sent for each PASS before the first QUIT, with the
  // argument of the latest USER.
  lemma {:induction false} EventsAreReports(cs: seq<Command>, user: seq<byte>, o: Outcome)
    ensures Run(cs, user, o).events == o.events + Reports(BeforeQuit(cs), user)
  {
    NamesDiffer();
    if cs == [] || cs[0].name == QUIT {
      assert o.events + [] == o.events;
    } else {
      var c, rest := cs[0], BeforeQuit(cs[1..]);
      ReportsCons(c, rest, user);
      var user' := if c.name == USER then FirstArg(c) else user;
      var more := if c.name == PASS then [Credentials(user, FirstArg(c))] else [];
      var reply := if c.name == USER then [OK] else if c.name == PASS then [UNAUTH] else [];
      var o' := Outcome(o.events + more, o.written + reply);
      assert o.events + [] == o.events && o.written + [] == o.written;
      EventsAreReports(cs[1..], user', o');
      Regroup(o.events, more, Reports(rest, user'));
    }
  }

  // ---- What is answered ----

  function ReplyTo(c: Command): seq<seq<byte>> {
    if c.name == Ascii("USER") then [Ascii("+OK\r\n")]
    else if c.name == Ascii("PASS") then [Ascii("-ERR Password incorrect\r\n")]
    else []
  }

  function Replies(cs: seq<Command>): seq<seq<byte>> {
    if cs == [] then [] else ReplyTo(cs[0]) + Replies(cs[1..])
  }

  // Each USER is accepted and each PASS refused, in order, up to the first QUIT;
  // nothing else is answered.
  lemma {:induction false} RepliesAre(cs: seq<Command>, user: seq<byte>, o: Outcome)
    ensures Run(cs, user, o).written == o.written + Replies(BeforeQuit(cs))
  {
    NamesDiffer();
    if cs == [] || cs[0].name == QUIT {
      assert o.written + [] == o.written;
    } else {
      var c, rest := cs[0], Replies(BeforeQuit(cs[1..]));
      assert BeforeQuit(cs)[1..] == BeforeQuit(cs[1..]);
      Regroup(o.written, ReplyTo(c), rest);
      assert o.written + [] == o.written;
      if c.name == USER {
        RepliesAre(cs[1..], FirstArg(c), o.(written := o.written + [OK]));
      } else if c.name == PASS {
        var e := Credentials(user, FirstArg(c));
        RepliesAre(cs[1..], user, Outcome(o.events + [e], o.written + [UNAUTH]));
      } else {
        RepliesAre(cs[1..], user, o);
      }
    }
  }

  // A client that logs in and leaves: one event, with the name and the password.
  lemma LoginSession(user: seq<byte>, password: seq<byte>, more: seq<byte>)
    requires Word(user) && Word(password)
    ensures Session(Login(user, password, more), [])
         == Outcome([Credentials(user, password)],
                    [Ascii("+OK POP3 server\r\n"), Ascii("+OK\r\n"), Ascii("-ERR Password incorrect\r\n")])
  {
    LoginCommands(user, password, more);
    RunLogin(user, password, Commands(LinesOf(more)));
    assert [] + [HELLO] == [HELLO];
  }

  lemma RunLogin(user: seq<byte>, password: seq<byte>, rest: seq<Command>)
    ensures Run([Command(Ascii("USER"), [user])]
                + ([Command(Ascii("PASS"), [password])] + ([Command(Ascii("QUIT"), [])] + rest)),
                [], Outcome([], [HELLO]))
         == Outcome([Credentials(user, password)], [HELLO, OK, UNAUTH])
  {
    var quit := [Command(Ascii("QUIT"), [])] + rest;
    var o := Outcome([], [HELLO]);
    RunUser(user, [Command(Ascii("PASS"), [password])] + quit, [], o);
    assert [HELLO] + [OK] == [HELLO, OK];
    RunPass(password, quit, user, o.(written := [HELLO, OK]));
    assert [] + [Credentials(user, password)] == [Credentials(user, password)];
    assert [HELLO, OK] + [UNAUTH] == [HELLO, OK, UNAUTH];
    RunQuit(rest, user, Outcome([Credentials(user, password)], [HELLO, OK, UNAUTH]));
  }

  lemma RunUser(name: seq<byte>, rest: seq<Command>, user: seq<byte>, o: Outcome)
    ensures Run([Command(Ascii("USER"), [name])] + rest, user, o) == Run(rest, name, o.(written := o.written + [OK]))
  {
    assert ([Command(Ascii("USER"), [name])] + rest)[1..] == rest;
  }

  lemma RunPass(password: seq<byte>, rest: seq<Command>, user: seq<byte>, o: Outcome)
    ensures Run([Command(Ascii("PASS"), [password])] + rest, user, o)
         == Run(rest, user, Outcome(o.events + [Credentials(user, password)], o.written + [UNAUTH]))
  {
    NamesDiffer();
    assert ([Command(Ascii("PASS"), [password])] + rest)[1..] == rest;
  }

  lemma RunQuit(rest: seq<Command>, user: seq<byte>, o: Outcome)
    ensures Run([Command(Ascii("QUIT"), [])] + rest, user, o) == o
  {
    NamesDiffer();
  }

  // Without arguments the name and the password are empty.
  lemma NoArguments(rest: seq<byte>)
    ensures var text := Ascii("USER") + [13, 10] + (Ascii("PASS") + [13, 10] + (Ascii("QUIT") + [13, 10] + rest));
            Session(text, []).events == [Credentials([], [])]
  {
    var (u, p, q) := (Ascii("USER"), Ascii("PASS"), Ascii("QUIT"));
    NamesAreWords();
    NameFirst(q, rest);
    NameFirst(p, q + [13, 10] + rest);
    NameFirst(u, p + [13, 10] + (q + [13, 10] + rest));
    RunBare(Commands(LinesOf(rest)));
    assert [] + [HELLO] == [HELLO];
  }

  lemma RunBare(rest: seq<Command>)
    ensures Run([Command(Ascii("USER"), [])] + ([Command(Ascii("PASS"), [])] + ([Command(Ascii("QUIT"), [])] + rest)),
                [], Outcome([], [HELLO])).events
         == [Credentials([], [])]
  {
    NamesDiffer();
    var quit := [Command(Ascii("QUIT"), [])] + rest;
    var pass := [Command(Ascii("PASS"), [])] + quit;
    var cs := [Command(Ascii("USER"), [])] + pass;
    var e := Credentials([], []);
    assert cs[1..] == pass && pass[1..] == quit && [] + [e] == [e];
    assert Run(cs, [], Outcome([], [HELLO])) == Run(pass, [], Outcome([], [HELLO] + [OK]));
    assert Run(pass, [], Outcome([], [HELLO] + [OK])) == Run(quit, [], Outcome([e], [HELLO] + [OK] + [UNAUTH]));
  }
}
