// cmd/ftp/ftp.go: the FTP trap (RFC 959, section 4.1.1), which makes a new buffered
// reader for every command and so loses what one read delivers behind a newline.
module Ftp {
  import opened Bytes
  import opened Lines
  import Pop
  import opened Wrappers

  const GREETING := Ascii("220 This is a private system - No anonymous login\r\n")
  const USER_OK := Ascii("331 User OK\r\n")
  const UNAUTHORIZED := Ascii("530 Login authentication failed\r\n")
  const NOT_TAKEN := Ascii("550 Action not taken\r\n")

  // The lines that a new reader for each finds, after bytes already in its buffer.
  function LinesRead(buf: seq<byte>, chunks: seq<seq<byte>>): seq<seq<byte>>
    requires NL !in buf
    decreases |chunks|
  {
    var r := TakeLine(buf, chunks);
    if r.line.None? then [] else [r.line.value] + LinesRead([], r.chunks)
  }

  // Events sent, replies attempted, and whether a missing argument made it panic.
  datatype Outcome = Outcome(events: seq<Credentials>, written: seq<seq<byte>>, crashed: bool)

  // Whether the k-th write goes through; those beyond the list do.
  function WriteOk(oks: seq<bool>, k: nat): bool {
    k < |oks| ==> oks[k]
  }

  // A session after the greeting, command by command. A write error is noticed
  // only in the reply to USER.
  function Run(cs: seq<Command>, user: seq<byte>, oks: seq<bool>, o: Outcome): Outcome {
    if cs == [] then o
    else
      var c, k := cs[0], |o.written|;
      if c.name == USER then
        var o' := o.(written := o.written + [USER_OK]);
        if !WriteOk(oks, k) then o'
        else if c.args == [] then o'.(crashed := true)
        else Run(cs[1..], c.args[0], oks, o')
      else if c.name == PASS then
        if c.args == [] then o.(crashed := true)
        else Run(cs[1..], user, oks,
                 Outcome(o.events + [Credentials(user, c.args[0])], o.written + [UNAUTHORIZED], false))
      else if c.name == QUIT then o
      else Run(cs[1..], user, oks, o.(written := o.written + [NOT_TAKEN]))
  }

  function Session(chunks: seq<seq<byte>>, oks: seq<bool>): Outcome {
    var o := Outcome([], [GREETING], false);
    if WriteOk(oks, 0) then Run(Commands(LinesRead([], chunks)), [], oks, o) else o
  }

  method ReadCommand(conn: Conn) returns (c: Option<Command>)
    modifies conn`chunks
    ensures var r := TakeLine([], old(conn.chunks));
            conn.chunks == r.chunks && c == if r.line.None? then None else Some(Parse(r.line.value))
  {
    var reader := new Reader(conn);
    var line := reader.ReadLine();
    c := if line.None? then None else Some(Parse(line.value));
  }

  method HandleConnection(conn: Conn, oks: seq<bool>) returns (events: seq<Credentials>, crashed: bool)
    requires conn.written == []
    modifies conn
    ensures Outcome(events, conn.written, crashed) == Session(old(conn.chunks), oks)
  {
    ghost var all := Session(conn.chunks, oks);
    events, crashed := [], false;
    var user: seq<byte> := [];
    conn.Write(GREETING);
    if !WriteOk(oks, 0) {
      return;
    }
    assert conn.written == [GREETING];
    while true
      invariant all == Run(Commands(LinesRead([], conn.chunks)), user, oks, Outcome(events, conn.written, crashed))
      invariant !crashed
      decreases |conn.chunks|
    {
      NextCommand(conn.chunks);
      var c := ReadCommand(conn);
      if c.None? {
        return;
      }
      var cmd, args := c.value.name, c.value.args;
      if cmd == USER {
        var k := |conn.written|;
        conn.Write(USER_OK);
        if !WriteOk(oks, k) {
          return;
        }
        if args == [] {
          crashed := true;
          return;
        }
        user := args[0];
      } else if cmd == PASS {
        if args == [] {
          crashed := true;
          return;
        }
        events := events + [Credentials(user, args[0])];
        conn.Write(UNAUTHORIZED);
      } else if cmd == QUIT {
        return;
      } else {
        conn.Write(NOT_TAKEN);
      }
    }
  }

  lemma NextCommand(chunks: seq<seq<byte>>)
    ensures var r := TakeLine([], chunks);
            if r.line.None? then Commands(LinesRead([], chunks)) == []
            else |r.chunks| < |chunks|
                 && Commands(LinesRead([], chunks)) == [Parse(r.line.value)] + Commands(LinesRead([], r.chunks))
  {
  }

  // ---- What is reported ----

  predicate HasArgs(cs: seq<Command>) {
    forall c :: c in cs && (c.name == USER || c.name == PASS) ==> c.args != []
  }

  // The commands that the trap gets to: those before the first QUIT, and before
  // the first USER whose reply cannot be written. The first reply is write k.
  function Heard(cs: seq<Command>, oks: seq<bool>, k: nat): seq<Command> {
    if cs == [] || cs[0].name == QUIT || (cs[0].name == USER && !WriteOk(oks, k)) then []
    else [cs[0]] + Heard(cs[1..], oks, k + 1)
  }

  // All these commands up to number n, and no further: the replies to USER among
  // them are written, and that to number n is not.
  predicate GetsTo(all: seq<Command>, n: nat, oks: seq<bool>, k: nat) {
    && n <= |all| && (forall i :: 0 <= i < n && all[i].name == USER ==> WriteOk(oks, k + i))
    && (n < |all| ==> all[n].name == USER && !WriteOk(oks, k + n))
  }

  lemma {:induction false} HeardIs(cs: seq<Command>, oks: seq<bool>, k: nat)
    ensures var (all, n) := (Pop.BeforeQuit(cs), |Heard(cs, oks, k)|);
            GetsTo(all, n, oks, k) && Heard(cs, oks, k) == all[..n]
  {
    if cs != [] && cs[0].name != QUIT && (cs[0].name == USER ==> WriteOk(oks, k)) {
      HeardIs(cs[1..], oks, k + 1);
      GetsToMore(cs[0], Pop.BeforeQuit(cs[1..]), |Heard(cs[1..], oks, k + 1)|, oks, k);
    }
  }

  lemma GetsToMore(c: Command, rest: seq<Command>, n: nat, oks: seq<bool>, k: nat)
    requires GetsTo(rest, n, oks, k + 1) && (c.name == USER ==> WriteOk(oks, k))
    ensures GetsTo([c] + rest, n + 1, oks, k) && ([c] + rest)[..n + 1] == [c] + rest[..n]
  {
    var all := [c] + rest;
    forall i | 0 <= i < n + 1 && all[i].name == USER
      ensures WriteOk(oks, k + i)
    {
      if i > 0 {
        assert all[i] == rest[i - 1] && k + 1 + (i - 1) == k + i;
      }
    }
  }

  // However the writes fare, the trap panics exactly when some USER or PASS among
  // the commands it gets to has no argument; and if none does, it reports what the
  // POP trap reports of these commands: one event for each PASS, with the latest USER.
  lemma ReportsLikePop(cs: seq<Command>, user: seq<byte>, oks: seq<bool>, o: Outcome)
    requires !o.crashed
    ensures var heard := Heard(cs, oks, |o.written|);
            && (Run(cs, user, oks, o).crashed <==> !HasArgs(heard))
            && (HasArgs(heard) ==> Run(cs, user, oks, o).events == o.events + Pop.Reports(heard, user))
  {
    PanicsIff(cs, user, oks, o);
    if HasArgs(Heard(cs, oks, |o.written|)) {
      ReportsOfHeard(cs, user, oks, o);
    }
  }

  lemma {:induction false} PanicsIff(cs: seq<Command>, user: seq<byte>, oks: seq<bool>, o: Outcome)
    requires !o.crashed
    ensures Run(cs, user, oks, o).crashed <==> !HasArgs(Heard(cs, oks, |o.written|))
  {
    if Heard(cs, oks, |o.written|) != [] {
      var c := cs[0];
      FirstOfHeard(c, Heard(cs[1..], oks, |o.written| + 1));
      if c.name == USER || c.name == PASS ==> c.args != [] {
        HeardStep(cs, user, oks, o);
        PanicsIff(cs[1..], if c.name == USER then c.args[0] else user, oks, Answered(o, user, c));
      } else {
        MissingArgument(cs, user, oks, o);
      }
    } else {
      NothingHeard(cs, user, oks, o);
    }
  }

  lemma MissingArgument(cs: seq<Command>, user: seq<byte>, oks: seq<bool>, o: Outcome)
    requires Heard(cs, oks, |o.written|) != []
    requires (cs[0].name == USER || cs[0].name == PASS) && cs[0].args == []
    ensures Run(cs, user, oks, o).crashed
  {
    Pop.NamesDiffer();
  }

  lemma NothingHeard(cs: seq<Command>, user: seq<byte>, oks: seq<bool>, o: Outcome)
    requires Heard(cs, oks, |o.written|) == []
    ensures Run(cs, user, oks, o).crashed == o.crashed && Run(cs, user, oks, o).events == o.events
  {
    Pop.NamesDiffer();
  }

  lemma {:induction false} ReportsOfHeard(cs: seq<Command>, user: seq<byte>, oks: seq<bool>, o: Outcome)
    requires !o.crashed && HasArgs(Heard(cs, oks, |o.written|))
    ensures Run(cs, user, oks, o).events == o.events + Pop.Reports(Heard(cs, oks, |o.written|), user)
  {
    Pop.NamesDiffer();
    if Heard(cs, oks, |o.written|) == [] {
      assert o.events + [] == o.events;
    } else {
      var c, rest := cs[0], Heard(cs[1..], oks, |o.written| + 1);
      FirstOfHeard(c, rest);
      HeardStep(cs, user, oks, o);
      ReportsOfHeard(cs[1..], if c.name == USER then c.args[0] else user, oks, Answered(o, user, c));
      ReportOne(c, rest, user, o);
    }
  }

  lemma ReportOne(c: Command, rest: seq<Command>, user: seq<byte>, o: Outcome)
    requires c.name == USER || c.name == PASS ==> c.args != []
    ensures var user' := if c.name == USER then c.args[0] else user;
            Answered(o, user, c).events + Pop.Reports(rest, user') == o.events + Pop.Reports([c] + rest, user)
  {
    Pop.NamesDiffer();
    Pop.ReportsCons(c, rest, user);
    var more := if c.name == PASS then [Credentials(user, c.args[0])] else [];
    assert o.events + [] == o.events;
    Regroup(o.events, more, Pop.Reports(rest, if c.name == USER then c.args[0] else user));
  }

  // ---- What is answered ----

  function ReplyTo(c: Command): seq<byte> {
    if c.name == Ascii("USER") then Ascii("331 User OK\r\n")
    else if c.name == Ascii("PASS") then Ascii("530 Login authentication failed\r\n")
    else Ascii("550 Action not taken\r\n")
  }

  function Replies(cs: seq<Command>): seq<seq<byte>> {
    if cs == [] then [] else [ReplyTo(cs[0])] + Replies(cs[1..])
  }

  // Every command that the trap gets to is answered, in order, and so is the USER
  // at which a failing write ends the session.
  lemma {:induction false} RepliesAre(cs: seq<Command>, user: seq<byte>, oks: seq<bool>, o: Outcome)
    requires !o.crashed && HasArgs(Heard(cs, oks, |o.written|))
    ensures var heard := Heard(cs, oks, |o.written|);
            Run(cs, user, oks, o).written
            == o.written + Replies(heard) + (if heard != Pop.BeforeQuit(cs) then [Ascii("331 User OK\r\n")] else [])
  {
    Pop.NamesDiffer();
    var k := |o.written|;
    if Heard(cs, oks, k) == [] {
      assert o.written + [] == o.written;
    } else {
      var c, rest, all := cs[0], Heard(cs[1..], oks, k + 1), Pop.BeforeQuit(cs[1..]);
      FirstOfHeard(c, rest);
      HeardStep(cs, user, oks, o);
      RepliesAre(cs[1..], if c.name == USER then c.args[0] else user, oks, Answered(o, user, c));
      SameTailCommands(c, rest, all);
      Regroup(o.written, [ReplyTo(c)], Replies(rest));
    }
  }

  lemma FirstOfHeard(c: Command, rest: seq<Command>)
    ensures Replies([c] + rest) == [ReplyTo(c)] + Replies(rest)
    ensures HasArgs([c] + rest) <==> HasArgs(rest) && (c.name == USER || c.name == PASS ==> c.args != [])
  {
    assert ([c] + rest)[0] == c && ([c] + rest)[1..] == rest;
    assert forall d :: d in rest ==> d in [c] + rest;
    assert c in [c] + rest;
  }

  lemma SameTailCommands(c: Command, a: seq<Command>, b: seq<Command>)
    ensures [c] + a == [c] + b <==> a == b
  {
    assert ([c] + a)[1..] == a && ([c] + b)[1..] == b;
  }

  // One command that the trap gets to.
  function Answered(o: Outcome, user: seq<byte>, c: Command): Outcome
    requires c.name == PASS ==> c.args != []
  {
    Outcome(if c.name == PASS then o.events + [Credentials(user, c.args[0])] else o.events,
            o.written + [ReplyTo(c)], o.crashed)
  }

  lemma HeardStep(cs: seq<Command>, user: seq<byte>, oks: seq<bool>, o: Outcome)
    requires !o.crashed && Heard(cs, oks, |o.written|) != []
    requires cs[0].name == USER || cs[0].name == PASS ==> cs[0].args != []
    ensures var user' := if cs[0].name == USER then cs[0].args[0] else user;
            Run(cs, user, oks, o) == Run(cs[1..], user', oks, Answered(o, user, cs[0]))
  {
    Pop.NamesDiffer();
  }

  // A client that logs in and leaves, in lines that new readers find: one event,
  // with the name and the password.
  lemma LoginSession(user: seq<byte>, password: seq<byte>, more: seq<byte>, chunks: seq<seq<byte>>)
    requires Word(user) && Word(password) && Concat(chunks) == Login(user, password, more) && Aligned(chunks)
    ensures Session(chunks, [])
         == Outcome([Credentials(user, password)],
                    [Ascii("220 This is a private system - No anonymous login\r\n"),
                     Ascii("331 User OK\r\n"), Ascii("530 Login authentication failed\r\n")], false)
  {
    LinesReadIff([], chunks);
    assert [] + Concat(chunks) == Concat(chunks);
    LoginCommands(user, password, more);
    RunLogin(user, password, Commands(LinesOf(more)));
  }

  lemma RunLogin(user: seq<byte>, password: seq<byte>, rest: seq<Command>)
    ensures Run([Command(Ascii("USER"), [user])]
                + ([Command(Ascii("PASS"), [password])] + ([Command(Ascii("QUIT"), [])] + rest)),
                [], [], Outcome([], [GREETING], false))
         == Outcome([Credentials(user, password)], [GREETING, USER_OK, UNAUTHORIZED], false)
  {
    Pop.NamesDiffer();
    var quit := [Command(Ascii("QUIT"), [])] + rest;
    var pass := [Command(Ascii("PASS"), [password])] + quit;
    var cs := [Command(Ascii("USER"), [user])] + pass;
    var e := Credentials(user, password);
    assert cs[1..] == pass && pass[1..] == quit;
    assert [GREETING] + [USER_OK] == [GREETING, USER_OK] && [] + [e] == [e];
    assert [GREETING, USER_OK] + [UNAUTHORIZED] == [GREETING, USER_OK, UNAUTHORIZED];
    var o := Outcome([], [GREETING], false);
    assert Run(quit, user, [], Outcome([e], [GREETING, USER_OK, UNAUTHORIZED], false))
        == Outcome([e], [GREETING, USER_OK, UNAUTHORIZED], false);
    assert Run(pass, user, [], o.(written := [GREETING, USER_OK]))
        == Run(quit, user, [], Outcome([e], [GREETING, USER_OK, UNAUTHORIZED], false));
    assert Run(cs, [], [], o) == Run(pass, user, [], o.(written := [GREETING, USER_OK]));
  }

  // A greeting that cannot be written ends the session.
  lemma NoGreeting(chunks: seq<seq<byte>>, oks: seq<bool>)
    requires oks != [] && !oks[0]
    ensures Session(chunks, oks)
         == Outcome([], [Ascii("220 This is a private system - No anonymous login\r\n")], false)
  {
  }

  // ---- When nothing that matters is lost ----

  // For each chunk in which a line ends before the chunk does: no line ends later.
  predicate Aligned(chunks: seq<seq<byte>>) {
    if chunks == [] then true
    else
      var c := FirstLine(chunks[0]);
      && (c.Cut? ==> c.rest == [] || NL !in c.rest + Concat(chunks[1..]))
      && Aligned(chunks[1..])
  }

  function Size(lines: seq<seq<byte>>): nat {
    if lines == [] then 0 else |lines[0]| + Size(lines[1..])
  }

  // The complete lines of a text make up all of it up to the last newline.
  lemma {:induction false} SizeCons(c: byte, s: seq<byte>)
    ensures Size(LinesOf([c] + s)) == if NL in [c] + s then 1 + Size(LinesOf(s)) else 0
  {
    if c == NL {
      FirstLineAppend([c], s);
      assert FirstLine([c]) == Cut([c], []) by {
        IndexByteIsFirst([c], NL, 0);
      }
      assert [] + s == s;
    } else if NL in s {
      FirstLineCons(c, s);
    }
  }

  lemma FirstLineCons(c: byte, s: seq<byte>)
    requires c != NL && NL in s
    ensures FirstLine([c] + s) == Cut([c] + FirstLine(s).line, FirstLine(s).rest)
  {
    var i, t := IndexByte(s, NL), [c] + s;
    assert t[..i + 1] == [c] + s[..i];
    IndexByteIsFirst(t, NL, i + 1);
    assert t[..i + 2] == [c] + s[..i + 1] && t[i + 2..] == s[i + 1..];
  }

  // Bytes in front of a text that has a newline count.
  lemma {:induction false} SizeAppend(x: seq<byte>, s: seq<byte>)
    ensures Size(LinesOf(s)) <= Size(LinesOf(x + s))
    ensures x != [] && NL in x + s ==> Size(LinesOf(s)) < Size(LinesOf(x + s))
  {
    if x == [] {
      assert x + s == s;
    } else {
      assert x + s == [x[0]] + (x[1..] + s);
      SizeAppend(x[1..], s);
      SizeCons(x[0], x[1..] + s);
      if NL !in x + s {
        assert NL !in s;
      }
    }
  }

  // What is read never exceeds what a single reader would read.
  lemma {:induction false} SizeRead(buf: seq<byte>, chunks: seq<seq<byte>>)
    requires NL !in buf
    ensures Size(LinesRead(buf, chunks)) <= Size(LinesOf(buf + Concat(chunks)))
    decreases |chunks|
  {
    if chunks != [] {
      ReadStep(buf, chunks);
      var t := buf + chunks[0];
      if NL in t {
        SizeRead([], chunks[1..]);
        assert [] + Concat(chunks[1..]) == Concat(chunks[1..]);
        SizeAppend(FirstLine(t).rest, Concat(chunks[1..]));
      } else {
        SizeRead(t, chunks[1..]);
      }
    }
  }

  // One chunk more in the buffer.
  lemma ReadStep(buf: seq<byte>, chunks: seq<seq<byte>>)
    requires NL !in buf && chunks != []
    ensures var (t, later) := (buf + chunks[0], Concat(chunks[1..]));
            && buf + Concat(chunks) == t + later
            && (NL !in t ==> LinesRead(buf, chunks) == LinesRead(t, chunks[1..]))
            && (NL in t ==>
                  && LinesRead(buf, chunks) == [FirstLine(t).line] + LinesRead([], chunks[1..])
                  && LinesOf(t + later) == [FirstLine(t).line] + LinesOf(FirstLine(t).rest + later))
  {
    var t := buf + chunks[0];
    Regroup(buf, chunks[0], Concat(chunks[1..]));
    assert TakeLine(buf, chunks) == TakeLine(t, chunks[1..]);
    if NL in t {
      FirstLineAppend(t, Concat(chunks[1..]));
    }
  }

  lemma {:induction false} NoLineNoRead(buf: seq<byte>, chunks: seq<seq<byte>>)
    requires NL !in buf + Concat(chunks)
    ensures LinesRead(buf, chunks) == [] && Aligned(chunks)
    decreases |chunks|
  {
    TakeLineIs(buf, chunks);
    if chunks != [] {
      assert forall c :: c in chunks[0] ==> c in Concat(chunks);
      assert forall c :: c in Concat(chunks[1..]) ==> c in Concat(chunks);
      assert [] + Concat(chunks[1..]) == Concat(chunks[1..]);
      NoLineNoRead([], chunks[1..]);
    }
  }

  // The trap reads the lines that were sent if and only if every chunk that ends
  // a line early is followed by no other line end.
  lemma {:induction false} LinesReadIff(buf: seq<byte>, chunks: seq<seq<byte>>)
    requires NL !in buf
    ensures LinesRead(buf, chunks) == LinesOf(buf + Concat(chunks)) <==> Aligned(chunks)
    decreases |chunks|
  {
    if chunks == [] {
      assert buf + Concat(chunks) == buf;
    } else {
      var t, later := buf + chunks[0], Concat(chunks[1..]);
      ReadStep(buf, chunks);
      if NL !in t {
        LinesReadIff(t, chunks[1..]);
      } else {
        var line, lost := FirstLine(t).line, FirstLine(t).rest;
        RestIsOfLast(buf, chunks[0]);
        SameTail(line, LinesRead([], chunks[1..]), LinesOf(lost + later));
        if lost == [] {
          assert lost + later == [] + later == later;
          LinesReadIff([], chunks[1..]);
        } else {
          LostIff(lost, chunks[1..]);
          AlignedWhenLost(chunks, lost);
        }
      }
    }
  }

  lemma SameTail(line: seq<byte>, a: seq<seq<byte>>, b: seq<seq<byte>>)
    ensures [line] + a == [line] + b <==> a == b
  {
    assert ([line] + a)[1..] == a && ([line] + b)[1..] == b;
  }

  lemma AlignedWhenLost(chunks: seq<seq<byte>>, lost: seq<byte>)
    requires chunks != [] && FirstLine(chunks[0]).Cut? && FirstLine(chunks[0]).rest == lost != []
    ensures Aligned(chunks) <==> NL !in lost + Concat(chunks[1..])
  {
    if NL !in lost + Concat(chunks[1..]) {
      assert [] + Concat(chunks[1..]) == Concat(chunks[1..]);
      NoLineNoRead([], chunks[1..]);
    }
  }

  lemma RestIsOfLast(buf: seq<byte>, c: seq<byte>)
    requires NL !in buf && NL in c
    ensures FirstLine(buf + c).Cut? && FirstLine(buf + c).rest == FirstLine(c).rest
  {
    var i, t := IndexByte(c, NL), buf + c;
    assert t[..|buf| + i] == buf + c[..i];
    IndexByteIsFirst(t, NL, |buf| + i);
    assert t[|buf| + i + 1..] == c[i + 1..];
  }

  // Losing bytes behind a line is harmless exactly when no line follows.
  lemma LostIff(lost: seq<byte>, chunks: seq<seq<byte>>)
    requires lost != []
    ensures LinesRead([], chunks) == LinesOf(lost + Concat(chunks)) <==> NL !in lost + Concat(chunks)
  {
    var later := Concat(chunks);
    assert [] + later == later;
    if NL in lost + later {
      SizeAppend(lost, later);
      SizeRead([], chunks);
    } else {
      assert NL !in later;
      NoLineNoRead([], chunks);
    }
  }

  // A chunking that loses a line: two lines in one read.
  lemma LostLine(line: seq<byte>)
    requires NL !in line
    ensures var one := line + [NL];
            LinesRead([], [one + one]) == [one] && LinesOf(one + one) == [one, one]
  {
    var one := line + [NL];
    OneLine(line);
    FirstLineAppend(one, one);
    assert [] + one == one;
    LostRest(one + one, one);
    TwoLines(one + one, one, one);
  }

  lemma TwoLines(text: seq<byte>, first: seq<byte>, second: seq<byte>)
    requires FirstLine(text) == Cut(first, second) && FirstLine(second) == Cut(second, [])
    ensures LinesOf(text) == [first, second]
  {
    assert LinesOf([]) == [];
    assert LinesOf(second) == [second] + LinesOf([]);
  }

  lemma LostRest(chunk: seq<byte>, line: seq<byte>)
    requires FirstLine(chunk).Cut? && FirstLine(chunk).line == line
    ensures LinesRead([], [chunk]) == [line]
  {
    ReadStep([], [chunk]);
    assert [] + chunk == chunk;
    assert LinesRead([], []) == [];
  }

  lemma OneLine(line: seq<byte>)
    requires NL !in line
    ensures FirstLine(line + [NL]) == Cut(line + [NL], [])
  {
    var one := line + [NL];
    assert one[..|line|] == line && one[..|line| + 1] == one;
    IndexByteIsFirst(one, NL, |line|);
  }

  // In particular when each chunk has a newline at most as its last byte.
  lemma {:induction false} LastByteOnly(chunks: seq<seq<byte>>)
    requires forall c :: c in chunks ==> FirstLine(c).Cut? ==> FirstLine(c).rest == []
    ensures LinesRead([], chunks) == LinesOf(Concat(chunks))
  {
    AlignedIfLast(chunks);
    LinesReadIff([], chunks);
    assert [] + Concat(chunks) == Concat(chunks);
  }

  lemma {:induction false} AlignedIfLast(chunks: seq<seq<byte>>)
    requires forall c :: c in chunks ==> FirstLine(c).Cut? ==> FirstLine(c).rest == []
    ensures Aligned(chunks)
  {
    if chunks != [] {
      assert chunks[0] in chunks;
      AlignedIfLast(chunks[1..]);
    }
  }
}
