// Line-oriented connections, as the POP and FTP traps read them: a stream that
// arrives in chunks, a buffered reader on top of it, and commands of one line.
module Lines {
  import opened Bytes
  import opened Pieces
  import opened Wrappers

  const NL: byte := '\n' as int
  const SPACE: byte := ' ' as int
  const CR: byte := '\r' as int

  function Concat(chunks: seq<seq<byte>>): seq<byte> {
    if chunks == [] then [] else chunks[0] + Concat(chunks[1..])
  }

  // A text cut behind its first newline.
  datatype Cut = NoLine | Cut(line: seq<byte>, rest: seq<byte>)

  function FirstLine(s: seq<byte>): (c: Cut)
    ensures c.Cut? ==> |c.rest| < |s| && c.line + c.rest == s && c.line != []
    ensures c.NoLine? <==> NL !in s
  {
    var i := IndexByte(s, NL);
    if i == -1 then NoLine else Cut(s[..i + 1], s[i + 1..])
  }

  // The complete lines of a text, each with its newline.
  function LinesOf(s: seq<byte>): seq<seq<byte>>
    decreases |s|
  {
    match FirstLine(s)
    case NoLine => []
    case Cut(line, rest) => [line] + LinesOf(rest)
  }

  // A connection: what its reads will deliver, one chunk a read, until it ends,
  // and what was written to it.
  class Conn {
    var chunks: seq<seq<byte>>
    var written: seq<seq<byte>>

    constructor (chunks: seq<seq<byte>>)
      ensures this.chunks == chunks && written == []
    {
      this.chunks, written := chunks, [];
    }

    method Write(d: seq<byte>)
      modifies this`written
      ensures written == old(written) + [d]
    {
      written := written + [d];
    }
  }

  // bufio.Reader
  class Reader {
    const conn: Conn
    var buf: seq<byte>

    constructor (conn: Conn)
      ensures this.conn == conn && buf == []
    {
      this.conn, buf := conn, [];
    }

    // ReadString('\n'): a line, or None at the end of the connection.
    method ReadLine() returns (line: Option<seq<byte>>)
      modifies this, conn`chunks
      ensures TakeLine(old(buf), old(conn.chunks)) == Line(line, buf, conn.chunks)
    {
      while true
        invariant TakeLine(buf, conn.chunks) == TakeLine(old(buf), old(conn.chunks))
        decreases |conn.chunks|
      {
        var c := FirstLine(buf);
        if c.Cut? {
          line, buf := Some(c.line), c.rest;
          return;
        }
        if conn.chunks == [] {
          buf := [];
          return None;
        }
        buf, conn.chunks := buf + conn.chunks[0], conn.chunks[1..];
      }
    }
  }

  // The result of reading a line, and what is buffered and to come after it.
  datatype Line = Line(line: Option<seq<byte>>, buf: seq<byte>, chunks: seq<seq<byte>>)

  function TakeLine(buf: seq<byte>, chunks: seq<seq<byte>>): (r: Line)
    ensures r.line.Some? ==> |r.chunks| < |chunks| || |r.buf| < |buf|
    ensures |r.chunks| <= |chunks|
    ensures r.line.Some? && NL !in buf ==> |r.chunks| < |chunks|
    decreases |chunks|
  {
    var c := FirstLine(buf);
    if c.Cut? then Line(Some(c.line), c.rest, chunks)
    else if chunks == [] then Line(None, [], [])
    else TakeLine(buf + chunks[0], chunks[1..])
  }

  // Read through a reader, a line is the first of what is buffered and to come,
  // however that is split.
  lemma {:induction false} TakeLineIs(buf: seq<byte>, chunks: seq<seq<byte>>)
    ensures var r := TakeLine(buf, chunks);
            match FirstLine(buf + Concat(chunks))
            case NoLine => r == Line(None, [], [])
            case Cut(line, rest) => r.line == Some(line) && r.buf + Concat(r.chunks) == rest
    decreases |chunks|
  {
    if NL in buf {
      FirstLineAppend(buf, Concat(chunks));
    } else if chunks == [] {
      assert buf + Concat(chunks) == buf;
    } else {
      Regroup(buf, chunks[0], Concat(chunks[1..]));
      TakeLineIs(buf + chunks[0], chunks[1..]);
    }
  }

  // Text behind a newline does not change the first line.
  lemma FirstLineAppend(a: seq<byte>, b: seq<byte>)
    requires NL in a
    ensures FirstLine(a + b) == Cut(FirstLine(a).line, FirstLine(a).rest + b)
  {
    var i := IndexByte(a, NL);
    assert (a + b)[..i] == a[..i];
    IndexByteIsFirst(a + b, NL, i);
    assert (a + b)[..i + 1] == a[..i + 1] && (a + b)[i + 1..] == a[i + 1..] + b;
  }

  // A line that has one newline, as its last byte, is the first of any text it begins.
  lemma LinesCons(line: seq<byte>, text: seq<byte>)
    requires NL !in line
    ensures LinesOf(line + [10] + text) == [line + [10]] + LinesOf(text)
  {
    var all := line + [10] + text;
    assert all[..|line|] == line && all[|line|] == NL;
    IndexByteIsFirst(all, NL, |line|);
    assert all[..|line| + 1] == line + [10] && all[|line| + 1..] == text;
  }

  // ---- Commands ----

  predicate Blank(c: byte) {
    c == CR || c == SPACE || c == NL
  }

  // strings.Trim(s, "\r \n")
  function Trim(s: seq<byte>): seq<byte>
    decreases |s|
  {
    if s == [] then []
    else if Blank(s[0]) then Trim(s[1..])
    else if Blank(s[|s| - 1]) then Trim(s[..|s| - 1])
    else s
  }

  datatype Command = Command(name: seq<byte>, args: seq<seq<byte>>)

  // getCommand
  function Parse(line: seq<byte>): Command {
    var words := SplitOn(Trim(line), SPACE);
    Command(words[0], words[1..])
  }

  // ---- What a command is ----

  // Carriage returns, spaces and line feeds.
  predicate White(c: byte) {
    c == 13 || c == 32 || c == 10
  }

  predicate AllWhite(s: seq<byte>) {
    forall i :: 0 <= i < |s| ==> White(s[i])
  }

  // No such byte at either end.
  predicate Bare(s: seq<byte>) {
    s != [] ==> !White(s[0]) && !White(s[|s| - 1])
  }

  // Trimming takes blanks off both ends, and all of them.
  lemma {:induction false} TrimIs(s: seq<byte>) returns (front: seq<byte>, back: seq<byte>)
    ensures s == front + Trim(s) + back && AllWhite(front) && AllWhite(back) && Bare(Trim(s))
    decreases |s|
  {
    front, back := [], [];
    if s == [] {
    } else if Blank(s[0]) {
      front, back := TrimIs(s[1..]);
      BlankInFront(s, front, Trim(s[1..]), back);
      front := [s[0]] + front;
    } else if Blank(s[|s| - 1]) {
      var last := s[|s| - 1];
      front, back := TrimIs(s[..|s| - 1]);
      BlankBehind(s, front + Trim(s), back);
      back := back + [last];
    } else {
      assert s == [] + s + [];
    }
  }

  lemma BlankInFront(s: seq<byte>, front: seq<byte>, mid: seq<byte>, back: seq<byte>)
    requires s != [] && s[1..] == front + mid + back
    ensures s == [s[0]] + front + mid + back
  {
    assert s == [s[0]] + s[1..];
  }

  lemma BlankBehind(s: seq<byte>, most: seq<byte>, back: seq<byte>)
    requires s != [] && s[..|s| - 1] == most + back
    ensures s == most + (back + [s[|s| - 1]])
  {
    assert s == s[..|s| - 1] + [s[|s| - 1]];
  }

  // And nothing else does that.
  lemma {:induction false} TrimUnique(front: seq<byte>, mid: seq<byte>, back: seq<byte>)
    requires AllWhite(front) && AllWhite(back) && Bare(mid)
    ensures Trim(front + mid + back) == mid
    decreases |front| + |back|
  {
    var s := front + mid + back;
    if front != [] {
      assert s[0] == front[0] && s[1..] == front[1..] + mid + back;
      TrimUnique(front[1..], mid, back);
    } else if back != [] {
      var n := |back| - 1;
      assert s[|s| - 1] == back[n] && s[..|s| - 1] == front + mid + back[..n];
      TrimUnique(front, mid, back[..n]);
      if mid == [] {
        assert s[0] == back[0] && s[1..] == [] + mid + back[1..];
        TrimUnique([], mid, back[1..]);
      } else {
        assert s[0] == mid[0];
      }
    } else {
      assert s == mid;
    }
  }

  // The name and the arguments are what stands between the spaces of the trimmed
  // line: none of them holds a space and, joined by spaces, they are that line.
  lemma ParseIs(line: seq<byte>)
    ensures var words := [Parse(line).name] + Parse(line).args;
            (forall w :: w in words ==> 32 !in w) && Join(words, 32) == Trim(line)
  {
    var words := SplitOn(Trim(line), SPACE);
    assert [words[0]] + words[1..] == words;
    JoinOfSplit(Trim(line), SPACE);
  }

  predicate Word(s: seq<byte>) {
    s != [] && forall i :: 0 <= i < |s| ==> !White(s[i])
  }

  // A line of a name and an argument, as clients send it.
  function CommandLine(name: seq<byte>, argument: seq<byte>): seq<byte> {
    name + [32] + argument + [13, 10]
  }

  lemma ParseCommand(name: seq<byte>, argument: seq<byte>)
    requires Word(name) && Word(argument)
    ensures Parse(CommandLine(name, argument)) == Command(name, [argument])
  {
    var mid := name + [32] + argument;
    assert mid[0] == name[0] && mid[|mid| - 1] == argument[|argument| - 1];
    TrimUnique([], mid, [13, 10]);
    assert [] + mid + [13, 10] == CommandLine(name, argument);
    SplitCons(name, argument, 32);
    SplitOnePiece(argument, 32);
  }

  // A line of a name alone.
  lemma ParseName(name: seq<byte>)
    requires Word(name)
    ensures Parse(name + [13, 10]) == Command(name, [])
  {
    TrimUnique([], name, [13, 10]);
    assert [] + name + [13, 10] == name + [13, 10];
    SplitOnePiece(name, 32);
  }

  function Commands(lines: seq<seq<byte>>): (cs: seq<Command>)
    ensures |cs| == |lines| && forall i :: 0 <= i < |lines| ==> cs[i] == Parse(lines[i])
  {
    seq(|lines|, i requires 0 <= i < |lines| => Parse(lines[i]))
  }

  lemma CommandsUnfold(s: seq<byte>)
    ensures Commands(LinesOf(s))
         == match FirstLine(s)
            case NoLine => []
            case Cut(line, rest) => [Parse(line)] + Commands(LinesOf(rest))
  {
    var c := FirstLine(s);
    if c.Cut? {
      CommandsCons(c.line, LinesOf(c.rest));
    }
  }

  lemma CommandsCons(line: seq<byte>, lines: seq<seq<byte>>)
    ensures Commands([line] + lines) == [Parse(line)] + Commands(lines)
  {
  }

  // The name and the password that a trap reports.
  datatype Credentials = Credentials(user: seq<byte>, password: seq<byte>)

  const USER := Ascii("USER")
  const PASS := Ascii("PASS")
  const QUIT := Ascii("QUIT")

  // A text that begins with the line of a command.
  lemma CommandFirst(name: seq<byte>, argument: seq<byte>, text: seq<byte>)
    requires Word(name) && Word(argument)
    ensures Commands(LinesOf(CommandLine(name, argument) + text))
         == [Command(name, [argument])] + Commands(LinesOf(text))
  {
    var line := name + [32] + argument + [13];
    assert CommandLine(name, argument) == line + [10];
    assert NL !in line;
    LinesCons(line, text);
    CommandsCons(line + [10], LinesOf(text));
    ParseCommand(name, argument);
  }

  lemma NameFirst(name: seq<byte>, text: seq<byte>)
    requires Word(name)
    ensures Commands(LinesOf(name + [13, 10] + text)) == [Command(name, [])] + Commands(LinesOf(text))
  {
    var line := name + [13];
    assert name + [13, 10] == line + [10];
    LinesCons(line, text);
    CommandsCons(line + [10], LinesOf(text));
    ParseName(name);
  }

  // What a client sends to log in and leave: USER, PASS and QUIT.
  function Login(user: seq<byte>, password: seq<byte>, more: seq<byte>): seq<byte> {
    CommandLine(Ascii("USER"), user) + (CommandLine(Ascii("PASS"), password) + (Ascii("QUIT") + [13, 10] + more))
  }

  lemma NamesAreWords()
    ensures Word(Ascii("USER")) && Word(Ascii("PASS")) && Word(Ascii("QUIT"))
  {
  }

  lemma LoginCommands(user: seq<byte>, password: seq<byte>, more: seq<byte>)
    requires Word(user) && Word(password)
    ensures Commands(LinesOf(Login(user, password, more)))
         == [Command(Ascii("USER"), [user])]
            + ([Command(Ascii("PASS"), [password])] + ([Command(Ascii("QUIT"), [])] + Commands(LinesOf(more))))
  {
    NamesAreWords();
    LoginFrom(Ascii("USER"), user, Ascii("PASS"), password, Ascii("QUIT"), more);
  }

  lemma LoginFrom(a: seq<byte>, user: seq<byte>, b: seq<byte>, password: seq<byte>, c: seq<byte>, more: seq<byte>)
    requires Word(a) && Word(b) && Word(c) && Word(user) && Word(password)
    ensures Commands(LinesOf(CommandLine(a, user) + (CommandLine(b, password) + (c + [13, 10] + more))))
         == [Command(a, [user])] + ([Command(b, [password])] + ([Command(c, [])] + Commands(LinesOf(more))))
  {
    var last := c + [13, 10] + more;
    CommandFirst(a, user, CommandLine(b, password) + last);
    CommandFirst(b, password, last);
    NameFirst(c, more);
  }
}
