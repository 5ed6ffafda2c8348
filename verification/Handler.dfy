// cmd/psql/psql.go over shared memory: one 512-byte scratch array serves for
// received messages and for messages being written, and the goroutine that sends
// the event reads the startup slice whenever it happens to run.
module Handler {
  import opened Buf
  import opened Bytes
  import opened Frames
  import opened NulList
  import opened Session
  import opened Slices

  // The client's end: bytes still to be read, bytes written, and the outcome of
  // every write to come.
  class Conn {
    const faults: seq<Fault>
    var input: seq<byte>
    var output: seq<byte>
    var writes: nat

    constructor (input: seq<byte>, faults: seq<Fault>)
      ensures this.input == input && output == [] && writes == 0 && this.faults == faults
    {
      this.input, this.output, this.writes, this.faults := input, [], 0, faults;
    }

    method Write(d: seq<byte>) returns (err: IoError)
      modifies this
      ensures err == FaultAt(faults, old(writes)).error
      ensures output == old(output) + Leaves(d, FaultAt(faults, old(writes)))
      ensures writes == old(writes) + 1 && input == old(input)
    {
      var f := FaultAt(faults, writes);
      output, writes, err := output + Leaves(d, f), writes + 1, f.error;
    }

    // io.ReadFull: fills y, or what there is before the end and reports an error.
    method ReadFull(y: Slice) returns (ok: bool)
      requires y.Valid()
      modifies this, y.arr
      ensures ok <==> y.len <= |old(input)|
      ensures ok ==> y.View() == old(input)[..y.len] && input == old(input)[y.len..]
      ensures output == old(output) && writes == old(writes)
    {
      ok := y.len <= |input|;
      var n := if ok then y.len else |input|;
      Copy(y, input[..n]);
      input := input[n..];
      if ok {
        assert y.View() == old(input)[..n];
      }
    }
  }

  class EventQueue {
    var events: seq<Event>

    constructor ()
      ensures events == []
    {
      events := [];
    }

    // sendEvent: params is read now, not when the goroutine was started.
    method SendEvent(user: seq<byte>, password: seq<byte>, params: Slice)
      requires params.Valid()
      modifies this
      ensures events == old(events) + [EventOf(user, password, params.View())]
    {
      var strings := NullTermToStrings(params.View());
      events := events + [Event(user, password, JoinBars(strings))];
    }
  }

  // A goroutine that was started and has yet to run; it runs at the point of the
  // session that the scheduler picks.
  datatype Pending = Pending(user: seq<byte>, password: seq<byte>, params: Slice, runsAt: nat)

  datatype Status = Ok | Failed | Crashed

  class Handler {
    const conn: Conn
    const queue: EventQueue
    const scratch: array<byte>

    ghost predicate Valid() {
      scratch.Length == 512
    }

    constructor (conn: Conn, queue: EventQueue)
      ensures Valid() && this.conn == conn && this.queue == queue && fresh(scratch)
    {
      this.conn, this.queue := conn, queue;
      var a := new byte[512](_ => 0);
      this.scratch := a;
    }

    // The payload is a window of scratch when it fits there.
    method RecvMessage() returns (s: Status, t: byte, y: Slice)
      requires Valid()
      modifies conn, scratch
      ensures conn.output == old(conn.output) && conn.writes == old(conn.writes)
      ensures match Receive(old(conn.input))
              case Short => s == Failed
              case Crash => s == Crashed
              case Got(m, rest) =>
                && s == Ok && t == m.tag && conn.input == rest
                && y.Valid() && y.View() == m.payload
                && (y.arr == scratch || fresh(y.arr))
    {
      t := 0;
      ghost var input := conn.input;
      var x := Make(5);
      y := x;
      var ok := conn.ReadFull(x);
      if !ok {
        return Failed, t, y;
      }
      var header := x.View();
      assert header[1..] == input[1..5];
      t := header[0];
      var n := FromBe32(header[1..]) - 4;
      if n < 0 {
        return Crashed, t, y;
      }
      if n <= scratch.Length {
        y := Slice(scratch, 0, n, scratch.Length);
      } else {
        y := Make(n);
      }
      ok := conn.ReadFull(y);
      s := if ok then Ok else Failed;
      if ok {
        assert input[5..][..n] == input[5..5 + n] && input[5..][n..] == input[5 + n..];
      }
    }

    // The startup body always gets an array of its own.
    method RecvStartMessage() returns (s: Status, y: Slice)
      requires Valid()
      modifies conn, scratch
      decreases |conn.input|
      ensures match Start(old(conn.input), old(conn.output), conn.faults, old(conn.writes))
              case NoStartup(out) => s == Failed && conn.output == out
              case StartupCrash(out) => s == Crashed && conn.output == out
              case Ready(body, rest, out, k) =>
                && s == Ok && conn.input == rest && conn.output == out && conn.writes == k
                && y.Valid() && y.View() == body && fresh(y.arr)
    {
      ghost var input := conn.input;
      var x := Slice(scratch, 0, 4, scratch.Length);
      y := x;
      var ok := conn.ReadFull(x);
      if !ok {
        return Failed, y;
      }
      var n := FromBe32(x.View()) - 8;
      x := Make(4);
      ok := conn.ReadFull(x);
      if !ok {
        return Failed, y;
      }
      assert x.View() == input[4..][..4];
      assert conn.input == input[8..];
      var version := FromBe32(x.View());
      if version == SSL_REQUEST {
        var err := conn.Write([TAG_N]);
        if err != NoError {
          return Failed, y;
        }
        s, y := RecvStartMessage();
        return;
      }
      if n < 0 {
        return Crashed, y;
      }
      y := Make(n);
      ok := conn.ReadFull(y);
      s := if ok then Ok else Failed;
      if ok {
        assert input[8..][..n] == input[8..8 + n] && input[8..][n..] == input[8 + n..];
      }
    }

    method Recv() returns (s: Status, t: byte, y: Slice)
      requires Valid()
      modifies conn, scratch
      ensures conn.output == old(conn.output) && conn.writes == old(conn.writes)
      ensures match Session.Recv(old(conn.input))
              case NoReply => s == Failed
              case ReplyCrash => s == Crashed
              case Reply(m, rest) =>
                && s == Ok && t == m.tag && conn.input == rest
                && y.Valid() && y.View() == m.payload
                && (y.arr == scratch || fresh(y.arr))
    {
      while true
        invariant Session.Recv(conn.input) == Session.Recv(old(conn.input))
        invariant conn.output == old(conn.output) && conn.writes == old(conn.writes)
        decreases |conn.input|
      {
        s, t, y := RecvMessage();
        if s != Ok || t == TAG_E {
          s := if s == Crashed then Crashed else Failed;
          return;
        }
        if t != TAG_N {
          return;
        }
      }
    }

    // writeBuf: only the type byte is set; four stale bytes follow it.
    method NewWriteBuf(b: byte) returns (w: WriteBuf)
      requires Valid()
      modifies scratch
      ensures w.Valid() && fresh(w) && w.buf.arr == scratch
      ensures w.done == [] && w.open == Msg(b, [])
    {
      scratch[0] := b;
      w := new WriteBuf(Slice(scratch, 0, 5, scratch.Length));
    }

    method Send(w: WriteBuf) returns (err: IoError)
      requires w.Valid()
      modifies conn, w.buf.arr
      ensures err == FaultAt(conn.faults, old(conn.writes)).error
      ensures conn.output == old(conn.output)
              + Leaves(Stream(w.done + [w.open]), FaultAt(conn.faults, old(conn.writes)))
      ensures conn.writes == old(conn.writes) + 1 && conn.input == old(conn.input)
    {
      var s := w.Wrap();
      err := conn.Write(s.View());
    }

    // A point where the scheduler may run the pending goroutine. At each point it
    // reads memory as it is then; ev is what it must find.
    method Yield(p: Pending, point: nat, ghost before: seq<Event>, ghost ev: Event)
      requires p.params.Valid() && ev == EventOf(p.user, p.password, p.params.View())
      requires queue.events == Sent(before, ev, p, point)
      modifies queue
      ensures queue.events == Sent(before, ev, p, point + 1)
    {
      if p.runsAt == point {
        queue.SendEvent(p.user, p.password, p.params);
      }
    }

    // Write the i-th field of the rejection.
    method Say(w: WriteBuf, fields: seq<seq<byte>>, i: nat, p: Pending, ghost before: seq<Event>, ghost ev: Event)
      requires w.Valid() && w.done == [] && i < |fields| && w.open == Msg(TAG_E, Terminated(fields[..i]))
      requires p.params.Valid() && p.params.arr != w.buf.arr && ev == EventOf(p.user, p.password, p.params.View())
      requires queue.events == Sent(before, ev, p, i + 2)
      modifies w, w.buf.arr, queue
      ensures w.Valid() && w.done == [] && w.open == Msg(TAG_E, Terminated(fields[..i + 1]))
      ensures w.Moved(old(w.buf)) && p.params.View() == old(p.params.View())
      ensures queue.events == Sent(before, ev, p, i + 3)
    {
      w.String(fields[i]);
      TerminatedSnoc(fields[..i], fields[i]);
      assert fields[..i + 1] == fields[..i] + [fields[i]];
      assert Terminated(fields[..i]) + (fields[i] + [0]) == Terminated(fields[..i]) + fields[i] + [0];
      Yield(p, i + 2, before, ev);
    }

    // Send the request for a password.
    method Authenticate() returns (err: IoError)
      requires Valid()
      modifies conn, scratch
      ensures err == FaultAt(conn.faults, old(conn.writes)).error
      ensures conn.output == old(conn.output) + Leaves(Frame(AUTH_REQUEST), FaultAt(conn.faults, old(conn.writes)))
      ensures conn.writes == old(conn.writes) + 1 && conn.input == old(conn.input)
    {
      var w := NewWriteBuf(TAG_R);
      w.Int32(3);
      assert [] + Be32(3) == Be32(3);
      StreamOfOne(AUTH_REQUEST);
      err := Send(w);
    }

    // The rejection, while the goroutine may run between any two calls.
    method Reject(user: seq<byte>, p: Pending, ghost before: seq<Event>, ghost ev: Event)
      requires Valid()
      requires p.params.Valid() && p.params.arr != scratch && ev == EventOf(p.user, p.password, p.params.View())
      requires queue.events == Sent(before, ev, p, 1)
      modifies conn, scratch, queue
      ensures conn.output == old(conn.output) + Leaves(Frame(ErrorReply(user)), FaultAt(conn.faults, old(conn.writes)))
      ensures p.params.View() == old(p.params.View())
      ensures queue.events == Sent(before, ev, p, 10)
    {
      var w := NewWriteBuf(TAG_E);
      Yield(p, 1, before, ev);
      var fields := ErrorFields(user);
      for i := 0 to |fields|
        invariant w.Valid() && fresh(w) && w.done == [] && w.open == Msg(TAG_E, Terminated(fields[..i]))
        invariant w.buf.arr == scratch || fresh(w.buf.arr)
        invariant p.params.View() == old(p.params.View()) && queue.events == Sent(before, ev, p, i + 2)
        invariant conn.output == old(conn.output) && conn.writes == old(conn.writes)
      {
        Say(w, fields, i, p, before, ev);
      }
      assert fields[..7] == fields;
      StreamOfOne(ErrorReply(user));
      var _ := Send(w);
      Yield(p, 9, before, ev);
    }

    // One session. runsAt is the point at which the scheduler runs the goroutine
    // that sends the event: 0 is at once, 9 or more is after the handler returns.
    // For every input, every way the writes fare and every schedule, the result
    // is that of Run, which knows nothing of shared arrays.
    method HandleClient(runsAt: nat) returns (crashed: bool)
      requires Valid()
      modifies conn, scratch, queue
      ensures var o := Run(old(conn.input), old(conn.output), conn.faults, old(conn.writes));
              queue.events == old(queue.events) + o.events && conn.output == o.output && crashed == o.crashed
    {
      ghost var start := Start(conn.input, conn.output, conn.faults, conn.writes);
      ghost var o := Run(conn.input, conn.output, conn.faults, conn.writes);
      var s, body := RecvStartMessage();
      if s != Ok {
        assert o == Outcome([], conn.output, s == Crashed);
        return s == Crashed;
      }
      assert o == Session.Greet(body.View(), conn.input, conn.output, FaultAt(conn.faults, conn.writes),
                                FaultAt(conn.faults, conn.writes + 1));
      crashed := Greet(body, runsAt);
    }

    method Greet(body: Slice, runsAt: nat) returns (crashed: bool)
      requires Valid() && body.Valid() && body.arr != scratch
      modifies conn, scratch, queue
      ensures var k := old(conn.writes);
              var o := Session.Greet(old(body.View()), old(conn.input), old(conn.output), FaultAt(conn.faults, k),
                                     FaultAt(conn.faults, k + 1));
              queue.events == old(queue.events) + o.events && conn.output == o.output && crashed == o.crashed
      ensures body.View() == old(body.View())
    {
      var user, outOfRange := FindUser(Split(body.View()));
      if outOfRange {
        return true;
      }
      var err := Authenticate();
      if err == Eof {
        queue.SendEvent(user, [], body);
        return false;
      }
      crashed := Converse(user, body, runsAt);
    }

    // The rest of handleClient, from the wait for the password on.
    method Converse(user: seq<byte>, body: Slice, runsAt: nat) returns (crashed: bool)
      requires Valid() && body.Valid() && body.arr != scratch
      modifies conn, scratch, queue
      ensures var o := Session.Converse(user, old(body.View()), old(conn.input), old(conn.output),
                                        FaultAt(conn.faults, old(conn.writes)));
              queue.events == old(queue.events) + o.events && conn.output == o.output && crashed == o.crashed
      ensures body.View() == old(body.View())
    {
      ghost var r := Session.Recv(conn.input);
      var s, t, msg := Recv();
      crashed := Report(user, body, runsAt, s, msg, r);
    }

    // What was received in place of the password is reported and refused.
    method Report(user: seq<byte>, body: Slice, runsAt: nat, s: Status, msg: Slice, ghost r: Reply)
      returns (crashed: bool)
      requires Valid() && body.Valid() && body.arr != scratch
      requires match r
               case NoReply => s == Failed
               case ReplyCrash => s == Crashed
               case Reply(m, _) => s == Ok && msg.Valid() && msg.View() == m.payload
      modifies conn, scratch, queue
      ensures var o := Session.Report(user, old(body.View()), r, old(conn.output),
                                      FaultAt(conn.faults, old(conn.writes)));
              queue.events == old(queue.events) + o.events && conn.output == o.output && crashed == o.crashed
      ensures body.View() == old(body.View())
    {
      ghost var before, sent := queue.events, body.View();
      if s == Crashed {
        return true;
      }
      if s == Failed {
        queue.SendEvent(user, [], body);
        return false;
      }
      if msg.len == 0 {
        return true;
      }
      var password := msg.View()[..msg.len - 1];
      var p := Pending(user, password, body, if runsAt < 9 then runsAt else 9);
      ghost var ev := EventOf(user, password, sent);
      Yield(p, 0, before, ev);
      Reject(user, p, before, ev);
      crashed := false;
    }
  }

  // The queue after the first n points.
  ghost function Sent(before: seq<Event>, ev: Event, p: Pending, n: nat): seq<Event> {
    if p.runsAt < n then before + [ev] else before
  }

  lemma StreamOfOne(m: Msg)
    ensures Stream([] + [m]) == Frame(m)
  {
    assert [] + [m] == [m];
    StreamSnoc([], m);
    assert Stream([]) + Frame(m) == Frame(m);
  }
}
