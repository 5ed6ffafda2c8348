// When the location history of an address survives that several resolvers work on
// it at once, and when it does not.
module SharedHistory {
  import opened Address
  import opened Geo
  import opened Resolver
  import opened Runs
  import opened Interleave
  import opened Wrappers

  // ---- Time ----

  // Steps happen one after the other, a row has expired only if it is over 28 days
  // old, and a serial column counts up.
  predicate InTime(s: System, clock: int, a: Action)
    requires Enabled(s, a)
  {
    a.Advance? ==>
      var pc := s.procs[a.i];
      && clock <= a.answer.at
      && (pc.Selecting? ==> a.answer.expire <= a.answer.at - 28 * DAY)
      && (pc.Inserting? ==> forall i :: 0 <= i < |s.shared.rows| ==> s.shared.rows[i].id < a.answer.newId)
  }

  function Clock(clock: int, a: Action): int {
    if a.Advance? then a.answer.at else clock
  }

  predicate RunInTime(c: Config, s: System, clock: int, actions: seq<Action>)
    requires Legal(c, s, actions)
    decreases |actions|
  {
    actions == []
    || (InTime(s, clock, actions[0]) && RunInTime(c, Next(c, s, actions[0]), Clock(clock, actions[0]), actions[1..]))
  }

  predicate HistoryThroughout(c: Config, s: System, clock: int, actions: seq<Action>)
    requires Legal(c, s, actions)
    decreases |actions|
  {
    && History(s.shared.rows, clock)
    && (actions == []
        || HistoryThroughout(c, Next(c, s, actions[0]), Clock(clock, actions[0]), actions[1..]))
  }

  // ---- The exact condition ----

  // The row of this id is the newest of the address.
  predicate IsLast(rows: seq<Row>, ip: string, id: int) {
    Newest(rows, ip).Some? && Newest(rows, ip).value.id == id
  }

  // An INSERT goes to a table whose newest row of the address is over 28 days older
  // and elsewhere; an UPDATE goes to the newest row of its address.
  predicate Fits(s: System, a: Action)
    requires Enabled(s, a)
  {
    a.Advance? && a.answer.ok ==>
      match s.procs[a.i]
      case Inserting(_, _, _, place, at) => MayFollow(s.shared.rows, Row(a.answer.newId, place, at))
      case Updating(ev, half, id) => IsLast(s.shared.rows, Normal(AddrOf(ev, half)), id)
      case _ => true
  }

  predicate AllFit(c: Config, s: System, actions: seq<Action>)
    requires Legal(c, s, actions)
    decreases |actions|
  {
    actions == [] || (Fits(s, actions[0]) && AllFit(c, Next(c, s, actions[0]), actions[1..]))
  }

  // The geo service has answered by now.
  predicate Answered(s: System, clock: int) {
    forall i :: 0 <= i < |s.procs| && s.procs[i].Inserting? ==> s.procs[i].at <= clock
  }

  lemma HistoryLasts(rows: seq<Row>, clock: int, later: int)
    requires History(rows, clock) && clock <= later
    ensures History(rows, later)
  {
  }

  lemma StepKeepsHistoryIff(c: Config, s: System, clock: int, a: Action)
    requires SystemOk(c, s) && Enabled(s, a) && InTime(s, clock, a)
    requires History(s.shared.rows, clock) && Answered(s, clock)
    ensures History(Next(c, s, a).shared.rows, Clock(clock, a)) <==> Fits(s, a)
    ensures Answered(Next(c, s, a), Clock(clock, a))
  {
    if a.Advance? {
      var rows, pc := s.shared.rows, s.procs[a.i];
      HistoryLasts(rows, clock, a.answer.at);
      if pc.Inserting? && a.answer.ok {
        HistoryInsertIff(rows, clock, Row(a.answer.newId, pc.place, pc.at), a.answer.at);
      } else if pc.Updating? && a.answer.ok {
        UpdateKeepsHistoryIff(rows, clock, pc.id, AddrOf(pc.ev, pc.half), a.answer.at);
      }
    }
  }

  lemma UpdateKeepsHistoryIff(rows: seq<Row>, clock: int, id: int, addr: string, at: int)
    requires History(rows, clock) && Locates(rows, id, addr) && clock <= at
    ensures History(Touch(rows, id, at), at) <==> IsLast(rows, Normal(addr), id)
  {
    var m :| 0 <= m < |rows| && rows[m].id == id && rows[m].place.ip == Normal(addr);
    HistoryTouchIff(rows, clock, rows[m], at);
  }

  // In every interleaving of any number of resolvers, the table is a history all
  // along if and only if every INSERT and UPDATE finds it as it has to be.
  lemma {:induction false} HistoryIff(c: Config, s: System, clock: int, actions: seq<Action>)
    requires SystemOk(c, s) && Legal(c, s, actions) && RunInTime(c, s, clock, actions)
    requires History(s.shared.rows, clock) && Answered(s, clock)
    ensures HistoryThroughout(c, s, clock, actions) <==> AllFit(c, s, actions)
    decreases |actions|
  {
    if actions != [] {
      NextKeeps(c, s, actions[0]);
      StepKeepsHistoryIff(c, s, clock, actions[0]);
      if Fits(s, actions[0]) {
        HistoryIff(c, Next(c, s, actions[0]), Clock(clock, actions[0]), actions[1..]);
      }
    }
  }

  // ---- Resolvers that do not dawdle ----

  const PATIENCE := 14 * DAY

  // At most 14 days pass between a SELECT and the write that follows from it.
  predicate Prompt(s: System, a: Action)
    requires Enabled(s, a)
  {
    a.Advance? ==>
      match s.procs[a.i]
      case Asking(_, _, seen) => a.answer.at <= seen.at + PATIENCE
      case Inserting(_, _, seen, _, _) => a.answer.at <= seen.at + PATIENCE
      case _ => true
  }

  predicate AllPrompt(c: Config, s: System, actions: seq<Action>)
    requires Legal(c, s, actions)
    decreases |actions|
  {
    actions == [] || (Prompt(s, actions[0]) && AllPrompt(c, Next(c, s, actions[0]), actions[1..]))
  }

  // Since the SELECT nobody else has written a row of the address: the newest row
  // is still what was found there, or still the row that is to be updated.
  predicate Undisturbed(s: System, a: Action)
    requires Enabled(s, a)
  {
    a.Advance? && a.answer.ok ==>
      match s.procs[a.i]
      case Inserting(ev, half, seen, _, _) => Newest(s.shared.rows, Normal(AddrOf(ev, half))) == seen.found
      case Updating(ev, half, id) => IsLast(s.shared.rows, Normal(AddrOf(ev, half)), id)
      case _ => true
  }

  predicate AllUndisturbed(c: Config, s: System, actions: seq<Action>)
    requires Legal(c, s, actions)
    decreases |actions|
  {
    actions == [] || (Undisturbed(s, actions[0]) && AllUndisturbed(c, Next(c, s, actions[0]), actions[1..]))
  }

  // What a SELECT found had expired.
  predicate Expired(seen: Seen) {
    seen.found.Some? ==> seen.found.value.lastUpdate + 28 * DAY < seen.at
  }

  // The newest row is what the SELECT found or one that is not much older than it.
  predicate Recalls(rows: seq<Row>, ip: string, seen: Seen) {
    || Newest(rows, ip) == seen.found
    || (Newest(rows, ip).Some? && seen.at <= Newest(rows, ip).value.lastUpdate + PATIENCE)
  }

  // What a resolver between its SELECT and its write knows.
  predicate Aware(rows: seq<Row>, clock: int, pc: Pc) {
    match pc
    case Asking(ev, half, seen) =>
      Expired(seen) && seen.at <= clock && Recalls(rows, Normal(AddrOf(ev, half)), seen)
    case Inserting(ev, half, seen, place, at) =>
      && Expired(seen) && seen.at <= at <= clock && at <= seen.at + PATIENCE
      && Recalls(rows, Normal(AddrOf(ev, half)), seen)
      && (seen.found.Some? ==> !Equals(seen.found.value.place, place))
    case _ => true
  }

  predicate AllAware(s: System, clock: int) {
    forall i :: 0 <= i < |s.procs| ==> Aware(s.shared.rows, clock, s.procs[i])
  }

  lemma FitsIffUndisturbed(c: Config, s: System, clock: int, a: Action)
    requires SystemOk(c, s) && Enabled(s, a) && AllAware(s, clock)
    ensures Fits(s, a) <==> Undisturbed(s, a)
  {
    if a.Advance? {
      assert Aware(s.shared.rows, clock, s.procs[a.i]) && Holds(c, s.shared, s.procs[a.i]);
    }
  }

  // The address a statement writes a row of.
  predicate WritesTo(pc: Pc, ip: string) {
    match pc
    case Inserting(ev, half, _, _, _) => Normal(AddrOf(ev, half)) == ip
    case Updating(ev, half, _) => Normal(AddrOf(ev, half)) == ip
    case _ => false
  }

  lemma OthersUntouched(c: Config, sh: Shared, pc: Pc, a: Answer, ip: string)
    requires SharedOk(c, sh) && Holds(c, sh, pc) && pc != Idle && !WritesTo(pc, ip)
    ensures Newest(Statement(c, sh, pc, a).shared.rows, ip) == Newest(sh.rows, ip)
  {
    NewestOfSame(sh.rows, Statement(c, sh, pc, a).shared.rows, ip);
  }

  // A write leaves a row of its address that is not older than what it knows.
  lemma WriteIsRecent(c: Config, sh: Shared, pc: Pc, a: Answer, ip: string)
    requires SharedOk(c, sh) && Holds(c, sh, pc) && a.ok && WritesTo(pc, ip)
    ensures var newest := Newest(Statement(c, sh, pc, a).shared.rows, ip);
            newest.Some? && (if pc.Inserting? then pc.at else a.at) <= newest.value.lastUpdate
  {
    var rows := Statement(c, sh, pc, a).shared.rows;
    if pc.Inserting? {
      assert rows[|sh.rows|] == Row(a.newId, pc.place, pc.at);
    } else {
      var m :| 0 <= m < |sh.rows| && sh.rows[m].id == pc.id && sh.rows[m].place.ip == Normal(AddrOf(pc.ev, pc.half));
      assert rows[m].lastUpdate == a.at && rows[m].place.ip == ip;
    }
  }

  lemma StillRecalls(c: Config, sh: Shared, clock: int, pc: Pc, a: Answer, ip: string, seen: Seen)
    requires SharedOk(c, sh) && Holds(c, sh, pc) && Aware(sh.rows, clock, pc) && pc != Idle
    requires clock <= a.at && (pc.Inserting? ==> a.at <= pc.seen.at + PATIENCE)
    requires seen.at <= clock && Recalls(sh.rows, ip, seen)
    ensures Recalls(Statement(c, sh, pc, a).shared.rows, ip, seen)
  {
    if WritesTo(pc, ip) && a.ok {
      WriteIsRecent(c, sh, pc, a, ip);
    } else if !WritesTo(pc, ip) {
      OthersUntouched(c, sh, pc, a, ip);
    }
  }

  lemma StillAware(c: Config, sh: Shared, clock: int, pc: Pc, a: Answer, other: Pc)
    requires SharedOk(c, sh) && Holds(c, sh, pc) && Aware(sh.rows, clock, pc) && pc != Idle
    requires clock <= a.at && (pc.Inserting? ==> a.at <= pc.seen.at + PATIENCE)
    requires Aware(sh.rows, clock, other)
    ensures Aware(Statement(c, sh, pc, a).shared.rows, a.at, other)
  {
    if other.Asking? || other.Inserting? {
      StillRecalls(c, sh, clock, pc, a, Normal(AddrOf(other.ev, other.half)), other.seen);
    }
  }

  lemma NextAware(c: Config, s: System, clock: int, a: Action)
    requires SystemOk(c, s) && Enabled(s, a) && InTime(s, clock, a) && Prompt(s, a) && AllAware(s, clock)
    ensures AllAware(Next(c, s, a), Clock(clock, a))
  {
    if a.Advance? {
      var pc := s.procs[a.i];
      assert Aware(s.shared.rows, clock, pc) && Holds(c, s.shared, pc);
      forall i | 0 <= i < |s.procs|
        ensures Aware(Next(c, s, a).shared.rows, a.answer.at, Next(c, s, a).procs[i])
      {
        StillAware(c, s.shared, clock, pc, a.answer, s.procs[i]);
      }
    }
  }

  // With resolvers that write within 14 days of their SELECT, the table is a
  // history all along if and only if nobody else writes a row of an address between
  // a resolver's SELECT and its write.
  lemma {:induction false} UndisturbedIff(c: Config, s: System, clock: int, actions: seq<Action>)
    requires SystemOk(c, s) && Legal(c, s, actions) && RunInTime(c, s, clock, actions) && AllPrompt(c, s, actions)
    requires History(s.shared.rows, clock) && AllAware(s, clock)
    ensures HistoryThroughout(c, s, clock, actions) <==> AllUndisturbed(c, s, actions)
    decreases |actions|
  {
    if actions != [] {
      NextKeeps(c, s, actions[0]);
      NextAware(c, s, clock, actions[0]);
      FitsIffUndisturbed(c, s, clock, actions[0]);
      StepKeepsHistoryIff(c, s, clock, actions[0]);
      if Fits(s, actions[0]) {
        UndisturbedIff(c, Next(c, s, actions[0]), Clock(clock, actions[0]), actions[1..]);
      }
    }
  }

  // ---- Resolvers at work on different addresses ----

  predicate Busy(pc: Pc) {
    pc.Asking? || pc.Inserting? || pc.Updating?
  }

  // No two resolvers are between SELECT and write for the same address.
  predicate Apart(s: System) {
    forall i, j :: 0 <= i < |s.procs| && 0 <= j < |s.procs| && i != j && Busy(s.procs[i]) && Busy(s.procs[j])
      ==> Normal(AddrOf(s.procs[i].ev, s.procs[i].half)) != Normal(AddrOf(s.procs[j].ev, s.procs[j].half))
  }

  predicate AllApart(c: Config, s: System, actions: seq<Action>)
    requires Legal(c, s, actions)
    decreases |actions|
  {
    Apart(s) && (actions == [] || AllApart(c, Next(c, s, actions[0]), actions[1..]))
  }

  // What a resolver found is still so.
  predicate UpToDate(rows: seq<Row>, clock: int, pc: Pc) {
    match pc
    case Asking(ev, half, seen) =>
      Expired(seen) && seen.at <= clock && Newest(rows, Normal(AddrOf(ev, half))) == seen.found
    case Inserting(ev, half, seen, place, at) =>
      && Expired(seen) && seen.at <= at <= clock && Newest(rows, Normal(AddrOf(ev, half))) == seen.found
      && (seen.found.Some? ==> !Equals(seen.found.value.place, place))
    case Updating(ev, half, id) => IsLast(rows, Normal(AddrOf(ev, half)), id)
    case _ => true
  }

  predicate AllUpToDate(s: System, clock: int) {
    forall i :: 0 <= i < |s.procs| ==> UpToDate(s.shared.rows, clock, s.procs[i])
  }

  lemma UpToDateFits(c: Config, s: System, clock: int, a: Action)
    requires SystemOk(c, s) && Enabled(s, a) && AllUpToDate(s, clock)
    ensures Fits(s, a) && Answered(s, clock)
  {
    if a.Advance? {
      assert UpToDate(s.shared.rows, clock, s.procs[a.i]) && Holds(c, s.shared, s.procs[a.i]);
    }
  }

  lemma NextUpToDate(c: Config, s: System, clock: int, a: Action)
    requires SystemOk(c, s) && Enabled(s, a) && InTime(s, clock, a) && AllUpToDate(s, clock) && Apart(s)
    ensures AllUpToDate(Next(c, s, a), Clock(clock, a))
  {
    if a.Advance? {
      var pc := s.procs[a.i];
      assert UpToDate(s.shared.rows, clock, pc) && Holds(c, s.shared, pc);
      forall i | 0 <= i < |s.procs|
        ensures UpToDate(Next(c, s, a).shared.rows, a.answer.at, Next(c, s, a).procs[i])
      {
        var other := s.procs[i];
        if i != a.i && Busy(other) {
          OthersUntouched(c, s.shared, pc, a.answer, Normal(AddrOf(other.ev, other.half)));
        }
      }
    }
  }

  // However slow they are, resolvers that are never at work on the same address at
  // the same time keep the history.
  lemma {:induction false} ApartKeepsHistory(c: Config, s: System, clock: int, actions: seq<Action>)
    requires SystemOk(c, s) && Legal(c, s, actions) && RunInTime(c, s, clock, actions)
    requires History(s.shared.rows, clock) && AllUpToDate(s, clock) && AllApart(c, s, actions)
    ensures HistoryThroughout(c, s, clock, actions)
    decreases |actions|
  {
    if actions != [] {
      NextKeeps(c, s, actions[0]);
      UpToDateFits(c, s, clock, actions[0]);
      NextUpToDate(c, s, clock, actions[0]);
      StepKeepsHistoryIff(c, s, clock, actions[0]);
      ApartKeepsHistory(c, Next(c, s, actions[0]), Clock(clock, actions[0]), actions[1..]);
    }
  }

  // At the start there is nothing to be wrong about.
  lemma FromStart(c: Config, n: nat, clock: int)
    ensures SystemOk(c, Start(n)) && History(Start(n).shared.rows, clock)
    ensures Answered(Start(n), clock) && AllAware(Start(n), clock) && AllUpToDate(Start(n), clock) && Apart(Start(n))
  {
  }

  // ---- Two resolvers and one address ----

  // A prompt run that takes no time leads from one state to the other.
  predicate Quick(c: Config, s: System, actions: seq<Action>, t: System, now: int) {
    && Legal(c, s, actions) && Reach(c, s, actions) == t
    && RunInTime(c, s, now, actions) && AllPrompt(c, s, actions)
  }

  ghost predicate Quickly(c: Config, s: System, t: System, now: int) {
    exists actions :: Quick(c, s, actions, t, now)
  }

  lemma QuicklyOn(c: Config, s: System, a: Action, t: System, now: int)
    requires Enabled(s, a) && InTime(s, now, a) && Prompt(s, a) && Clock(now, a) == now
    requires Quickly(c, Next(c, s, a), t, now)
    ensures Quickly(c, s, t, now)
  {
    var rest :| Quick(c, Next(c, s, a), rest, t, now);
    assert ([a] + rest)[1..] == rest;
    assert Quick(c, s, [a] + rest, t, now);
  }

  // Two resolvers that both find no row for an address both insert one.
  lemma ConcurrentDuplicates(c: Config, row: EventRow, place: Place, now: int)
    requires !c.useCache && row.remoteGeo == row.originGeo == None && place.ip == Normal(row.remoteAddr)
    ensures exists actions, t :: Quick(c, Start(2), actions, t, now)
              && !HistoryThroughout(c, Start(2), now, actions)
              && var rows := t.shared.rows;
                 |rows| == 2 && rows[0].place == rows[1].place && !Spaced(rows) && !Compressed(rows)
  {
    var ev := Event(1, row.remoteAddr, row.originAddr);
    var p := Advance(0, Answer(true, now - 28 * DAY, Some(place), 1, now));
    var q := Advance(1, Answer(true, now - 28 * DAY, Some(place), 2, now));
    var s0 := Next(c, Start(2), NewEvent(1, row));
    var s1 := Next(c, s0, Begin(0, ev));
    var s2 := Next(c, s1, Begin(1, ev));
    var t := BothInsert(c, s2, ev, place, p, q, now);
    QuicklyOn(c, s1, Begin(1, ev), t, now);
    QuicklyOn(c, s0, Begin(0, ev), t, now);
    QuicklyOn(c, Start(2), NewEvent(1, row), t, now);
    var actions :| Quick(c, Start(2), actions, t, now);
    assert Adjacent(t.shared.rows, 0, 1);
    EndsInHistory(c, Start(2), now, actions);
  }

  lemma {:induction false} EndsInHistory(c: Config, s: System, clock: int, actions: seq<Action>)
    requires Legal(c, s, actions)
    ensures HistoryThroughout(c, s, clock, actions) ==> Spaced(Reach(c, s, actions).shared.rows)
    decreases |actions|
  {
    if actions != [] {
      EndsInHistory(c, Next(c, s, actions[0]), Clock(clock, actions[0]), actions[1..]);
    }
  }

  // Both resolvers take their statements in turn: cache or not, SELECT, geo service, INSERT.
  lemma BothInsert(c: Config, s: System, ev: Event, place: Place, p: Action, q: Action, now: int) returns (t: System)
    requires !c.useCache && s.procs == [ReadRemote(ev), ReadRemote(ev)] && s.shared.rows == []
    requires place.ip == Normal(ev.remoteAddr)
    requires p == Advance(0, Answer(true, now - 28 * DAY, Some(place), 1, now))
    requires q == Advance(1, Answer(true, now - 28 * DAY, Some(place), 2, now))
    ensures Quickly(c, s, t, now) && t.shared.rows == [Row(1, place, now), Row(2, place, now)]
  {
    var s1 := Next(c, s, p);
    var s2 := Next(c, s1, q);
    var s3 := Next(c, s2, p);
    var s4 := Next(c, s3, q);
    t := InsertBoth(c, s4, ev, place, p, q, now);
    QuicklyOn(c, s3, q, t, now);
    QuicklyOn(c, s2, p, t, now);
    QuicklyOn(c, s1, q, t, now);
    QuicklyOn(c, s, p, t, now);
  }

  lemma InsertBoth(c: Config, s: System, ev: Event, place: Place, p: Action, q: Action, now: int) returns (t: System)
    requires s.procs == [Asking(ev, Remote, Seen(None, now)), Asking(ev, Remote, Seen(None, now))]
    requires s.shared.rows == [] && place.ip == Normal(ev.remoteAddr)
    requires p == Advance(0, Answer(true, now - 28 * DAY, Some(place), 1, now))
    requires q == Advance(1, Answer(true, now - 28 * DAY, Some(place), 2, now))
    ensures Quickly(c, s, t, now) && t.shared.rows == [Row(1, place, now), Row(2, place, now)]
  {
    var s1 := Next(c, s, p);
    var s2 := Next(c, s1, q);
    var s3 := Next(c, s2, p);
    assert s3.shared.rows == [Row(1, place, now)];
    t := Next(c, s3, q);
    assert Quick(c, t, [], t, now);
    QuicklyOn(c, s3, q, t, now);
    QuicklyOn(c, s2, p, t, now);
    QuicklyOn(c, s1, q, t, now);
    QuicklyOn(c, s, p, t, now);
  }
}
