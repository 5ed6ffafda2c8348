// Any number of resolvers at work on one database and one cache, interleaved at
// the level of single SQL statements and cache operations.
module Interleave {
  import opened Address
  import opened Geo
  import opened Resolver
  import opened Runs
  import opened Wrappers

  datatype Half = Remote | Origin

  // What a SELECT found, and when.
  datatype Seen = Seen(found: Option<Row>, at: int)

  // Where a resolver is inside ResolveEvent, and what it holds there; at in
  // Inserting is the time of the answer of the geo service.
  datatype Pc =
    | Idle
    | ReadRemote(ev: Event)
    | ReadOrigin(ev: Event, remoteId: int)
    | Marking(ev: Event, half: Half, id: int, cachedOrigin: int) // cachedOrigin is 0 off the fast path
    | Selecting(ev: Event, half: Half)
    | Asking(ev: Event, half: Half, seen: Seen)
    | Inserting(ev: Event, half: Half, seen: Seen, place: Place, at: int)
    | Updating(ev: Event, half: Half, id: int)
    | Remembering(ev: Event, half: Half, id: int)

  datatype Shared = Shared(rows: seq<Row>, events: map<int, EventRow>, cache: map<string, int>)

  datatype System = System(shared: Shared, procs: seq<Pc>)

  // What the world answers to one step, and when.
  datatype Answer = Answer(ok: bool, expire: int, lookup: Option<Place>, newId: int, at: int)

  datatype Action =
    | Begin(i: nat, ev: Event)
    | Advance(i: nat, answer: Answer)
    | NewEvent(id: int, row: EventRow)
    | ClearCache

  function AddrOf(ev: Event, half: Half): string {
    if half == Remote then ev.remoteAddr else ev.originAddr
  }

  predicate Enabled(s: System, a: Action) {
    match a
    case Begin(i, ev) =>
      && i < |s.procs| && s.procs[i] == Idle && ev.id in s.shared.events
      && s.shared.events[ev.id].remoteAddr == ev.remoteAddr && s.shared.events[ev.id].originAddr == ev.originAddr
    case Advance(i, answer) =>
      && i < |s.procs| && s.procs[i] != Idle
      && (s.procs[i].Asking? && answer.lookup.Some? ==>
            answer.lookup.value.ip == Normal(AddrOf(s.procs[i].ev, s.procs[i].half)))
      && (s.procs[i].Inserting? ==> answer.newId > 0 && !HasId(s.shared.rows, answer.newId))
    case NewEvent(id, row) => id !in s.shared.events && row.remoteGeo == row.originGeo == None
    case ClearCache => true
  }

  datatype Stepped = Stepped(shared: Shared, pc: Pc)

  // One statement of one resolver.
  function Statement(c: Config, sh: Shared, pc: Pc, a: Answer): Stepped
    requires pc != Idle
  {
    match pc
    case ReadRemote(ev) =>
      if c.useCache then Stepped(sh, ReadOrigin(ev, Cached(sh.cache, ev.remoteAddr)))
      else Stepped(sh, Selecting(ev, Remote))
    case ReadOrigin(ev, r) =>
      var o := Cached(sh.cache, ev.originAddr);
      Stepped(sh, if r > 0 && o > 0 then Marking(ev, Remote, r, o) else Selecting(ev, Remote))
    case Selecting(ev, half) =>
      if !a.ok then Stepped(sh, Marking(ev, half, 0, 0))
      else
        var newest := Newest(sh.rows, Normal(AddrOf(ev, half)));
        if newest.Some? && a.expire <= newest.value.lastUpdate then Stepped(sh, Remembering(ev, half, newest.value.id))
        else Stepped(sh, Asking(ev, half, Seen(newest, a.at)))
    case Asking(ev, half, seen) =>
      if a.lookup.None? then Stepped(sh, Marking(ev, half, 0, 0))
      else if seen.found.Some? && Equals(seen.found.value.place, a.lookup.value) then
        Stepped(sh, Updating(ev, half, seen.found.value.id))
      else Stepped(sh, Inserting(ev, half, seen, a.lookup.value, a.at))
    case Inserting(ev, half, _, place, at) =>
      if !a.ok then Stepped(sh, Marking(ev, half, 0, 0))
      else Stepped(sh.(rows := sh.rows + [Row(a.newId, place, at)]), Remembering(ev, half, a.newId))
    case Updating(ev, half, id) =>
      if !a.ok then Stepped(sh, Marking(ev, half, 0, 0))
      else Stepped(sh.(rows := Touch(sh.rows, id, a.at)), Remembering(ev, half, id))
    case Remembering(ev, half, id) =>
      var key := if half == Remote then ev.remoteAddr else OriginKey(c.keying, ev);
      Stepped(sh.(cache := Remember(sh.cache, c.useCache, key, id)), Marking(ev, half, id, 0))
    case Marking(ev, half, id, cachedOrigin) =>
      var m := Mark(sh.events, sh.rows, ev.id, id, half == Remote, a.ok);
      Stepped(sh.(events := m.events),
        if half == Origin then Idle
        else if cachedOrigin > 0 then Marking(ev, Origin, cachedOrigin, 0)
        else Selecting(ev, Origin))
  }

  function Next(c: Config, s: System, a: Action): System
    requires Enabled(s, a)
  {
    match a
    case Begin(i, ev) => s.(procs := s.procs[i := ReadRemote(ev)])
    case Advance(i, answer) =>
      var r := Statement(c, s.shared, s.procs[i], answer);
      System(r.shared, s.procs[i := r.pc])
    case NewEvent(id, row) => s.(shared := s.shared.(events := s.shared.events[id := row]))
    case ClearCache => s.(shared := s.shared.(cache := map[]))
  }

  // A legal interleaving, and where it leads.
  predicate Legal(c: Config, s: System, actions: seq<Action>)
    decreases |actions|
  {
    actions == [] || (Enabled(s, actions[0]) && Legal(c, Next(c, s, actions[0]), actions[1..]))
  }

  function Reach(c: Config, s: System, actions: seq<Action>): System
    requires Legal(c, s, actions)
    decreases |actions|
  {
    if actions == [] then s else Reach(c, Next(c, s, actions[0]), actions[1..])
  }

  function Start(n: nat): System {
    System(Shared([], map[], map[]), seq(n, _ => Idle))
  }

  // ---- What every interleaving keeps ----

  // Without a cache, or with one keyed by origin, an id stands for a row of its
  // address; with the cache as written only for some row.
  predicate Names(c: Config, rows: seq<Row>, id: int, addr: string) {
    HasId(rows, id) && ((c.useCache && c.keying == UnderRemote) || Locates(rows, id, addr))
  }

  predicate NamesOrZero(c: Config, rows: seq<Row>, id: int, addr: string) {
    id == 0 || Names(c, rows, id, addr)
  }

  predicate IdsUnique(rows: seq<Row>) {
    && (forall i :: 0 <= i < |rows| ==> 0 < rows[i].id)
    && (forall i, j :: 0 <= i < j < |rows| ==> rows[i].id != rows[j].id)
  }

  predicate EventNamed(c: Config, rows: seq<Row>, e: EventRow) {
    && (e.remoteGeo.Some? ==> Names(c, rows, e.remoteGeo.value, e.remoteAddr))
    && (e.originGeo.Some? ==> Names(c, rows, e.originGeo.value, e.originAddr))
  }

  predicate EventsNamed(c: Config, rows: seq<Row>, events: map<int, EventRow>) {
    forall id :: id in events ==> EventNamed(c, rows, events[id])
  }

  predicate CacheNamed(c: Config, rows: seq<Row>, cache: map<string, int>) {
    forall a :: a in cache ==> Names(c, rows, cache[a], a)
  }

  predicate Knows(events: map<int, EventRow>, ev: Event) {
    ev.id in events && events[ev.id].remoteAddr == ev.remoteAddr && events[ev.id].originAddr == ev.originAddr
  }

  // What a resolver holds is right for the table as it is now.
  predicate Holds(c: Config, sh: Shared, pc: Pc) {
    match pc
    case Idle => true
    case ReadRemote(ev) => Knows(sh.events, ev)
    case ReadOrigin(ev, r) => Knows(sh.events, ev) && NamesOrZero(c, sh.rows, r, ev.remoteAddr)
    case Selecting(ev, _) => Knows(sh.events, ev)
    case Asking(ev, half, seen) =>
      Knows(sh.events, ev) && (seen.found.Some? ==> Locates(sh.rows, seen.found.value.id, AddrOf(ev, half)))
    case Inserting(ev, half, _, place, _) => Knows(sh.events, ev) && place.ip == Normal(AddrOf(ev, half))
    case Updating(ev, half, id) => Knows(sh.events, ev) && Locates(sh.rows, id, AddrOf(ev, half))
    case Remembering(ev, half, id) => Knows(sh.events, ev) && Locates(sh.rows, id, AddrOf(ev, half))
    case Marking(ev, half, id, o) =>
      && Knows(sh.events, ev) && NamesOrZero(c, sh.rows, id, AddrOf(ev, half))
      && NamesOrZero(c, sh.rows, o, ev.originAddr)
  }

  predicate SharedOk(c: Config, sh: Shared) {
    IdsUnique(sh.rows) && EventsNamed(c, sh.rows, sh.events) && CacheNamed(c, sh.rows, sh.cache)
  }

  predicate SystemOk(c: Config, s: System) {
    SharedOk(c, s.shared) && forall i :: 0 <= i < |s.procs| ==> Holds(c, s.shared, s.procs[i])
  }

  // The rows and events of one state are still there, in the same places, in another.
  predicate Grows(before: Shared, after: Shared) {
    && |before.rows| <= |after.rows|
    && (forall i :: 0 <= i < |before.rows| ==>
          after.rows[i].id == before.rows[i].id && after.rows[i].place == before.rows[i].place)
    && (forall id :: id in before.events ==>
          && id in after.events && after.events[id].remoteAddr == before.events[id].remoteAddr
          && after.events[id].originAddr == before.events[id].originAddr)
  }

  lemma NamesGrows(c: Config, before: Shared, after: Shared, id: int, addr: string)
    requires Grows(before, after)
    ensures HasId(before.rows, id) ==> HasId(after.rows, id)
    ensures Locates(before.rows, id, addr) ==> Locates(after.rows, id, addr)
    ensures Names(c, before.rows, id, addr) ==> Names(c, after.rows, id, addr)
  {
    if HasId(before.rows, id) {
      var i :| 0 <= i < |before.rows| && before.rows[i].id == id;
      assert after.rows[i].id == id;
    }
    if Locates(before.rows, id, addr) {
      var i :| 0 <= i < |before.rows| && before.rows[i].id == id && before.rows[i].place.ip == Normal(addr);
      assert after.rows[i].id == id && after.rows[i].place.ip == Normal(addr);
    }
  }

  // A resolver is not disturbed by the statements of the others.
  lemma HoldsGrows(c: Config, before: Shared, after: Shared, pc: Pc)
    requires Grows(before, after) && Holds(c, before, pc)
    ensures Holds(c, after, pc)
  {
    match pc
    case ReadOrigin(ev, r) => NamesGrows(c, before, after, r, ev.remoteAddr);
    case Asking(ev, half, seen) =>
      if seen.found.Some? {
        NamesGrows(c, before, after, seen.found.value.id, AddrOf(ev, half));
      }
    case Updating(ev, half, id) => NamesGrows(c, before, after, id, AddrOf(ev, half));
    case Remembering(ev, half, id) => NamesGrows(c, before, after, id, AddrOf(ev, half));
    case Marking(ev, half, id, o) =>
      NamesGrows(c, before, after, id, AddrOf(ev, half));
      NamesGrows(c, before, after, o, ev.originAddr);
    case _ =>
  }

  lemma SharedGrows(c: Config, before: Shared, after: Shared)
    requires SharedOk(c, before) && Grows(before, after) && IdsUnique(after.rows)
    requires after.events == before.events && after.cache == before.cache
    ensures SharedOk(c, after)
  {
    forall id | id in before.events
      ensures EventNamed(c, after.rows, before.events[id])
    {
      var e := before.events[id];
      if e.remoteGeo.Some? {
        NamesGrows(c, before, after, e.remoteGeo.value, e.remoteAddr);
      }
      if e.originGeo.Some? {
        NamesGrows(c, before, after, e.originGeo.value, e.originAddr);
      }
    }
    forall a | a in before.cache
      ensures Names(c, after.rows, before.cache[a], a)
    {
      NamesGrows(c, before, after, before.cache[a], a);
    }
  }

  lemma RowIsLocated(rows: seq<Row>, row: Row, addr: string)
    requires row in rows && row.place.ip == Normal(addr)
    ensures Locates(rows, row.id, addr)
  {
    var i :| 0 <= i < |rows| && rows[i] == row;
    assert rows[i].id == row.id;
  }

  lemma LocatedIsNamed(c: Config, rows: seq<Row>, id: int, addr: string)
    requires Locates(rows, id, addr)
    ensures Names(c, rows, id, addr)
  {
  }

  lemma StatementKeeps(c: Config, sh: Shared, pc: Pc, a: Answer)
    requires SharedOk(c, sh) && Holds(c, sh, pc) && pc != Idle
    requires pc.Asking? && a.lookup.Some? ==> a.lookup.value.ip == Normal(AddrOf(pc.ev, pc.half))
    requires pc.Inserting? ==> a.newId > 0 && !HasId(sh.rows, a.newId)
    ensures var r := Statement(c, sh, pc, a);
            SharedOk(c, r.shared) && Holds(c, r.shared, r.pc) && Grows(sh, r.shared)
  {
    var r := Statement(c, sh, pc, a);
    match pc
    case Selecting(ev, half) =>
      var newest := Newest(sh.rows, Normal(AddrOf(ev, half)));
      if newest.Some? {
        RowIsLocated(sh.rows, newest.value, AddrOf(ev, half));
      }
    case Inserting(ev, half, _, place, at) =>
      if a.ok {
        WritingKeeps(c, sh, r.shared, pc);
        RowIsLocated(r.shared.rows, Row(a.newId, place, at), AddrOf(ev, half));
      }
    case Updating(ev, half, id) =>
      if a.ok {
        WritingKeeps(c, sh, r.shared, pc);
        NamesGrows(c, sh, r.shared, id, AddrOf(ev, half));
      }
    case Remembering(ev, half, id) =>
      LocatedIsNamed(c, sh.rows, id, AddrOf(ev, half));
    case Marking(_, _, _, _) => MarkingKeeps(c, sh, pc, a);
    case _ =>
  }

  lemma WritingKeeps(c: Config, sh: Shared, after: Shared, pc: Pc)
    requires SharedOk(c, sh) && after.events == sh.events && after.cache == sh.cache
    requires (exists row :: after.rows == sh.rows + [row] && row.id > 0 && !HasId(sh.rows, row.id))
             || (exists id, at :: after.rows == Touch(sh.rows, id, at))
    ensures SharedOk(c, after) && Grows(sh, after)
  {
    assert Grows(sh, after) && IdsUnique(after.rows);
    SharedGrows(c, sh, after);
  }

  lemma MarkingKeeps(c: Config, sh: Shared, pc: Pc, a: Answer)
    requires SharedOk(c, sh) && Holds(c, sh, pc) && pc.Marking?
    ensures var r := Statement(c, sh, pc, a);
            SharedOk(c, r.shared) && Holds(c, r.shared, r.pc) && Grows(sh, r.shared)
  {
    var m := Mark(sh.events, sh.rows, pc.ev.id, pc.id, pc.half == Remote, a.ok);
    assert EventNamed(c, sh.rows, sh.events[pc.ev.id]);
    assert EventNamed(c, sh.rows, m.events[pc.ev.id]);
  }

  lemma NextKeeps(c: Config, s: System, a: Action)
    requires SystemOk(c, s) && Enabled(s, a)
    ensures SystemOk(c, Next(c, s, a))
  {
    var next := Next(c, s, a);
    if a.Advance? {
      StatementKeeps(c, s.shared, s.procs[a.i], a.answer);
    }
    assert SharedOk(c, next.shared) && Grows(s.shared, next.shared);
    forall i | 0 <= i < |s.procs|
      ensures Holds(c, next.shared, next.procs[i])
    {
      HoldsGrows(c, s.shared, next.shared, s.procs[i]);
    }
  }

  // In every interleaving every geo id of an event, and every cached id, is one of
  // an existing row; and without a cache, or with the origin cached under its own
  // address, it is a row of exactly that address.
  lemma {:induction false} InterleavingKeeps(c: Config, s: System, actions: seq<Action>)
    requires SystemOk(c, s) && Legal(c, s, actions)
    ensures SystemOk(c, Reach(c, s, actions))
    decreases |actions|
  {
    if actions != [] {
      NextKeeps(c, s, actions[0]);
      InterleavingKeeps(c, Next(c, s, actions[0]), actions[1..]);
    }
  }

  lemma ReferentialIntegrity(c: Config, n: nat, actions: seq<Action>, id: int)
    requires Legal(c, Start(n), actions) && id in Reach(c, Start(n), actions).shared.events
    ensures var sh := Reach(c, Start(n), actions).shared;
            EventNamed(c, sh.rows, sh.events[id])
  {
    InterleavingKeeps(c, Start(n), actions);
  }

  // The foreign key refuses an update exactly when the lookup before it failed.
  lemma ForeignKeyRefusesZero(c: Config, sh: Shared, ev: Event, half: Half, id: int, o: int)
    requires SharedOk(c, sh) && Holds(c, sh, Marking(ev, half, id, o))
    ensures Mark(sh.events, sh.rows, ev.id, id, half == Remote, true).ok <==> id != 0
  {
  }

  // ---- A resolver that is not interrupted ----

  // The world's answer to the next statement of a resolver that works alone.
  function AnswerTo(pc: Pc, rows: seq<Row>, e: EventEnv): Answer
    requires pc != Idle
  {
    var half := if pc.ReadRemote? || pc.ReadOrigin? then Remote else pc.half;
    var env := if half == Remote then e.remote else e.origin;
    var ok := match pc
      case Selecting(_, _) => env.selectOk
      case Marking(_, _, _, _) => if half == Remote then e.markRemoteOk else e.markOriginOk
      case _ => env.writeOk;
    var at := if pc.Selecting? then env.now else if pc.Asking? then env.lookupAt else env.dbNow;
    Answer(ok, env.Expire(), env.lookup, NextId(rows, env.skippedIds), at)
  }

  function Alone(c: Config, e: EventEnv, x: Stepped): Stepped {
    if x.pc == Idle then x else Statement(c, x.shared, x.pc, AnswerTo(x.pc, x.shared.rows, e))
  }

  function Times(c: Config, e: EventEnv, x: Stepped, n: nat): Stepped
    decreases n
  {
    if n == 0 then x else Times(c, e, Alone(c, e, x), n - 1)
  }

  ghost predicate Leads(c: Config, e: EventEnv, x: Stepped, y: Stepped) {
    exists n: nat :: Times(c, e, x, n) == y
  }

  lemma LeadsNow(c: Config, e: EventEnv, x: Stepped)
    ensures Leads(c, e, x, x)
  {
    assert Times(c, e, x, 0) == x;
  }

  lemma LeadsOn(c: Config, e: EventEnv, x: Stepped, y: Stepped, z: Stepped)
    requires Alone(c, e, x) == y && Leads(c, e, y, z)
    ensures Leads(c, e, x, z)
  {
    var n: nat :| Times(c, e, y, n) == z;
    assert Times(c, e, x, n + 1) == z;
  }

  lemma {:induction false} TimesAdd(c: Config, e: EventEnv, x: Stepped, m: nat, n: nat)
    ensures Times(c, e, Times(c, e, x, m), n) == Times(c, e, x, m + n)
    decreases m
  {
    if m > 0 {
      TimesAdd(c, e, Alone(c, e, x), m - 1, n);
    }
  }

  lemma LeadsThrough(c: Config, e: EventEnv, x: Stepped, y: Stepped, z: Stepped)
    requires Leads(c, e, x, y) && Leads(c, e, y, z)
    ensures Leads(c, e, x, z)
  {
    var m: nat :| Times(c, e, x, m) == y;
    var n: nat :| Times(c, e, y, n) == z;
    TimesAdd(c, e, x, m, n);
  }

  // What a lookup of these rows and this id leads to.
  function Found(c: Config, sh: Shared, ev: Event, half: Half, rows: seq<Row>, id: int): Stepped {
    var key := if half == Remote then ev.remoteAddr else OriginKey(c.keying, ev);
    Stepped(Shared(rows, sh.events, Remember(sh.cache, c.useCache, key, id)), Marking(ev, half, id, 0))
  }

  function Looked(c: Config, sh: Shared, ev: Event, half: Half, e: EventEnv): Stepped {
    var env := if half == Remote then e.remote else e.origin;
    var r := ResolveAddr(sh.rows, AddrOf(ev, half), env);
    Found(c, sh, ev, half, r.rows, r.id)
  }

  // From SELECT to the point before the UPDATE of the event: resolveAddr and the
  // assignment to the cache.
  lemma HalfAlone(c: Config, sh: Shared, ev: Event, half: Half, e: EventEnv)
    ensures Leads(c, e, Stepped(sh, Selecting(ev, half)), Looked(c, sh, ev, half, e))
  {
    var env := if half == Remote then e.remote else e.origin;
    var newest := Newest(sh.rows, Normal(AddrOf(ev, half)));
    var x, z := Stepped(sh, Selecting(ev, half)), Looked(c, sh, ev, half, e);
    LeadsNow(c, e, z);
    if env.selectOk {
      if newest.Some? && env.Expire() <= newest.value.lastUpdate {
        LeadsOn(c, e, Stepped(sh, Remembering(ev, half, newest.value.id)), z, z);
        LeadsOn(c, e, x, Stepped(sh, Remembering(ev, half, newest.value.id)), z);
      } else {
        AskAlone(c, sh, ev, half, e);
        LeadsOn(c, e, x, Stepped(sh, Asking(ev, half, Seen(newest, env.now))), z);
      }
    } else {
      LeadsOn(c, e, x, z, z);
    }
  }

  lemma AskAlone(c: Config, sh: Shared, ev: Event, half: Half, e: EventEnv)
    requires var env := if half == Remote then e.remote else e.origin;
             var newest := Newest(sh.rows, Normal(AddrOf(ev, half)));
             env.selectOk && (newest.Some? ==> newest.value.lastUpdate < env.Expire())
    ensures var env := if half == Remote then e.remote else e.origin;
            var seen := Seen(Newest(sh.rows, Normal(AddrOf(ev, half))), env.now);
            Leads(c, e, Stepped(sh, Asking(ev, half, seen)), Looked(c, sh, ev, half, e))
  {
    var env := if half == Remote then e.remote else e.origin;
    var newest := Newest(sh.rows, Normal(AddrOf(ev, half)));
    var seen := Seen(newest, env.now);
    var x, z := Stepped(sh, Asking(ev, half, seen)), Looked(c, sh, ev, half, e);
    LeadsNow(c, e, z);
    if env.lookup.None? {
      LeadsOn(c, e, x, z, z);
    } else if newest.Some? && Equals(newest.value.place, env.lookup.value) {
      var y := Stepped(sh, Updating(ev, half, newest.value.id));
      UpdateAlone(c, sh, ev, half, newest.value.id, e);
      LeadsOn(c, e, x, y, z);
    } else {
      var y := Stepped(sh, Inserting(ev, half, seen, env.lookup.value, env.lookupAt));
      InsertAlone(c, sh, ev, half, seen, e);
      LeadsOn(c, e, x, y, z);
    }
  }

  lemma UpdateAlone(c: Config, sh: Shared, ev: Event, half: Half, id: int, e: EventEnv)
    ensures var env := if half == Remote then e.remote else e.origin;
            Leads(c, e, Stepped(sh, Updating(ev, half, id)),
                  if env.writeOk then Found(c, sh, ev, half, Touch(sh.rows, id, env.dbNow), id)
                  else Found(c, sh, ev, half, sh.rows, 0))
  {
    var env := if half == Remote then e.remote else e.origin;
    WriteAlone(c, Stepped(sh, Updating(ev, half, id)),
               if env.writeOk then Found(c, sh, ev, half, Touch(sh.rows, id, env.dbNow), id)
               else Found(c, sh, ev, half, sh.rows, 0), e);
  }

  lemma InsertAlone(c: Config, sh: Shared, ev: Event, half: Half, seen: Seen, e: EventEnv)
    requires (if half == Remote then e.remote else e.origin).lookup.Some?
    ensures var env := if half == Remote then e.remote else e.origin;
            var r := InsertGeo(sh.rows, env.lookup.value, env);
            Leads(c, e, Stepped(sh, Inserting(ev, half, seen, env.lookup.value, env.lookupAt)),
                  Found(c, sh, ev, half, r.rows, r.id))
  {
    var env := if half == Remote then e.remote else e.origin;
    var r := InsertGeo(sh.rows, env.lookup.value, env);
    WriteAlone(c, Stepped(sh, Inserting(ev, half, seen, env.lookup.value, env.lookupAt)),
               Found(c, sh, ev, half, r.rows, r.id), e);
  }

  // The write and, when it succeeds, the assignment to the cache.
  lemma WriteAlone(c: Config, y: Stepped, z: Stepped, e: EventEnv)
    requires y.pc.Inserting? || y.pc.Updating?
    requires var y' := Alone(c, e, y); y' == z || (y'.pc.Remembering? && Alone(c, e, y') == z)
    ensures Leads(c, e, y, z)
  {
    var y' := Alone(c, e, y);
    LeadsNow(c, e, z);
    if y' != z {
      LeadsOn(c, e, y', z, z);
    }
    LeadsOn(c, e, y, y', z);
  }

  // The statements of one resolver, run without interruption, are what
  // ResolveEvent does as a whole.
  lemma AloneIsProcessed(c: Config, w: World, ev: Event, e: EventEnv)
    requires ev.id != 0
    ensures var after := Processed(w, c.useCache, c.keying, ev, e).world;
            Leads(c, e, Stepped(Shared(w.geo, w.events, w.cache), ReadRemote(ev)),
                  Stepped(Shared(after.geo, after.events, after.cache), Idle))
  {
    if Hits(w.cache, c.useCache, ev) {
      CachedAlone(c, w, ev, e);
    } else {
      var sh := Shared(w.geo, w.events, w.cache);
      var x, start := Stepped(sh, ReadRemote(ev)), Stepped(sh, Selecting(ev, Remote));
      var after := Processed(w, c.useCache, c.keying, ev, e).world;
      var z := Stepped(Shared(after.geo, after.events, after.cache), Idle);
      BothHalvesAlone(c, w, ev, e);
      if c.useCache {
        LeadsOn(c, e, Alone(c, e, x), start, z);
      }
      LeadsOn(c, e, x, Alone(c, e, x), z);
    }
  }

  lemma BothHalvesAlone(c: Config, w: World, ev: Event, e: EventEnv)
    ensures var after := FromDatabase(w, c.useCache, c.keying, ev, e).world;
            Leads(c, e, Stepped(Shared(w.geo, w.events, w.cache), Selecting(ev, Remote)),
                  Stepped(Shared(after.geo, after.events, after.cache), Idle))
  {
    var sh := Shared(w.geo, w.events, w.cache);
    var s1 := Looked(c, sh, ev, Remote, e);
    var s2 := Alone(c, e, s1);
    var s3 := Looked(c, s2.shared, ev, Origin, e);
    var z := Alone(c, e, s3);
    HalfAlone(c, sh, ev, Remote, e);
    HalfAlone(c, s2.shared, ev, Origin, e);
    LeadsNow(c, e, z);
    LeadsOn(c, e, s3, z, z);
    LeadsThrough(c, e, s2, s3, z);
    LeadsOn(c, e, s1, s2, z);
    LeadsThrough(c, e, Stepped(sh, Selecting(ev, Remote)), s1, z);
  }

  lemma CachedAlone(c: Config, w: World, ev: Event, e: EventEnv)
    requires ev.id != 0 && Hits(w.cache, c.useCache, ev)
    ensures var after := Processed(w, c.useCache, c.keying, ev, e).world;
            Leads(c, e, Stepped(Shared(w.geo, w.events, w.cache), ReadRemote(ev)),
                  Stepped(Shared(after.geo, after.events, after.cache), Idle))
  {
    var after := Processed(w, c.useCache, c.keying, ev, e).world;
    var x, z := Stepped(Shared(w.geo, w.events, w.cache), ReadRemote(ev)),
                Stepped(Shared(after.geo, after.events, after.cache), Idle);
    var s1 := Alone(c, e, x);
    var s2 := Alone(c, e, s1);
    var s3 := Alone(c, e, s2);
    LeadsNow(c, e, z);
    LeadsOn(c, e, s3, z, z);
    LeadsOn(c, e, s2, s3, z);
    LeadsOn(c, e, s1, s2, z);
    LeadsOn(c, e, x, s1, z);
  }
}
