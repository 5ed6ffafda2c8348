// What every run of the resolver keeps: the location history of each address,
// references that resolve, fresh results, and what the cache may and may not say.
module Runs {
  import opened Address
  import opened Cache
  import opened Geo
  import opened Resolver
  import opened Wrappers

  // ---- One lookup ----

  lemma NextIdIsNew(rows: seq<Row>, skipped: nat)
    requires IdsIncrease(rows)
    ensures NextId(rows, skipped) > 0
    ensures forall i :: 0 <= i < |rows| ==> rows[i].id < NextId(rows, skipped)
  {
  }

  lemma InsertKeepsHistory(rows: seq<Row>, clock: int, place: Place, env: Env)
    requires History(rows, clock) && clock <= env.lookupAt <= env.End()
    requires MayFollow(rows, Row(NextId(rows, env.skippedIds), place, env.lookupAt))
    ensures var r := InsertGeo(rows, place, env);
            && History(r.rows, env.End()) && Extends(rows, r.rows)
            && (r.ok ==> Newest(r.rows, place.ip) == Some(Row(r.id, place, env.lookupAt)))
  {
    NextIdIsNew(rows, env.skippedIds);
    if env.writeOk {
      var row := Row(NextId(rows, env.skippedIds), place, env.lookupAt);
      HistoryInsert(rows, clock, row);
      NewestIsLast(rows + [row], place.ip, env.lookupAt, |rows|);
    }
  }

  // Every lookup, whatever the outcome, leaves a compressed history that extends
  // the one before; a failed one changes nothing and returns 0. A successful one
  // returns the id of the newest row of the address: that row has not expired,
  // and every other row of the address is over 28 days older.
  predicate LookupGood(rows: seq<Row>, r: Resolved, ip: string, env: Env) {
    && History(r.rows, env.End()) && Extends(rows, r.rows)
    && if r.ok then r.id > 0 && FreshNewest(r.rows, r.id, ip, env.Expire()) else r.rows == rows && r.id == 0
  }

  lemma LookupFindsNewest(rows: seq<Row>, clock: int, addr: string, env: Env)
    requires History(rows, clock) && EnvOk(env, clock, addr)
    ensures LookupGood(rows, ResolveAddr(rows, addr, env), Normal(addr), env)
  {
    var ip := Normal(addr);
    var newest := Newest(rows, ip);
    if env.selectOk && newest.Some? && env.Expire() <= newest.value.lastUpdate {
      NewestIsFresh(rows, clock, ip, env.Expire());
    } else if env.selectOk && env.lookup.Some? && env.writeOk {
      if newest.Some? && Equals(newest.value.place, env.lookup.value) {
        LookupTouches(rows, clock, ip, env);
      } else {
        LookupInserts(rows, clock, env.lookup.value, env);
      }
    }
  }

  lemma LookupTouches(rows: seq<Row>, clock: int, ip: string, env: Env)
    requires History(rows, clock) && Timely(env, clock) && Newest(rows, ip).Some?
    ensures var row := Newest(rows, ip).value;
            LookupGood(rows, Resolved(Touch(rows, row.id, env.dbNow), row.id, true, true), ip, env)
  {
    var row := Newest(rows, ip).value;
    HistoryTouch(rows, clock, row, env.dbNow);
    NewestIsFresh(Touch(rows, row.id, env.dbNow), env.dbNow, ip, env.Expire());
  }

  lemma LookupInserts(rows: seq<Row>, clock: int, place: Place, env: Env)
    requires History(rows, clock) && Timely(env, clock)
    requires Newest(rows, place.ip).Some? ==>
               var last := Newest(rows, place.ip).value;
               last.lastUpdate < env.Expire() && !Equals(last.place, place)
    ensures LookupGood(rows, InsertGeo(rows, place, env), place.ip, env)
  {
    InsertKeepsHistory(rows, clock, place, env);
    var r := InsertGeo(rows, place, env);
    if r.ok {
      NewestIsFresh(r.rows, env.End(), place.ip, env.Expire());
    }
  }

  predicate FreshNewest(rows: seq<Row>, id: int, ip: string, expire: int) {
    && Newest(rows, ip).Some?
    && var row := Newest(rows, ip).value;
       && IsRow(rows, id, row) && expire <= row.lastUpdate
       && forall i :: 0 <= i < |rows| && rows[i].place.ip == ip && rows[i] != row
            ==> rows[i].lastUpdate + 28 * DAY < row.lastUpdate
  }

  lemma NewestIsFresh(rows: seq<Row>, clock: int, ip: string, expire: int)
    requires History(rows, clock)
    requires Newest(rows, ip).Some? && expire <= Newest(rows, ip).value.lastUpdate
    ensures FreshNewest(rows, Newest(rows, ip).value.id, ip, expire)
    ensures Newest(rows, ip).value.id > 0
  {
    var row := Newest(rows, ip).value;
    var m :| 0 <= m < |rows| && rows[m] == row;
    NewestIsLast(rows, ip, clock, m);
  }

  // Asking again: the geo service is spared exactly while the row has not expired,
  // which it has not for 28 days; then the answer is the same and nothing changes.
  lemma LookupAgain(rows: seq<Row>, clock: int, addr: string, env: Env, again: Env)
    requires History(rows, clock) && EnvOk(env, clock, addr) && 28 <= again.monthDays && again.selectOk
    requires ResolveAddr(rows, addr, env).ok
    ensures Newest(ResolveAddr(rows, addr, env).rows, Normal(addr)).Some?
    ensures var r := ResolveAddr(rows, addr, env);
            var row := Newest(r.rows, Normal(addr)).value;
            && (!ResolveAddr(r.rows, addr, again).asked <==> again.Expire() <= row.lastUpdate)
            && (again.Expire() <= row.lastUpdate ==>
                  ResolveAddr(r.rows, addr, again) == Resolved(r.rows, r.id, true, false))
            && (again.now - 28 * 86_400_000_000_000 <= row.lastUpdate ==> again.Expire() <= row.lastUpdate)
  {
    LookupNames(rows, clock, addr, env);
  }

  // What a lookup asks and what it writes. It succeeds without asking while the row
  // has not expired; otherwise exactly when the geo service answers and the write
  // goes through. Then the newest row of the address is at the location answered:
  // the same row, touched, if that is where it was, and else a new one.
  lemma LookupWrites(rows: seq<Row>, clock: int, addr: string, env: Env)
    requires History(rows, clock) && EnvOk(env, clock, addr)
    ensures var (was, r) := (Newest(rows, Normal(addr)), ResolveAddr(rows, addr, env));
            var live := was.Some? && env.now - env.monthDays * 86_400_000_000_000 <= was.value.lastUpdate;
            && (r.asked <==> env.selectOk && !live)
            && (r.ok <==> env.selectOk && (live || (env.lookup.Some? && env.writeOk)))
            && (r.ok && live ==> r.rows == rows && r.id == was.value.id)
            && (r.ok && !live ==> WroteAnswer(rows, was, r, Normal(addr), env))
  {
    var ip, newest := Normal(addr), Newest(rows, Normal(addr));
    if env.selectOk && env.lookup.Some? && env.writeOk && !(newest.Some? && env.Expire() <= newest.value.lastUpdate) {
      if newest.Some? && Equals(newest.value.place, env.lookup.value) {
        HistoryTouch(rows, clock, newest.value, env.dbNow);
      } else {
        InsertKeepsHistory(rows, clock, env.lookup.value, env);
        NextIdIsNew(rows, env.skippedIds);
      }
    }
  }

  predicate WroteAnswer(rows: seq<Row>, newest: Option<Row>, r: Resolved, ip: string, env: Env) {
    && env.lookup.Some? && Newest(r.rows, ip).Some?
    && var row := Newest(r.rows, ip).value;
       && row.id == r.id && row.place == env.lookup.value
       && (if newest.Some? && newest.value.place == env.lookup.value
           then r.id == newest.value.id && |r.rows| == |rows| && row.lastUpdate == env.dbNow
           else !HasId(rows, r.id) && |r.rows| == |rows| + 1 && row.lastUpdate == env.lookupAt)
  }

  // Whose row it is: that of the address itself if a dotted pair of numbers stands
  // in it, and otherwise that of the local host.
  lemma LookupIsFor(rows: seq<Row>, clock: int, addr: string, env: Env)
    requires History(rows, clock) && Timely(env, clock)
    requires env.lookup.Some? ==> env.lookup.value.ip == (if HasDottedPair(addr) then addr else "127.0.0.1")
    requires ResolveAddr(rows, addr, env).ok
    ensures var r := ResolveAddr(rows, addr, env);
            exists row :: IsRow(r.rows, r.id, row) && row.place.ip == if HasDottedPair(addr) then addr else "127.0.0.1"
  {
    MatchesIff(addr);
    LookupFindsNewest(rows, clock, addr, env);
    var r := ResolveAddr(rows, addr, env);
    assert IsRow(r.rows, r.id, Newest(r.rows, Normal(addr)).value);
  }

  lemma LookupNames(rows: seq<Row>, clock: int, addr: string, env: Env)
    requires History(rows, clock) && EnvOk(env, clock, addr) && ResolveAddr(rows, addr, env).ok
    ensures var r := ResolveAddr(rows, addr, env);
            Newest(r.rows, Normal(addr)).Some? && Newest(r.rows, Normal(addr)).value.id == r.id
  {
    LookupFindsNewest(rows, clock, addr, env);
  }

  // ---- One event ----

  predicate EventEnvOk(env: EventEnv, clock: int, ev: Event) {
    EnvOk(env.remote, clock, ev.remoteAddr) && EnvOk(env.origin, env.remote.End(), ev.originAddr)
  }

  // A location id that names a row of the address.
  predicate Locates(rows: seq<Row>, id: int, addr: string) {
    exists i :: 0 <= i < |rows| && rows[i].id == id && rows[i].place.ip == Normal(addr)
  }

  // The row of the id was confirmed at that time or later.
  predicate Since(rows: seq<Row>, id: int, time: int) {
    exists i :: 0 <= i < |rows| && rows[i].id == id && time <= rows[i].lastUpdate
  }

  lemma SinceExtends(before: seq<Row>, after: seq<Row>, id: int, time: int)
    requires Extends(before, after) && Since(before, id, time)
    ensures Since(after, id, time)
  {
    var i :| 0 <= i < |before| && before[i].id == id && time <= before[i].lastUpdate;
    assert after[i].id == id && time <= after[i].lastUpdate;
  }

  lemma LocatesExtends(before: seq<Row>, after: seq<Row>, id: int, addr: string)
    requires Extends(before, after) && IdsIncrease(after) && HasId(before, id)
    ensures HasId(after, id)
    ensures Locates(before, id, addr) <==> Locates(after, id, addr)
  {
    var i :| 0 <= i < |before| && before[i].id == id;
    assert after[i].id == id;
  }

  // The event as it is after its two updates, of which each may or may not be made.
  function MarkedWith(events: map<int, EventRow>, id: int, remote: Option<int>, origin: Option<int>)
    : map<int, EventRow>
  {
    if id !in events then events
    else
      events[id := EventRow(events[id].remoteAddr, events[id].originAddr,
                            if remote.Some? then remote else events[id].remoteGeo,
                            if origin.Some? then origin else events[id].originGeo)]
  }

  // Resolving an event that missed the cache: an id is 0 exactly when its address
  // did not resolve, a failure of one half leaves the other half alone, and the
  // result is free of errors exactly when both lookups and both updates succeeded.
  // Each half marks the event exactly when its lookup and its update succeeded, with
  // the id of a row of its address; no other event changes.
  lemma EventFromDatabase(w: World, clock: int, useCache: bool, keying: Keying, ev: Event, env: EventEnv)
    requires History(w.geo, clock) && EventEnvOk(env, clock, ev)
    ensures var r := ResolveAddr(w.geo, ev.remoteAddr, env.remote);
            var o := ResolveAddr(r.rows, ev.originAddr, env.origin);
            var res := FromDatabase(w, useCache, keying, ev, env);
            && (res.remoteId == 0 <==> !r.ok) && (res.originId == 0 <==> !o.ok)
            && (!r.ok ==> o == ResolveAddr(w.geo, ev.originAddr, env.origin))
            && (res.ok <==> r.ok && env.markRemoteOk && o.ok && env.markOriginOk)
            && res.world.events == MarkedWith(w.events, ev.id,
                                              if r.ok && env.markRemoteOk then Some(res.remoteId) else None,
                                              if o.ok && env.markOriginOk then Some(res.originId) else None)
            && (r.ok ==> Locates(res.world.geo, res.remoteId, ev.remoteAddr))
            && (o.ok ==> Locates(res.world.geo, res.originId, ev.originAddr))
            && History(res.world.geo, env.origin.End()) && Extends(w.geo, res.world.geo)
  {
    var r := ResolveAddr(w.geo, ev.remoteAddr, env.remote);
    var o := ResolveAddr(r.rows, ev.originAddr, env.origin);
    BothLookups(w.geo, clock, ev, env);
    NoRowZero(r.rows);
    NoRowZero(o.rows);
    MarkTwice(w.events, r.rows, o.rows, ev.id, r.id, o.id, env);
  }

  // An update is refused by the foreign key exactly when it names no row.
  lemma MarkTwice(events: map<int, EventRow>, rows: seq<Row>, after: seq<Row>, id: int, r: int, o: int, env: EventEnv)
    ensures var m1 := Mark(events, rows, id, r, true, env.markRemoteOk);
            var m2 := Mark(m1.events, after, id, o, false, env.markOriginOk);
            && m2.events == MarkedWith(events, id, if HasId(rows, r) && env.markRemoteOk then Some(r) else None,
                                       if HasId(after, o) && env.markOriginOk then Some(o) else None)
            && (m1.ok <==> env.markRemoteOk && (id in events ==> HasId(rows, r)))
            && (m2.ok <==> env.markOriginOk && (id in events ==> HasId(after, o)))
  {
  }

  // Resolving an event both of whose addresses are cached: the ids are the cached
  // ones, the event is marked with them, and the error tells of the two updates.
  // Nobody is asked, and neither table nor cache changes.
  lemma EventFromCache(s: State, keying: Keying, ev: Event, env: EventEnv)
    requires Inv(s) && ev.id != 0 && ev.remoteAddr in s.world.cache && ev.originAddr in s.world.cache
    ensures var (r, o) := (s.world.cache[ev.remoteAddr], s.world.cache[ev.originAddr]);
            var events := MarkedWith(s.world.events, ev.id, if env.markRemoteOk then Some(r) else None,
                                     if env.markOriginOk then Some(o) else None);
            Processed(s.world, true, keying, ev, env)
            == Result(World(s.world.geo, events, s.world.cache), r, o, env.markRemoteOk && env.markOriginOk)
  {
    var (r, o) := (s.world.cache[ev.remoteAddr], s.world.cache[ev.originAddr]);
    SinceNamesRow(s.world.geo, r, s.lastClear - 31 * DAY);
    SinceNamesRow(s.world.geo, o, s.lastClear - 31 * DAY);
    MarkTwice(s.world.events, s.world.geo, s.world.geo, ev.id, r, o, env);
  }

  lemma SinceNamesRow(rows: seq<Row>, id: int, time: int)
    requires Since(rows, id, time)
    ensures HasId(rows, id)
  {
  }

  // An event without an id is refused, and one that is not cached on both sides is
  // looked up.
  lemma EventElse(w: World, useCache: bool, keying: Keying, ev: Event, env: EventEnv)
    ensures ev.id == 0 ==> Processed(w, useCache, keying, ev, env) == Result(w, 0, 0, false)
    ensures ev.id != 0 && (!useCache || ev.remoteAddr !in w.cache || ev.originAddr !in w.cache) ==>
              Processed(w, useCache, keying, ev, env) == FromDatabase(w, useCache, keying, ev, env)
  {
  }

  lemma NoRowZero(rows: seq<Row>)
    requires IdsIncrease(rows)
    ensures !HasId(rows, 0)
  {
  }

  lemma BothLookups(rows: seq<Row>, clock: int, ev: Event, env: EventEnv)
    requires History(rows, clock) && EventEnvOk(env, clock, ev)
    ensures var r := ResolveAddr(rows, ev.remoteAddr, env.remote);
            var o := ResolveAddr(r.rows, ev.originAddr, env.origin);
            && History(r.rows, env.remote.End()) && Extends(rows, r.rows)
            && History(o.rows, env.origin.End()) && Extends(r.rows, o.rows) && Extends(rows, o.rows)
            && (if r.ok then r.id > 0 && HasId(r.rows, r.id)
                             && Locates(o.rows, r.id, ev.remoteAddr) && Since(o.rows, r.id, env.remote.Expire())
                else r.id == 0 && r.rows == rows)
            && (if o.ok then o.id > 0 && HasId(o.rows, o.id)
                             && Locates(o.rows, o.id, ev.originAddr) && Since(o.rows, o.id, env.origin.Expire())
                else o.id == 0 && o.rows == r.rows)
  {
    var r := ResolveAddr(rows, ev.remoteAddr, env.remote);
    LookupLocates(rows, clock, ev.remoteAddr, env.remote);
    LookupLocates(r.rows, env.remote.End(), ev.originAddr, env.origin);
    ExtendsTransitive(rows, r.rows, ResolveAddr(r.rows, ev.originAddr, env.origin).rows);
    if r.ok {
      LocatesExtends(r.rows, ResolveAddr(r.rows, ev.originAddr, env.origin).rows, r.id, ev.remoteAddr);
      SinceExtends(r.rows, ResolveAddr(r.rows, ev.originAddr, env.origin).rows, r.id, env.remote.Expire());
    }
  }

  lemma LookupLocates(rows: seq<Row>, clock: int, addr: string, env: Env)
    requires History(rows, clock) && EnvOk(env, clock, addr)
    ensures var r := ResolveAddr(rows, addr, env);
            && History(r.rows, env.End()) && Extends(rows, r.rows)
            && (if r.ok then r.id > 0 && Locates(r.rows, r.id, addr) && Since(r.rows, r.id, env.Expire())
                else r.id == 0 && r.rows == rows)
  {
    LookupFindsNewest(rows, clock, addr, env);
    var r := ResolveAddr(rows, addr, env);
    if r.ok {
      var row := Newest(r.rows, Normal(addr)).value;
      var i :| 0 <= i < |r.rows| && r.rows[i] == row;
      assert r.rows[i].id == r.id;
    }
  }

  // ---- Whole runs ----

  datatype State = State(world: World, clock: int, lastClear: int)

  // What a run is made of: lookups for batches, single events from record to
  // resolve, and the timer that clears the cache.
  datatype Step =
    | Lookup(addr: string, env: Env)
    | Record(id: int, row: EventRow)
    | Process(ev: Event, eventEnv: EventEnv)
    | Clear(at: int)

  datatype Config = Config(useCache: bool, keying: Keying)

  predicate StepOk(s: State, step: Step) {
    match step
    case Lookup(addr, env) => EnvOk(env, s.clock, addr)
    case Record(id, row) => id > 0 && id !in s.world.events && row.remoteGeo == row.originGeo == None
    case Process(ev, env) => EventEnvOk(env, s.clock, ev)
    case Clear(at) => s.clock <= at
  }

  function Do(c: Config, s: State, step: Step): State {
    match step
    case Lookup(addr, env) =>
      if c.useCache && addr in s.world.cache then s
      else State(s.world.(geo := ResolveAddr(s.world.geo, addr, env).rows), env.End(), s.lastClear)
    case Record(id, row) => s.(world := s.world.(events := s.world.events[id := row]))
    case Process(ev, env) =>
      State(Processed(s.world, c.useCache, c.keying, ev, env).world, env.origin.End(), s.lastClear)
    case Clear(at) => State(s.world.(cache := map[]), at, at)
  }

  predicate RunOk(c: Config, s: State, steps: seq<Step>)
    decreases |steps|
  {
    steps == [] || (StepOk(s, steps[0]) && RunOk(c, Do(c, s, steps[0]), steps[1..]))
  }

  function Run(c: Config, s: State, steps: seq<Step>): State
    decreases |steps|
  {
    if steps == [] then s else Run(c, Do(c, s, steps[0]), steps[1..])
  }

  const INITIAL := State(World([], map[], map[]), 0, 0)

  const AS_WRITTEN := Config(true, UnderRemote)

  // Every geo id of an event is NULL or names a row.
  predicate References(w: World) {
    forall id :: id in w.events ==>
      && (w.events[id].remoteGeo.Some? ==> HasId(w.geo, w.events[id].remoteGeo.value))
      && (w.events[id].originGeo.Some? ==> HasId(w.geo, w.events[id].originGeo.value))
  }

  // Every cached id names a row that had not expired when the cache was last
  // cleared, or was confirmed later.
  predicate CacheLive(rows: seq<Row>, cache: map<string, int>, lastClear: int) {
    forall a :: a in cache ==> cache[a] > 0 && Since(rows, cache[a], lastClear - 31 * DAY)
  }

  predicate Inv(s: State) {
    && History(s.world.geo, s.clock) && References(s.world) && s.lastClear <= s.clock
    && CacheLive(s.world.geo, s.world.cache, s.lastClear)
  }

  lemma MarkKeepsReferences(w: World, rows: seq<Row>, id: int, geoId: int, remote: bool, dbOk: bool)
    requires References(w) && Extends(w.geo, rows)
    ensures References(World(rows, Mark(w.events, rows, id, geoId, remote, dbOk).events, w.cache))
  {
    ReferencesExtend(w, rows);
  }

  lemma ReferencesExtend(w: World, rows: seq<Row>)
    requires References(w) && Extends(w.geo, rows)
    ensures References(w.(geo := rows))
  {
    forall id | HasId(w.geo, id)
      ensures HasId(rows, id)
    {
      var i :| 0 <= i < |w.geo| && w.geo[i].id == id;
      assert rows[i].id == id;
    }
  }

  lemma CacheLiveExtends(before: seq<Row>, after: seq<Row>, cache: map<string, int>, lastClear: int)
    requires CacheLive(before, cache, lastClear) && Extends(before, after)
    ensures CacheLive(after, cache, lastClear)
  {
    forall a | a in cache
      ensures Since(after, cache[a], lastClear - 31 * DAY)
    {
      SinceExtends(before, after, cache[a], lastClear - 31 * DAY);
    }
  }

  lemma RememberLive(rows: seq<Row>, cache: map<string, int>, lastClear: int, c: Config, key: string, id: int)
    requires CacheLive(rows, cache, lastClear) && (id > 0 ==> Since(rows, id, lastClear - 31 * DAY))
    ensures CacheLive(rows, Remember(cache, c.useCache, key, id), lastClear)
  {
  }

  lemma ProcessKeepsInv(c: Config, s: State, ev: Event, env: EventEnv)
    requires Inv(s) && EventEnvOk(env, s.clock, ev)
    ensures Inv(Do(c, s, Process(ev, env))) && Extends(s.world.geo, Do(c, s, Process(ev, env)).world.geo)
  {
    var w := s.world;
    if ev.id != 0 && Hits(w.cache, c.useCache, ev) {
      var m1 := Mark(w.events, w.geo, ev.id, Cached(w.cache, ev.remoteAddr), true, env.markRemoteOk);
      MarkKeepsReferences(w, w.geo, ev.id, Cached(w.cache, ev.remoteAddr), true, env.markRemoteOk);
      MarkKeepsReferences(w.(events := m1.events), w.geo, ev.id, Cached(w.cache, ev.originAddr), false,
                          env.markOriginOk);
    } else if ev.id != 0 {
      BothLookups(w.geo, s.clock, ev, env);
      DatabaseKeepsReferences(c, w, ev, env);
      DatabaseKeepsCacheLive(c, s, ev, env);
    }
  }

  lemma DatabaseKeepsReferences(c: Config, w: World, ev: Event, env: EventEnv)
    requires References(w)
    requires var r := ResolveAddr(w.geo, ev.remoteAddr, env.remote);
             Extends(w.geo, r.rows) && Extends(r.rows, ResolveAddr(r.rows, ev.originAddr, env.origin).rows)
    ensures References(FromDatabase(w, c.useCache, c.keying, ev, env).world)
  {
    var r := ResolveAddr(w.geo, ev.remoteAddr, env.remote);
    var o := ResolveAddr(r.rows, ev.originAddr, env.origin);
    var m1 := Mark(w.events, r.rows, ev.id, r.id, true, env.markRemoteOk);
    MarkKeepsReferences(w, r.rows, ev.id, r.id, true, env.markRemoteOk);
    MarkKeepsReferences(World(r.rows, m1.events, w.cache), o.rows, ev.id, o.id, false, env.markOriginOk);
  }

  lemma DatabaseKeepsCacheLive(c: Config, s: State, ev: Event, env: EventEnv)
    requires Inv(s) && EventEnvOk(env, s.clock, ev)
    ensures var w := FromDatabase(s.world, c.useCache, c.keying, ev, env).world;
            CacheLive(w.geo, w.cache, s.lastClear)
  {
    var w, since := s.world, s.lastClear - 31 * DAY;
    var r := ResolveAddr(w.geo, ev.remoteAddr, env.remote);
    var o := ResolveAddr(r.rows, ev.originAddr, env.origin);
    assert Extends(w.geo, o.rows) && (r.id > 0 ==> Since(o.rows, r.id, since))
           && (o.id > 0 ==> Since(o.rows, o.id, since)) by {
      BothLookups(w.geo, s.clock, ev, env);
      assert since <= env.remote.Expire() && since <= env.origin.Expire();
      if r.ok {
        SinceEarlier(o.rows, r.id, env.remote.Expire(), since);
      }
      if o.ok {
        SinceEarlier(o.rows, o.id, env.origin.Expire(), since);
      }
    }
    CacheLiveExtends(w.geo, o.rows, w.cache, s.lastClear);
    RememberLive(o.rows, w.cache, s.lastClear, c, ev.remoteAddr, r.id);
    RememberLive(o.rows, Remember(w.cache, c.useCache, ev.remoteAddr, r.id), s.lastClear, c, OriginKey(c.keying, ev),
                 o.id);
  }

  lemma SinceEarlier(rows: seq<Row>, id: int, time: int, earlier: int)
    requires Since(rows, id, time) && earlier <= time
    ensures Since(rows, id, earlier)
  {
    var i :| 0 <= i < |rows| && rows[i].id == id && time <= rows[i].lastUpdate;
    assert earlier <= rows[i].lastUpdate;
  }

  lemma StepKeepsInv(c: Config, s: State, step: Step)
    requires Inv(s) && StepOk(s, step)
    ensures Inv(Do(c, s, step)) && Extends(s.world.geo, Do(c, s, step).world.geo)
  {
    match step
    case Lookup(addr, env) =>
      LookupLocates(s.world.geo, s.clock, addr, env);
      var rows := ResolveAddr(s.world.geo, addr, env).rows;
      ReferencesExtend(s.world, rows);
      CacheLiveExtends(s.world.geo, rows, s.world.cache, s.lastClear);
    case Record(_, _) =>
    case Process(ev, env) => ProcessKeepsInv(c, s, ev, env);
    case Clear(_) =>
  }

  // Over every run, with or without a cache and however it is keyed: the table is
  // a compressed history, references resolve, cached ids are live, and rows only
  // ever change their last_update, so the location of an event stays what it was.
  lemma {:induction false} RunKeepsInv(c: Config, s: State, steps: seq<Step>)
    requires Inv(s) && RunOk(c, s, steps)
    ensures Inv(Run(c, s, steps)) && Extends(s.world.geo, Run(c, s, steps).world.geo)
    decreases |steps|
  {
    if steps != [] {
      var next := Do(c, s, steps[0]);
      StepKeepsInv(c, s, steps[0]);
      RunKeepsInv(c, next, steps[1..]);
      ExtendsTransitive(s.world.geo, next.world.geo, Run(c, next, steps[1..]).world.geo);
    }
  }

  lemma RunFromStart(c: Config, before: seq<Step>, after: seq<Step>, id: int, geoId: int)
    requires RunOk(c, INITIAL, before) && RunOk(c, Run(c, INITIAL, before), after)
    requires Mentions(Run(c, INITIAL, before).world.events, id, geoId)
    ensures var (w, w') := (Run(c, INITIAL, before).world, Run(c, Run(c, INITIAL, before), after).world);
            exists r, r' :: IsRow(w.geo, geoId, r) && IsRow(w'.geo, geoId, r') && r.place == r'.place
  {
    var s := Run(c, INITIAL, before);
    RunKeepsInv(c, INITIAL, before);
    RunKeepsInv(c, s, after);
    PlaceIsKept(s.world, Run(c, s, after).world.geo, id, geoId);
  }

  // The event was marked with this location.
  predicate Mentions(events: map<int, EventRow>, id: int, geoId: int) {
    id in events && (events[id].remoteGeo == Some(geoId) || events[id].originGeo == Some(geoId))
  }

  lemma PlaceIsKept(w: World, after: seq<Row>, id: int, geoId: int)
    requires References(w) && Mentions(w.events, id, geoId)
    requires Extends(w.geo, after) && IdsIncrease(w.geo) && IdsIncrease(after)
    ensures exists r, r' :: IsRow(w.geo, geoId, r) && IsRow(after, geoId, r') && r.place == r'.place
  {
    var i :| 0 <= i < |w.geo| && w.geo[i].id == geoId;
    assert IsRow(w.geo, geoId, w.geo[i]);
    ExtendsKeepsPlace(w.geo, after, geoId, w.geo[i]);
  }

  // ---- The cache ----

  // While the timer keeps its period, whatever is answered from the cache was
  // confirmed at most 31 days and 48 hours ago.
  lemma HitIsFresh(s: State, addr: string, t: int)
    requires Inv(s) && addr in s.world.cache && s.clock <= t <= s.lastClear + CLEAR_PERIOD
    ensures Since(s.world.geo, s.world.cache[addr], t - (31 + 2) * 86_400_000_000_000)
  {
    SinceEarlier(s.world.geo, s.world.cache[addr], s.lastClear - 31 * DAY, t - 31 * DAY - CLEAR_PERIOD);
  }

  predicate CacheAgrees(rows: seq<Row>, cache: map<string, int>) {
    forall a :: a in cache ==> Locates(rows, cache[a], a)
  }

  predicate Agrees(s: State) {
    CacheAgrees(s.world.geo, s.world.cache)
  }

  // Nothing is cached under the wrong address by this step.
  predicate Harmless(c: Config, s: State, step: Step) {
    match step
    case Process(ev, env) =>
      var w := s.world;
      !c.useCache || ev.id == 0 || Hits(w.cache, c.useCache, ev)
      || Normal(OriginKey(c.keying, ev)) == Normal(ev.originAddr)
      || !ResolveAddr(ResolveAddr(w.geo, ev.remoteAddr, env.remote).rows, ev.originAddr, env.origin).ok
    case _ => true
  }

  lemma AgreesExtends(before: seq<Row>, after: seq<Row>, cache: map<string, int>)
    requires CacheAgrees(before, cache) && Extends(before, after) && IdsIncrease(after)
    ensures CacheAgrees(after, cache)
  {
    forall a | a in cache
      ensures Locates(after, cache[a], a)
    {
      LocatesExtends(before, after, cache[a], a);
    }
  }

  lemma RememberAgrees(rows: seq<Row>, cache: map<string, int>, c: Config, key: string, id: int)
    requires CacheAgrees(rows, cache)
    ensures CacheAgrees(rows, Remember(cache, c.useCache, key, id))
            <==> !c.useCache || id <= 0 || Locates(rows, id, key)
  {
    if c.useCache && id > 0 {
      assert cache[key := id][key] == id;
    }
  }

  lemma LocatesOne(rows: seq<Row>, id: int, a: string, b: string)
    requires IdsIncrease(rows) && Locates(rows, id, a)
    ensures Locates(rows, id, b) <==> Normal(a) == Normal(b)
  {
  }

  // From a cache that agrees with the table, a step leads to one that does exactly
  // when it is harmless: the code as written, which caches the origin's id under
  // the remote address, goes wrong with the first event from a different address
  // whose origin resolves.
  lemma StepAgreesIff(c: Config, s: State, step: Step)
    requires Inv(s) && StepOk(s, step) && Agrees(s)
    ensures Agrees(Do(c, s, step)) <==> Harmless(c, s, step)
  {
    match step
    case Lookup(addr, env) =>
      LookupLocates(s.world.geo, s.clock, addr, env);
      AgreesExtends(s.world.geo, ResolveAddr(s.world.geo, addr, env).rows, s.world.cache);
    case Record(_, _) =>
    case Process(ev, env) => ProcessAgreesIff(c, s, ev, env);
    case Clear(_) =>
  }

  lemma ProcessAgreesIff(c: Config, s: State, ev: Event, env: EventEnv)
    requires Inv(s) && EventEnvOk(env, s.clock, ev) && Agrees(s)
    ensures Agrees(Do(c, s, Process(ev, env))) <==> Harmless(c, s, Process(ev, env))
  {
    var w := s.world;
    if ev.id != 0 && !Hits(w.cache, c.useCache, ev) {
      var r := ResolveAddr(w.geo, ev.remoteAddr, env.remote);
      var o := ResolveAddr(r.rows, ev.originAddr, env.origin);
      var key := OriginKey(c.keying, ev);
      assert CacheAgrees(o.rows, w.cache) && (r.id > 0 ==> Locates(o.rows, r.id, ev.remoteAddr))
          && (o.id > 0 <==> o.ok)
          && (o.id > 0 ==> (Locates(o.rows, o.id, key) <==> Normal(ev.originAddr) == Normal(key))) by {
        BothLookups(w.geo, s.clock, ev, env);
        AgreesExtends(w.geo, o.rows, w.cache);
        if o.ok {
          LocatesOne(o.rows, o.id, ev.originAddr, key);
        }
      }
      RememberAgrees(o.rows, w.cache, c, ev.remoteAddr, r.id);
      RememberAgrees(o.rows, Remember(w.cache, c.useCache, ev.remoteAddr, r.id), c, key, o.id);
    }
  }

  // As written, an event that misses the cache leaves the remote address mapped to
  // a row of the origin's address if the origin resolved, which is one of its own
  // exactly when the two are looked up as the same; otherwise to a row of its own
  // if it resolved, and otherwise to what it was. No other entry changes.
  lemma RemoteLeftMappedTo(s: State, ev: Event, env: EventEnv)
    requires Inv(s) && EventEnvOk(env, s.clock, ev) && ev.id != 0 && !Hits(s.world.cache, true, ev)
    ensures var r := ResolveAddr(s.world.geo, ev.remoteAddr, env.remote);
            var o := ResolveAddr(r.rows, ev.originAddr, env.origin);
            var w := Do(AS_WRITTEN, s, Process(ev, env)).world;
            && w.cache - {ev.remoteAddr} == s.world.cache - {ev.remoteAddr}
            && (o.ok || r.ok ==> ev.remoteAddr in w.cache)
            && (o.ok ==>
                  && Locates(w.geo, w.cache[ev.remoteAddr], ev.originAddr)
                  && (Locates(w.geo, w.cache[ev.remoteAddr], ev.remoteAddr)
                      <==> Normal(ev.remoteAddr) == Normal(ev.originAddr)))
            && (!o.ok && r.ok ==> Locates(w.geo, w.cache[ev.remoteAddr], ev.remoteAddr))
            && (!o.ok && !r.ok ==> w.cache == s.world.cache)
  {
    var w, r := s.world, ResolveAddr(s.world.geo, ev.remoteAddr, env.remote);
    var o := ResolveAddr(r.rows, ev.originAddr, env.origin);
    assert (if r.ok then r.id > 0 && Locates(o.rows, r.id, ev.remoteAddr) else r.id == 0)
        && (if o.ok then o.id > 0 && Locates(o.rows, o.id, ev.originAddr) else o.id == 0)
        && (o.ok ==> (Locates(o.rows, o.id, ev.remoteAddr) <==> Normal(ev.remoteAddr) == Normal(ev.originAddr))) by {
      BothLookups(w.geo, s.clock, ev, env);
      if o.ok {
        LocatesOne(o.rows, o.id, ev.originAddr, ev.remoteAddr);
      }
    }
    RememberTwice(w.cache, ev.remoteAddr, r.id, o.id);
  }

  lemma RememberTwice(cache: map<string, int>, key: string, first: int, second: int)
    ensures var after := Remember(Remember(cache, true, key, first), true, key, second);
            && after - {key} == cache - {key}
            && after == (if second > 0 then cache[key := second] else if first > 0 then cache[key := first] else cache)
  {
  }

  // So in every run: the id that such an event leaves under its remote address is
  // one of a row of the origin's address, then and after everything that follows.
  lemma RemoteStaysWrong(before: seq<Step>, ev: Event, env: EventEnv, after: seq<Step>)
    requires RunOk(AS_WRITTEN, INITIAL, before)
    requires var s := Run(AS_WRITTEN, INITIAL, before);
             && StepOk(s, Process(ev, env)) && ev.id != 0 && !Hits(s.world.cache, true, ev)
             && RunOk(AS_WRITTEN, Do(AS_WRITTEN, s, Process(ev, env)), after)
             && ResolveAddr(ResolveAddr(s.world.geo, ev.remoteAddr, env.remote).rows, ev.originAddr, env.origin).ok
    ensures var s := Do(AS_WRITTEN, Run(AS_WRITTEN, INITIAL, before), Process(ev, env));
            var rows := Run(AS_WRITTEN, s, after).world.geo;
            && ev.remoteAddr in s.world.cache
            && Locates(rows, s.world.cache[ev.remoteAddr], ev.originAddr)
            && (Locates(rows, s.world.cache[ev.remoteAddr], ev.remoteAddr)
                <==> Normal(ev.remoteAddr) == Normal(ev.originAddr))
  {
    var s := Run(AS_WRITTEN, INITIAL, before);
    RunKeepsInv(AS_WRITTEN, INITIAL, before);
    RemoteLeftMappedTo(s, ev, env);
    StepKeepsInv(AS_WRITTEN, s, Process(ev, env));
    var next := Do(AS_WRITTEN, s, Process(ev, env));
    RunKeepsInv(AS_WRITTEN, next, after);
    var rows := Run(AS_WRITTEN, next, after).world.geo;
    LocatesExtends(next.world.geo, rows, next.world.cache[ev.remoteAddr], ev.originAddr);
    LocatesExtends(next.world.geo, rows, next.world.cache[ev.remoteAddr], ev.remoteAddr);
  }

  // A run that spoils the cache: one event from a new address, whose origin is new,
  // looked up differently, and known to the geo service.
  lemma SpoiledRun(ev: Event, env: EventEnv)
    requires ev.id > 0 && Normal(ev.remoteAddr) != Normal(ev.originAddr) && EventEnvOk(env, 0, ev)
    requires env.origin.selectOk && env.origin.writeOk && env.origin.lookup.Some?
    ensures var steps := [Record(ev.id, EventRow(ev.remoteAddr, ev.originAddr, None, None)), Process(ev, env)];
            RunOk(AS_WRITTEN, INITIAL, steps) && !Agrees(Run(AS_WRITTEN, INITIAL, steps))
  {
    var record, process := Record(ev.id, EventRow(ev.remoteAddr, ev.originAddr, None, None)), Process(ev, env);
    var s := Do(AS_WRITTEN, INITIAL, record);
    OriginIsNew(ev, env);
    StepKeepsInv(AS_WRITTEN, INITIAL, record);
    StepAgreesIff(AS_WRITTEN, s, process);
    var steps := [record, process];
    assert steps[1..] == [process] && [process][1..] == [];
    assert Run(AS_WRITTEN, s, [process]) == Run(AS_WRITTEN, Do(AS_WRITTEN, s, process), []);
    assert RunOk(AS_WRITTEN, s, [process]);
  }

  lemma OriginIsNew(ev: Event, env: EventEnv)
    requires Normal(ev.remoteAddr) != Normal(ev.originAddr) && EventEnvOk(env, 0, ev)
    requires env.origin.selectOk && env.origin.writeOk && env.origin.lookup.Some?
    ensures ResolveAddr(ResolveAddr([], ev.remoteAddr, env.remote).rows, ev.originAddr, env.origin).ok
  {
    var rows := ResolveAddr([], ev.remoteAddr, env.remote).rows;
    assert forall row :: row in rows ==> row.place.ip == Normal(ev.remoteAddr);
    assert Newest(rows, Normal(ev.originAddr)).None?;
  }

  predicate AgreesThroughout(c: Config, s: State, steps: seq<Step>)
    decreases |steps|
  {
    Agrees(s) && (steps == [] || AgreesThroughout(c, Do(c, s, steps[0]), steps[1..]))
  }

  predicate AllHarmless(c: Config, s: State, steps: seq<Step>)
    decreases |steps|
  {
    steps == [] || (Harmless(c, s, steps[0]) && AllHarmless(c, Do(c, s, steps[0]), steps[1..]))
  }

  lemma {:induction false} RunAgreesIff(c: Config, s: State, steps: seq<Step>)
    requires Inv(s) && RunOk(c, s, steps) && Agrees(s)
    ensures AgreesThroughout(c, s, steps) <==> AllHarmless(c, s, steps)
    decreases |steps|
  {
    if steps != [] {
      var next := Do(c, s, steps[0]);
      StepKeepsInv(c, s, steps[0]);
      StepAgreesIff(c, s, steps[0]);
      if Harmless(c, s, steps[0]) {
        RunAgreesIff(c, next, steps[1..]);
      }
    }
  }

  // Cached under the origin address, the cache agrees with the table in every run.
  lemma {:induction false} UnderOriginAgrees(useCache: bool, s: State, steps: seq<Step>)
    requires Inv(s) && RunOk(Config(useCache, UnderOrigin), s, steps) && Agrees(s)
    ensures Agrees(Run(Config(useCache, UnderOrigin), s, steps))
    decreases |steps|
  {
    var c := Config(useCache, UnderOrigin);
    if steps != [] {
      StepKeepsInv(c, s, steps[0]);
      StepAgreesIff(c, s, steps[0]);
      UnderOriginAgrees(useCache, Do(c, s, steps[0]), steps[1..]);
    }
  }
}
