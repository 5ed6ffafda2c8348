// resolver/resolve.go: from addresses to rows of the geo table, with the cache in
// front. First each operation as a function of the database, the cache and of
// what clock, geo service and database answer; then the code that runs it.
module Resolver {
  import opened Address
  import opened Geo
  import opened Wrappers
  import Cache

  // ---- One call ----

  // What the world answers during one resolveAddr: the clock and the length of
  // the month before now, whether the query runs, what the geo service says and
  // when, and whether the INSERT or UPDATE goes through, with which id and time.
  datatype Env = Env(now: int, monthDays: nat, selectOk: bool, lookup: Option<Place>, lookupAt: int,
                     writeOk: bool, skippedIds: nat, dbNow: int)
  {
    // time.Now().AddDate(0, -1, 0): the same day number counted from the first
    // of the month before, which is as many days earlier as that month has.
    function Expire(): (t: int)
      ensures 28 <= monthDays ==> t <= now - 28 * DAY
      ensures monthDays <= 31 ==> now - 31 * DAY <= t
    {
      now - monthDays * DAY
    }

    function End(): int {
      if lookupAt < dbNow then dbNow else lookupAt
    }
  }

  // The clock does not run backwards and a month has 28 to 31 days.
  predicate Timely(env: Env, clock: int) {
    clock <= env.now <= env.lookupAt && env.now <= env.dbNow && 28 <= env.monthDays <= 31
  }

  // Besides, the geo service answers for the address it was asked about.
  predicate EnvOk(env: Env, clock: int, addr: string) {
    Timely(env, clock) && (env.lookup.Some? ==> env.lookup.value.ip == Normal(addr))
  }

  // The id a serial column hands out next.
  function NextId(rows: seq<Row>, skipped: nat): int {
    (if rows == [] then 0 else rows[|rows| - 1].id) + 1 + skipped
  }

  datatype Resolved = Resolved(rows: seq<Row>, id: int, ok: bool, asked: bool)

  function InsertGeo(rows: seq<Row>, place: Place, env: Env): Resolved {
    if !env.writeOk then Resolved(rows, 0, false, true)
    else
      var id := NextId(rows, env.skippedIds);
      Resolved(rows + [Row(id, place, env.lookupAt)], id, true, true)
  }

  function ResolveAddr(rows: seq<Row>, addr: string, env: Env): Resolved {
    if !env.selectOk then Resolved(rows, 0, false, false)
    else
      match Newest(rows, Normal(addr))
      case None =>
        if env.lookup.None? then Resolved(rows, 0, false, true) else InsertGeo(rows, env.lookup.value, env)
      case Some(row) =>
        if env.Expire() <= row.lastUpdate then Resolved(rows, row.id, true, false)
        else if env.lookup.None? then Resolved(rows, 0, false, true)
        else if !Equals(row.place, env.lookup.value) then InsertGeo(rows, env.lookup.value, env)
        else if !env.writeOk then Resolved(rows, 0, false, true)
        else Resolved(Touch(rows, row.id, env.dbNow), row.id, true, true)
  }

  // ---- Events ----

  datatype EventRow = EventRow(remoteAddr: string, originAddr: string, remoteGeo: Option<int>, originGeo: Option<int>)

  datatype Marked = Marked(events: map<int, EventRow>, ok: bool)

  // UPDATE event SET remote_geo_id (or origin_geo_id) = ? WHERE id = ?. It changes
  // nothing when no event has the id, and the foreign key refuses an unknown geo id.
  function Mark(events: map<int, EventRow>, rows: seq<Row>, id: int, geoId: int, remote: bool, dbOk: bool): Marked {
    if !dbOk then Marked(events, false)
    else if id !in events then Marked(events, true)
    else if !HasId(rows, geoId) then Marked(events, false)
    else if remote then Marked(events[id := events[id].(remoteGeo := Some(geoId))], true)
    else Marked(events[id := events[id].(originGeo := Some(geoId))], true)
  }

  // Which address the origin's id is cached under. The code as written uses the
  // remote address; the other choice is what the lookups expect.
  datatype Keying = UnderRemote | UnderOrigin

  datatype Event = Event(id: int, remoteAddr: string, originAddr: string)

  datatype World = World(geo: seq<Row>, events: map<int, EventRow>, cache: map<string, int>)

  datatype EventEnv = EventEnv(remote: Env, origin: Env, markRemoteOk: bool, markOriginOk: bool)

  datatype Result = Result(world: World, remoteId: int, originId: int, ok: bool)

  function Cached(cache: map<string, int>, addr: string): int {
    if addr in cache then cache[addr] else 0
  }

  function Remember(cache: map<string, int>, useCache: bool, addr: string, id: int): map<string, int> {
    if useCache && id > 0 then cache[addr := id] else cache
  }

  function OriginKey(keying: Keying, ev: Event): string {
    if keying == UnderRemote then ev.remoteAddr else ev.originAddr
  }

  predicate Hits(cache: map<string, int>, useCache: bool, ev: Event) {
    useCache && Cached(cache, ev.remoteAddr) > 0 && Cached(cache, ev.originAddr) > 0
  }

  function FromCache(w: World, ev: Event, env: EventEnv): Result {
    var (r, o) := (Cached(w.cache, ev.remoteAddr), Cached(w.cache, ev.originAddr));
    var m1 := Mark(w.events, w.geo, ev.id, r, true, env.markRemoteOk);
    var m2 := Mark(m1.events, w.geo, ev.id, o, false, env.markOriginOk);
    Result(w.(events := m2.events), r, o, m1.ok && m2.ok)
  }

  function FromDatabase(w: World, useCache: bool, keying: Keying, ev: Event, env: EventEnv): Result {
    var r := ResolveAddr(w.geo, ev.remoteAddr, env.remote);
    var c1 := Remember(w.cache, useCache, ev.remoteAddr, r.id);
    var m1 := Mark(w.events, r.rows, ev.id, r.id, true, env.markRemoteOk);
    var o := ResolveAddr(r.rows, ev.originAddr, env.origin);
    var c2 := Remember(c1, useCache, OriginKey(keying, ev), o.id);
    var m2 := Mark(m1.events, o.rows, ev.id, o.id, false, env.markOriginOk);
    Result(World(o.rows, m2.events, c2), r.id, o.id, r.ok && m1.ok && o.ok && m2.ok)
  }

  function Processed(w: World, useCache: bool, keying: Keying, ev: Event, env: EventEnv): Result {
    if ev.id == 0 then Result(w, 0, 0, false)
    else if Hits(w.cache, useCache, ev) then FromCache(w, ev, env)
    else FromDatabase(w, useCache, keying, ev, env)
  }

  // ---- The code ----

  class Database {
    var geo: seq<Row>
    var events: map<int, EventRow>

    constructor ()
      ensures geo == [] && events == map[]
    {
      geo, events := [], map[];
    }
  }

  class GeoClient {
    var calls: nat

    constructor ()
      ensures calls == 0
    {
      calls := 0;
    }

    method GetLocationForAddr(env: Env) returns (place: Option<Place>)
      modifies this
      ensures calls == old(calls) + 1 && place == env.lookup
    {
      calls := calls + 1;
      place := env.lookup;
    }
  }

  class ResolveClient {
    const db: Database
    const geoClient: GeoClient
    const cache: Cache.Cache
    const useCache: bool
    const keying: Keying

    constructor (db: Database, geoClient: GeoClient, cache: Cache.Cache, useCache: bool, keying: Keying)
      ensures this.db == db && this.geoClient == geoClient && this.cache == cache
      ensures this.useCache == useCache && this.keying == keying
    {
      this.db, this.geoClient, this.cache, this.useCache, this.keying := db, geoClient, cache, useCache, keying;
    }

    ghost function State(): World
      reads db, cache
    {
      World(db.geo, db.events, cache.cm)
    }

    method Insert(place: Place, env: Env) returns (id: int, ok: bool)
      modifies db
      ensures db.events == old(db.events)
      ensures Resolved(db.geo, id, ok, true) == InsertGeo(old(db.geo), place, env)
    {
      if !env.writeOk {
        return 0, false;
      }
      id, ok := NextId(db.geo, env.skippedIds), true;
      db.geo := db.geo + [Row(id, place, env.lookupAt)];
    }

    method LookUp(addr: string, env: Env) returns (id: int, ok: bool)
      modifies db, geoClient
      ensures db.events == old(db.events)
      ensures var r := ResolveAddr(old(db.geo), addr, env);
              && db.geo == r.rows && id == r.id && ok == r.ok
              && geoClient.calls == old(geoClient.calls) + (if r.asked then 1 else 0)
    {
      var ip := Normal(addr);
      var expire := env.Expire();
      if !env.selectOk {
        return 0, false;
      }
      var row := Newest(db.geo, ip);
      if row.None? {
        var place := geoClient.GetLocationForAddr(env);
        if place.None? {
          return 0, false;
        }
        id, ok := Insert(place.value, env);
        return;
      }
      id := row.value.id;
      if row.value.lastUpdate < expire {
        var place := geoClient.GetLocationForAddr(env);
        if place.None? {
          return 0, false;
        }
        if Equals(row.value.place, place.value) {
          if !env.writeOk {
            return 0, false;
          }
          db.geo := Touch(db.geo, id, env.dbNow);
        } else {
          id, ok := Insert(place.value, env);
          return;
        }
      }
      ok := true;
    }

    method Resolve(addr: string, env: Env) returns (id: int, ok: bool)
      modifies db, geoClient
      ensures db.events == old(db.events)
      ensures useCache && addr in cache.cm ==>
                db.geo == old(db.geo) && id == cache.cm[addr] && ok && geoClient.calls == old(geoClient.calls)
      ensures !(useCache && addr in cache.cm) ==>
                var r := ResolveAddr(old(db.geo), addr, env);
                && db.geo == r.rows && id == r.id && ok == r.ok
                && geoClient.calls == old(geoClient.calls) + (if r.asked then 1 else 0)
    {
      if useCache {
        id, ok := cache.Get(addr);
        if ok {
          return;
        }
      }
      id, ok := LookUp(addr, env);
    }

    method MarkEvent(id: int, geoId: int, remote: bool, dbOk: bool) returns (ok: bool)
      modifies db
      ensures db.geo == old(db.geo)
      ensures Marked(db.events, ok) == Mark(old(db.events), db.geo, id, geoId, remote, dbOk)
    {
      var m := Mark(db.events, db.geo, id, geoId, remote, dbOk);
      db.events, ok := m.events, m.ok;
    }

    method ResolveEvent(ev: Event, env: EventEnv) returns (geoIds: (int, int), ok: bool)
      modifies db, geoClient, cache
      ensures Result(State(), geoIds.0, geoIds.1, ok) == Processed(old(State()), useCache, keying, ev, env)
    {
      geoIds := (0, 0);
      if ev.id == 0 {
        return geoIds, false;
      }
      if useCache {
        var rId, _ := cache.Get(ev.remoteAddr);
        var oId, _ := cache.Get(ev.originAddr);
        if rId > 0 && oId > 0 {
          var ok1 := MarkEvent(ev.id, rId, true, env.markRemoteOk);
          var ok2 := MarkEvent(ev.id, oId, false, env.markOriginOk);
          return (rId, oId), ok1 && ok2;
        }
      }
      geoIds, ok := ResolveBoth(ev, env);
    }

    // The part of ResolveEvent behind the cache.
    method ResolveBoth(ev: Event, env: EventEnv) returns (geoIds: (int, int), ok: bool)
      modifies db, geoClient, cache
      ensures Result(State(), geoIds.0, geoIds.1, ok) == FromDatabase(old(State()), useCache, keying, ev, env)
    {
      var geoId, ok1 := LookUp(ev.remoteAddr, env.remote);
      if useCache && geoId > 0 {
        cache.Set(ev.remoteAddr, geoId);
      }
      geoIds := (geoId, 0);
      var ok2 := MarkEvent(ev.id, geoId, true, env.markRemoteOk);
      var ok3: bool;
      geoId, ok3 := LookUp(ev.originAddr, env.origin);
      if useCache && geoId > 0 {
        cache.Set(OriginKey(keying, ev), geoId);
      }
      var ok4 := MarkEvent(ev.id, geoId, false, env.markOriginOk);
      geoIds := (geoIds.0, geoId);
      ok := ok1 && ok2 && ok3 && ok4;
    }
  }
}
