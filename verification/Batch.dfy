// aws/lambda/events.go, HandleBatch: give every event of a batch its location ids,
// in place, with a memo that spares repeated lookups.
module Batch {
  import opened Address
  import opened Geo
  import opened Resolver
  import opened Runs
  import opened Wrappers
  import Cache

  datatype Event = Event(remoteAddr: string, remoteGeo: int, originAddr: string, originGeo: int, rest: seq<string>)

  // ---- A sequence of lookups ----

  // ResolveClient.Resolve as a function.
  function Resolve(rows: seq<Row>, cache: map<string, int>, useCache: bool, addr: string, env: Env): Resolved {
    if useCache && addr in cache then Resolved(rows, cache[addr], true, false) else ResolveAddr(rows, addr, env)
  }

  // Lookups of addresses one after the other, over a table and an unchanging cache.
  datatype Lookups = Lookups(rows: seq<Row>, cache: map<string, int>, useCache: bool, addrs: seq<string>,
                             envs: seq<Env>)
  {
    predicate Valid() {
      |addrs| <= |envs|
    }

    function RowsAfter(k: nat): seq<Row>
      requires Valid() && k <= |addrs|
    {
      if k == 0 then rows else Resolve(RowsAfter(k - 1), cache, useCache, addrs[k - 1], envs[k - 1]).rows
    }

    function Result(k: nat): Resolved
      requires Valid() && k < |addrs|
    {
      Resolve(RowsAfter(k), cache, useCache, addrs[k], envs[k])
    }

    // The id each lookup gives, if it succeeds.
    function Ids(): (ids: seq<Option<int>>)
      requires Valid()
      ensures |ids| == |addrs|
    {
      seq(|addrs|, k requires 0 <= k < |addrs| => if Result(k).ok then Some(Result(k).id) else None)
    }
  }

  // ---- The distinct addresses of a batch ----

  // In the order in which they come up.
  function Distinct(events: seq<Event>): seq<string> {
    if events == [] then []
    else
      var n := |events| - 1;
      var addrs := Distinct(events[..n]);
      if events[n].remoteAddr in addrs then addrs else addrs + [events[n].remoteAddr]
  }

  // No earlier event has the address of event i.
  predicate First(events: seq<Event>, i: nat)
    requires i < |events|
  {
    forall j :: 0 <= j < i ==> events[j].remoteAddr != events[i].remoteAddr
  }

  predicate Unique(addrs: seq<string>) {
    forall i, j :: 0 <= i < j < |addrs| ==> addrs[i] != addrs[j]
  }

  predicate Occurs(events: seq<Event>, a: string) {
    exists i :: 0 <= i < |events| && events[i].remoteAddr == a
  }

  // Each address that occurs is listed once, and no other.
  lemma {:induction false} DistinctAre(events: seq<Event>)
    ensures Unique(Distinct(events))
    ensures forall a :: a in Distinct(events) <==> Occurs(events, a)
  {
    if events != [] {
      var n := |events| - 1;
      var front := events[..n];
      DistinctAre(front);
      if events[n].remoteAddr !in Distinct(front) {
        UniqueSnoc(Distinct(front), events[n].remoteAddr);
      }
      forall a
        ensures a in Distinct(events) <==> Occurs(events, a)
      {
        OccursSnoc(front, events[n], a);
        assert events == front + [events[n]];
      }
    }
  }

  lemma UniqueSnoc(addrs: seq<string>, a: string)
    requires Unique(addrs) && a !in addrs
    ensures Unique(addrs + [a])
  {
  }

  lemma OccursSnoc(front: seq<Event>, e: Event, a: string)
    ensures Occurs(front + [e], a) <==> Occurs(front, a) || e.remoteAddr == a
  {
    var all := front + [e];
    if Occurs(front, a) {
      var i :| 0 <= i < |front| && front[i].remoteAddr == a;
      assert all[i].remoteAddr == a;
    }
    if e.remoteAddr == a {
      assert all[|front|].remoteAddr == a;
    }
  }

  // An address is new exactly when it is not yet among the distinct ones.
  lemma DistinctSnoc(events: seq<Event>)
    requires events != []
    ensures var n := |events| - 1;
            events[n].remoteAddr in Distinct(events[..n]) <==> !First(events, n)
  {
    var n := |events| - 1;
    var front := events[..n];
    DistinctAre(front);
    if !First(events, n) {
      var j :| 0 <= j < n && events[j].remoteAddr == events[n].remoteAddr;
      assert front[j].remoteAddr == events[n].remoteAddr;
    }
    if Occurs(front, events[n].remoteAddr) {
      var j :| 0 <= j < n && front[j].remoteAddr == events[n].remoteAddr;
      assert events[j].remoteAddr == events[n].remoteAddr;
    }
  }

  lemma {:induction false} DistinctPrefix(events: seq<Event>, n: nat)
    requires n <= |events|
    ensures Distinct(events[..n]) <= Distinct(events)
  {
    if n == |events| {
      assert events[..n] == events;
    } else {
      var front := events[..|events| - 1];
      assert front[..n] == events[..n];
      DistinctPrefix(front, n);
    }
  }

  // ---- The loop ----

  // The id given to a repeated address: as written, the one resolved last; the
  // other choice is the one in the memo.
  datatype Reuse = LastResolved | FromMemo

  // A batch: the origin, its id, and what the lookups of its distinct addresses give.
  datatype Setting = Setting(origin: string, originId: int, reuse: Reuse, ids: seq<Option<int>>)

  // The loop's variables after some events. asked are the addresses looked up with success.
  datatype Progress = Progress(memo: map<string, int>, id: int, asked: seq<string>, done: seq<Event>, failed: bool)

  function Located(s: Setting, e: Event, id: int): Event {
    e.(remoteGeo := id, originGeo := s.originId, originAddr := s.origin)
  }

  function Step(s: Setting, p: Progress, e: Event): Progress {
    if p.failed || e.remoteAddr == "" then p.(failed := true)
    else if e.remoteAddr in p.memo then
      var id := if s.reuse == FromMemo then p.memo[e.remoteAddr] else p.id;
      p.(id := id, done := p.done + [Located(s, e, id)])
    else if |p.asked| < |s.ids| && s.ids[|p.asked|].Some? then
      var id := s.ids[|p.asked|].value;
      Progress(p.memo[e.remoteAddr := id], id, p.asked + [e.remoteAddr], p.done + [Located(s, e, id)], false)
    else p.(failed := true)
  }

  function Loop(s: Setting, events: seq<Event>): (p: Progress)
    ensures |p.done| <= |events| && (!p.failed ==> |p.done| == |events|)
  {
    if events == [] then Progress(map[], 0, [], [], false)
    else Step(s, Loop(s, events[..|events| - 1]), events[|events| - 1])
  }

  // A failed loop stays as it is.
  lemma {:induction false} FailureStays(s: Setting, events: seq<Event>, n: nat)
    requires n <= |events|
    ensures Loop(s, events[..n]).failed ==> Loop(s, events) == Loop(s, events[..n])
  {
    if n == |events| {
      assert events[..n] == events;
    } else {
      var front := events[..|events| - 1];
      assert front[..n] == events[..n];
      FailureStays(s, front, n);
    }
  }

  lemma LoopOn(s: Setting, events: seq<Event>, i: nat)
    requires i < |events|
    ensures Loop(s, events[..i + 1]) == Step(s, Loop(s, events[..i]), events[i])
    ensures Loop(s, events[..i + 1]).failed ==> Loop(s, events) == Loop(s, events[..i + 1])
  {
    assert events[..i + 1][..i] == events[..i];
    FailureStays(s, events, i + 1);
  }

  // The addresses were looked up, and the memo holds the id of each and nothing else.
  ghost predicate Asked(s: Setting, p: Progress, addrs: seq<string>) {
    && p.asked == addrs && |addrs| <= |s.ids|
    && (forall a :: a in p.memo <==> a in addrs)
    && (forall k :: 0 <= k < |addrs| ==> addrs[k] in p.memo && s.ids[k] == Some(p.memo[addrs[k]]))
  }

  // While it has not failed, the loop has looked up the distinct addresses so far,
  // each of them once, and remembers the id of each.
  lemma {:induction false} LoopAsks(s: Setting, events: seq<Event>)
    requires !Loop(s, events).failed
    ensures Asked(s, Loop(s, events), Distinct(events))
  {
    if events != [] {
      var front, e := events[..|events| - 1], events[|events| - 1];
      LoopAsks(s, front);
      StepAsks(s, Loop(s, front), Distinct(front), e);
    }
  }

  lemma StepAsks(s: Setting, p: Progress, addrs: seq<string>, e: Event)
    requires Asked(s, p, addrs) && !Step(s, p, e).failed
    ensures Asked(s, Step(s, p, e), if e.remoteAddr in addrs then addrs else addrs + [e.remoteAddr])
  {
    if e.remoteAddr !in addrs {
      assert e.remoteAddr !in p.memo && p.memo.Keys == set a | a in addrs;
    }
  }

  // The loop gets to the end exactly when every event has an address and every
  // distinct address is found.
  lemma {:induction false} LoopFailsIff(s: Setting, events: seq<Event>)
    ensures !Loop(s, events).failed
       <==> (forall i :: 0 <= i < |events| ==> events[i].remoteAddr != "")
            && |Distinct(events)| <= |s.ids| && forall k :: 0 <= k < |Distinct(events)| ==> s.ids[k].Some?
  {
    if events != [] {
      var n := |events| - 1;
      var front, e := events[..n], events[n];
      LoopFailsIff(s, front);
      assert (forall i :: 0 <= i < |events| ==> events[i].remoteAddr != "")
        <==> (forall i :: 0 <= i < n ==> front[i].remoteAddr != "") && e.remoteAddr != "";
      if !Loop(s, front).failed {
        LoopAsks(s, front);
        StepFailsIff(s, Loop(s, front), Distinct(front), e);
      } else if e.remoteAddr !in Distinct(front) {
        FoundSnoc(s.ids, |Distinct(front)|);
      }
    }
  }

  lemma FoundSnoc(ids: seq<Option<int>>, n: nat)
    ensures n + 1 <= |ids| && (forall k :: 0 <= k < n + 1 ==> ids[k].Some?)
       <==> (n <= |ids| && forall k :: 0 <= k < n ==> ids[k].Some?) && n < |ids| && ids[n].Some?
  {
  }

  lemma StepFailsIff(s: Setting, p: Progress, addrs: seq<string>, e: Event)
    requires Asked(s, p, addrs) && !p.failed
    ensures !Step(s, p, e).failed
       <==> e.remoteAddr != "" && (e.remoteAddr in addrs || (|addrs| < |s.ids| && s.ids[|addrs|].Some?))
  {
  }

  // Up to the event that fails, every event keeps all but its locations and its
  // origin, which are set.
  lemma {:induction false} LoopLocates(s: Setting, events: seq<Event>)
    ensures var p := Loop(s, events);
            forall i :: 0 <= i < |p.done| ==>
              p.done[i] == events[i].(remoteGeo := p.done[i].remoteGeo, originGeo := s.originId, originAddr := s.origin)
  {
    if events != [] {
      LoopLocates(s, events[..|events| - 1]);
    }
  }

  // And the event that fails is the first that does.
  lemma {:induction false} LoopStops(s: Setting, events: seq<Event>)
    requires Loop(s, events).failed
    ensures var d := |Loop(s, events).done|;
            && d < |events| && !Loop(s, events[..d]).failed && Loop(s, events[..d + 1]).failed
  {
    if events != [] {
      var n := |events| - 1;
      var front, d := events[..n], |Loop(s, events).done|;
      if Loop(s, front).failed {
        LoopStops(s, front);
        assert front[..d] == events[..d] && front[..d + 1] == events[..d + 1];
      } else {
        assert events[..n + 1] == events;
      }
    }
  }

  const TEST_SOURCE := "test-invoke-source-ip"

  // A lookup that fails leaves the table as it is.
  lemma FailedResolve(rows: seq<Row>, cache: map<string, int>, useCache: bool, addr: string, env: Env)
    ensures var r := Resolve(rows, cache, useCache, addr, env); !r.ok ==> r.rows == rows
  {
  }

  // One lookup: its rows and id are those of the code's call, and if it fails the
  // table is still that of the lookups before it.
  lemma LookupIs(l: Lookups, k: nat)
    requires l.Valid() && k < |l.addrs|
    ensures var r := Resolve(l.RowsAfter(k), l.cache, l.useCache, l.addrs[k], l.envs[k]);
            && l.RowsAfter(k + 1) == r.rows && (!r.ok ==> r.rows == l.RowsAfter(k))
            && l.Ids()[k] == (if r.ok then Some(r.id) else None)
  {
    FailedResolve(l.RowsAfter(k), l.cache, l.useCache, l.addrs[k], l.envs[k]);
  }

  function OriginOf(sourceAddr: string): string {
    if sourceAddr == TEST_SOURCE then "127.0.0.1" else sourceAddr
  }

  // The world's answers to the lookups of a batch come in order, over a table that
  // is a history and with no cache or one that agrees with it.
  ghost predicate InOrder(rows: seq<Row>, cache: map<string, int>, useCache: bool, clock: int, origin: string,
                          addrs: seq<string>, envs: seq<Env>) {
    && |addrs| < |envs| && History(rows, clock) && EnvOk(envs[0], clock, origin)
    && (useCache ==> CacheAgrees(rows, cache))
    && var o := Resolve(rows, cache, useCache, origin, envs[0]);
       AnswersOk(Lookups(o.rows, cache, useCache, addrs, envs[1..]), envs[0].End())
  }

  // All events have the origin, and are the same but for that and their locations.
  predicate SetIn(was: seq<Event>, events: seq<Event>, origin: string) {
    && |events| == |was|
    && forall i :: 0 <= i < |was| ==>
         events[i] == was[i].(remoteGeo := events[i].remoteGeo, originGeo := events[i].originGeo, originAddr := origin)
  }

  // The locations of all events are those of the origin and of the addresses that
  // decide on them.
  predicate AllNamed(rows: seq<Row>, was: seq<Event>, events: seq<Event>, origin: string, reuse: Reuse) {
    && |events| == |was|
    && forall i :: 0 <= i < |was| ==>
         && Locates(rows, events[i].originGeo, origin)
         && Locates(rows, events[i].remoteGeo, was[Source(reuse, was, i)].remoteAddr)
  }

  // The handler. envs are the world's answers to the lookups it may make, and clock
  // is the time at which it starts.
  method HandleBatch(client: ResolveClient, sourceAddr: string, events: array<Event>, envs: seq<Env>,
                     reuse: Reuse, setupOk: bool, recordOk: bool, ghost clock: int) returns (rowCount: nat, ok: bool)
    requires |envs| > events.Length
    modifies events, client.db, client.geoClient
    ensures !setupOk ==> !ok && events[..] == old(events[..]) && client.db.geo == old(client.db.geo)
    ensures setupOk ==>
              var o := Resolve(old(client.db.geo), client.cache.cm, client.useCache, OriginOf(sourceAddr), envs[0]);
              !o.ok ==> !ok && events[..] == old(events[..]) && client.db.geo == o.rows
    ensures setupOk ==>
              var o := Resolve(old(client.db.geo), client.cache.cm, client.useCache, OriginOf(sourceAddr), envs[0]);
              o.ok ==>
                var l := Lookups(o.rows, client.cache.cm, client.useCache, Distinct(old(events[..])), envs[1..]);
                && l.Valid()
                && var p := Loop(Setting(OriginOf(sourceAddr), o.id, reuse, l.Ids()), old(events[..]));
                   && events[..] == p.done + old(events[..])[|p.done|..]
                   && (ok <==> !p.failed && recordOk) && (ok ==> rowCount == events.Length)
                   && |p.asked| <= |l.addrs| && client.db.geo == l.RowsAfter(|p.asked|)
                   && (!p.failed ==> p.asked == l.addrs)
    ensures ok ==>
              var origin := if sourceAddr == "test-invoke-source-ip" then "127.0.0.1" else sourceAddr;
              && SetIn(old(events[..]), events[..], origin)
              && (InOrder(old(client.db.geo), client.cache.cm, client.useCache, clock, origin,
                          Distinct(old(events[..])), envs) ==>
                    AllNamed(client.db.geo, old(events[..]), events[..], origin, reuse))
  {
    rowCount, ok := 0, false;
    ghost var was, rows := events[..], client.db.geo;
    if !setupOk {
      return;
    }
    var gid, resolved := client.Resolve(OriginOf(sourceAddr), envs[0]);
    if !resolved {
      return;
    }
    DistinctShorter(events[..]);
    ghost var l := Lookups(client.db.geo, client.cache.cm, client.useCache, Distinct(events[..]), envs[1..]);
    ghost var s := Setting(OriginOf(sourceAddr), gid, reuse, l.Ids());
    ok := LocateAll(client, OriginOf(sourceAddr), gid, reuse, events, envs[1..], l, s);
    if ok {
      BatchOutcome(rows, l, clock, OriginOf(sourceAddr), was, envs, reuse);
      assert events[..] == Loop(s, was).done;
      rowCount, ok := events.Length, recordOk;
    }
  }

  lemma {:induction false} DistinctShorter(events: seq<Event>)
    ensures |Distinct(events)| <= |events|
  {
    if events != [] {
      DistinctShorter(events[..|events| - 1]);
    }
  }

  // The loop over the events.
  method LocateAll(client: ResolveClient, origin: string, gid: int, reuse: Reuse, events: array<Event>, envs: seq<Env>,
                   ghost l: Lookups, ghost s: Setting) returns (ok: bool)
    requires l.Valid() && s == Setting(origin, gid, reuse, l.Ids())
    requires l == Lookups(client.db.geo, client.cache.cm, client.useCache, Distinct(events[..]), envs)
    modifies events, client.db, client.geoClient
    ensures var p := Loop(s, old(events[..]));
            && ok == !p.failed && events[..] == p.done + old(events[..])[|p.done|..]
            && |p.asked| <= |l.addrs| && client.db.geo == l.RowsAfter(|p.asked|)
            && (ok ==> p.asked == l.addrs)
  {
    ghost var was := events[..];
    ghost var p := Loop(s, was[..0]);
    var geoIds: map<string, int> := map[];
    var id, lookups := 0, 0;
    for i := 0 to events.Length
      invariant client.cache.cm == l.cache && client.useCache == l.useCache
      invariant p == Loop(s, was[..i]) && p == Progress(geoIds, id, p.asked, p.done, false)
      invariant lookups == |p.asked| <= |l.addrs| && client.db.geo == l.RowsAfter(lookups)
      invariant events[..] == p.done + was[i..]
    {
      Iteration(s, was, i);
      geoIds, id, lookups, ok := LocateAt(client, origin, gid, reuse, events, i, envs, geoIds, id, lookups,
                                           l, s, p, was);
      if !ok {
        return;
      }
      p := Step(s, p, was[i]);
    }
    assert was[..events.Length] == was;
    AllAsked(s, was);
    ok := true;
  }

  // Event i, in place.
  method LocateAt(client: ResolveClient, origin: string, gid: int, reuse: Reuse, events: array<Event>, i: nat,
                  envs: seq<Env>,
                  memo: map<string, int>, last: int, made: nat,
                  ghost l: Lookups, ghost s: Setting, ghost p: Progress, ghost was: seq<Event>)
    returns (geoIds: map<string, int>, id: int, lookups: nat, ok: bool)
    requires l.Valid() && l.cache == client.cache.cm && l.useCache == client.useCache && l.envs == envs
    requires s == Setting(origin, gid, reuse, l.Ids()) && |p.done| == i < events.Length == |was|
    requires p == Progress(memo, last, p.asked, p.done, false) && |p.asked| == made <= |l.addrs|
    requires client.db.geo == l.RowsAfter(made) && events[..] == p.done + was[i..]
    requires was[i].remoteAddr !in memo && was[i].remoteAddr != "" ==>
               made < |l.addrs| && l.addrs[made] == was[i].remoteAddr
    modifies events, client.db, client.geoClient
    ensures var p' := Step(s, p, was[i]);
            && ok == !p'.failed && (ok ==> p' == Progress(geoIds, id, p'.asked, p'.done, false))
            && |p'.done| == (if ok then i + 1 else i) && events[..] == p'.done + was[|p'.done|..]
            && |p'.asked| <= |l.addrs| && client.db.geo == l.RowsAfter(|p'.asked|) && (ok ==> |p'.asked| == lookups)
  {
    assert events[i] == events[..][i] == was[i];
    geoIds, id, lookups, ok := LocateOne(client, reuse, envs, events[i], memo, last, made, l, s, p);
    if ok {
      WriteOne(p.done, was, i, Located(s, events[i], id));
      events[i] := events[i].(remoteGeo := id, originGeo := gid, originAddr := origin);
    }
  }

  // The id of one event.
  method LocateOne(client: ResolveClient, reuse: Reuse, envs: seq<Env>, e: Event, memo: map<string, int>,
                   last: int, made: nat,
                   ghost l: Lookups, ghost s: Setting, ghost p: Progress)
    returns (geoIds: map<string, int>, id: int, lookups: nat, ok: bool)
    requires l.Valid() && l.cache == client.cache.cm && l.useCache == client.useCache && l.envs == envs
    requires s.ids == l.Ids() && s.reuse == reuse
    requires p == Progress(memo, last, p.asked, p.done, false) && |p.asked| == made <= |l.addrs|
    requires client.db.geo == l.RowsAfter(made)
    requires e.remoteAddr !in memo && e.remoteAddr != "" ==> made < |l.addrs| && l.addrs[made] == e.remoteAddr
    modifies client.db, client.geoClient
    ensures var p' := Step(s, p, e);
            && ok == !p'.failed
            && (if ok then p' == Progress(geoIds, id, p'.asked, p.done + [Located(s, e, id)], false)
                else p'.done == p.done)
            && |p'.asked| <= |l.addrs| && client.db.geo == l.RowsAfter(|p'.asked|) && (ok ==> |p'.asked| == lookups)
  {
    geoIds, id, lookups, ok := memo, last, made, false;
    if e.remoteAddr == "" {
      return;
    }
    if e.remoteAddr !in geoIds {
      id, ok := LookUpNext(client, e.remoteAddr, envs[made], l, made);
      if !ok {
        return;
      }
      lookups := made + 1;
      geoIds := geoIds[e.remoteAddr := id];
    } else if reuse == FromMemo {
      id := geoIds[e.remoteAddr];
    }
    ok := true;
  }

  // One more lookup.
  method LookUpNext(client: ResolveClient, addr: string, env: Env, ghost l: Lookups, ghost made: nat)
    returns (id: int, ok: bool)
    requires l.Valid() && l.cache == client.cache.cm && l.useCache == client.useCache
    requires made < |l.addrs| && l.addrs[made] == addr && l.envs[made] == env && client.db.geo == l.RowsAfter(made)
    modifies client.db, client.geoClient
    ensures l.Ids()[made] == if ok then Some(id) else None
    ensures client.db.geo == l.RowsAfter(if ok then made + 1 else made)
  {
    LookupIs(l, made);
    id, ok := client.Resolve(addr, env);
  }

  lemma Iteration(s: Setting, events: seq<Event>, i: nat)
    requires i < |events| && !Loop(s, events[..i]).failed
    ensures var (p, a) := (Loop(s, events[..i]), events[i].remoteAddr);
            && (a !in p.memo ==> |p.asked| < |Distinct(events)| && Distinct(events)[|p.asked|] == a)
            && Loop(s, events[..i + 1]) == Step(s, p, events[i])
            && (Step(s, p, events[i]).failed ==> Loop(s, events) == Step(s, p, events[i]))
            && |p.done| == i
  {
    LoopOn(s, events, i);
    NextLookup(events, i);
    LoopAsks(s, events[..i]);
  }

  lemma AllAsked(s: Setting, events: seq<Event>)
    requires !Loop(s, events).failed
    ensures Loop(s, events).asked == Distinct(events)
  {
    LoopAsks(s, events);
  }

  // A new address is the next of the distinct ones.
  lemma NextLookup(events: seq<Event>, i: nat)
    requires i < |events|
    ensures var (addrs, a) := (Distinct(events[..i]), events[i].remoteAddr);
            && Distinct(events[..i + 1]) == (if a in addrs then addrs else addrs + [a])
            && Distinct(events[..i + 1]) <= Distinct(events)
            && (a !in addrs ==> |addrs| < |Distinct(events)| && Distinct(events)[|addrs|] == a)
  {
    assert events[..i + 1][..i] == events[..i];
    DistinctPrefix(events, i + 1);
  }

  lemma WriteOne(done: seq<Event>, was: seq<Event>, i: nat, e: Event)
    requires |done| == i < |was|
    ensures (done + was[i..])[i := e] == done + [e] + was[i + 1..]
  {
  }

  // ---- Which id each event gets ----

  // The latest position up to i whose address was new there.
  function LatestFirst(events: seq<Event>, i: nat): (l: nat)
    requires i < |events|
    ensures l <= i && First(events, l)
    ensures forall j :: l < j <= i ==> !First(events, j)
  {
    if First(events, i) then i else LatestFirst(events, i - 1)
  }

  // The event whose address decides the id of event i.
  function Source(reuse: Reuse, events: seq<Event>, i: nat): (k: nat)
    requires i < |events|
    ensures k <= i
  {
    if reuse == FromMemo then i else LatestFirst(events, i)
  }

  // Event i got the id of the address of event k, and the batch's origin.
  predicate IdFrom(s: Setting, events: seq<Event>, p: Progress, i: nat, k: nat)
    requires i < |events| == |p.done| && k < |events|
  {
    && events[i].remoteAddr in p.memo && events[k].remoteAddr in p.memo
    && p.done[i] == Located(s, events[i], p.memo[events[k].remoteAddr])
  }

  // After a loop that did not fail, every event has the id of the address that
  // came up last as new or, with the memo's value, of its own address.
  ghost predicate IdsFromSources(s: Setting, events: seq<Event>, p: Progress) {
    && |p.done| == |events|
    && (forall i :: 0 <= i < |events| ==> IdFrom(s, events, p, i, Source(s.reuse, events, i)))
    && (events != [] && s.reuse == LastResolved ==>
          var l := LatestFirst(events, |events| - 1);
          events[l].remoteAddr in p.memo && p.id == p.memo[events[l].remoteAddr])
  }

  lemma {:induction false} LoopGives(s: Setting, events: seq<Event>)
    requires !Loop(s, events).failed
    ensures IdsFromSources(s, events, Loop(s, events))
  {
    if events != [] {
      var front := events[..|events| - 1];
      LoopGives(s, front);
      LoopAsks(s, front);
      StepGives(s, Loop(s, front), events);
    }
  }

  lemma StepGives(s: Setting, p: Progress, events: seq<Event>)
    requires events != [] && !p.failed && IdsFromSources(s, events[..|events| - 1], p)
    requires forall a :: a in p.memo <==> a in Distinct(events[..|events| - 1])
    requires !Step(s, p, events[|events| - 1]).failed
    ensures IdsFromSources(s, events, Step(s, p, events[|events| - 1]))
  {
    var n := |events| - 1;
    var p' := Step(s, p, events[n]);
    forall i | 0 <= i < n
      ensures IdFrom(s, events, p', i, Source(s.reuse, events, i))
    {
      EarlierGives(s, p, events, i);
    }
    LastGives(s, p, events);
  }

  lemma LastGives(s: Setting, p: Progress, events: seq<Event>)
    requires events != [] && !p.failed && IdsFromSources(s, events[..|events| - 1], p)
    requires forall a :: a in p.memo <==> a in Distinct(events[..|events| - 1])
    requires !Step(s, p, events[|events| - 1]).failed
    ensures var (p', n) := (Step(s, p, events[|events| - 1]), |events| - 1);
            && IdFrom(s, events, p', n, Source(s.reuse, events, n))
            && (s.reuse == LastResolved ==>
                  var l := LatestFirst(events, n);
                  events[l].remoteAddr in p'.memo && p'.id == p'.memo[events[l].remoteAddr])
  {
    var n := |events| - 1;
    DistinctSnoc(events);
    if n > 0 {
      LatestFirstPrefix(events, n, n - 1);
    }
  }

  lemma EarlierGives(s: Setting, p: Progress, events: seq<Event>, i: nat)
    requires events != [] && i < |events| - 1 == |p.done| && !p.failed
    requires var front := events[..|events| - 1]; IdFrom(s, front, p, i, Source(s.reuse, front, i))
    requires !Step(s, p, events[|events| - 1]).failed
    ensures IdFrom(s, events, Step(s, p, events[|events| - 1]), i, Source(s.reuse, events, i))
  {
    var n := |events| - 1;
    LatestFirstPrefix(events, n, i);
    assert Step(s, p, events[n]).done[i] == p.done[i];
  }

  lemma {:induction false} LatestFirstPrefix(events: seq<Event>, n: nat, i: nat)
    requires i < n <= |events|
    ensures LatestFirst(events[..n], i) == LatestFirst(events, i)
    decreases i
  {
    assert First(events[..n], i) <==> First(events, i);
    if !First(events, i) {
      LatestFirstPrefix(events, n, i - 1);
    }
  }

  // ---- When the ids are right ----

  // Equal addresses stand next to each other: no repeat follows a newer address.
  predicate Grouped(events: seq<Event>) {
    forall i, j, k :: 0 <= i < j < k < |events| && events[i].remoteAddr == events[k].remoteAddr
      ==> events[j].remoteAddr == events[i].remoteAddr
  }

  predicate SourcesMatch(reuse: Reuse, events: seq<Event>) {
    forall i :: 0 <= i < |events| ==> events[Source(reuse, events, i)].remoteAddr == events[i].remoteAddr
  }

  lemma GroupedIffSourcesMatch(events: seq<Event>)
    ensures Grouped(events) <==> SourcesMatch(LastResolved, events)
  {
    if SourcesMatch(LastResolved, events) {
      forall i, j, k | 0 <= i < j < k < |events| && events[i].remoteAddr == events[k].remoteAddr
        ensures events[j].remoteAddr == events[i].remoteAddr
      {
        assert events[Source(LastResolved, events, k)].remoteAddr == events[k].remoteAddr;
        assert events[Source(LastResolved, events, j)].remoteAddr == events[j].remoteAddr;
        LatestFirstBetween(events, j, k);
      }
    }
    if Grouped(events) {
      forall i | 0 <= i < |events|
        ensures events[Source(LastResolved, events, i)].remoteAddr == events[i].remoteAddr
      {
        FirstOccurrence(events, i);
      }
    }
  }

  // With a source before both, the positions j and k have the same one.
  lemma {:induction false} LatestFirstBetween(events: seq<Event>, j: nat, k: nat)
    requires j <= k < |events| && LatestFirst(events, k) <= j
    ensures LatestFirst(events, j) == LatestFirst(events, k)
    decreases k
  {
    if j < k {
      LatestFirstBetween(events, j, k - 1);
    }
  }

  lemma {:induction false} FirstOccurrence(events: seq<Event>, i: nat)
    requires i < |events|
    ensures exists f :: 0 <= f <= i && First(events, f) && events[f].remoteAddr == events[i].remoteAddr
    decreases i
  {
    if !First(events, i) {
      var j :| 0 <= j < i && events[j].remoteAddr == events[i].remoteAddr;
      FirstOccurrence(events, j);
    }
  }

  predicate OwnId(events: seq<Event>, p: Progress, i: nat)
    requires i < |events| == |p.done|
  {
    events[i].remoteAddr in p.memo && p.done[i].remoteGeo == p.memo[events[i].remoteAddr]
  }

  predicate Injective(m: map<string, int>) {
    forall a, b :: a in m && b in m && a != b ==> m[a] != m[b]
  }

  // As written, and when different addresses have different ids, all events get
  // the id of their own address if and only if equal addresses stand next to each
  // other. With the memo's value they always do.
  lemma RightForAllIff(s: Setting, events: seq<Event>)
    requires !Loop(s, events).failed && Injective(Loop(s, events).memo)
    ensures var p := Loop(s, events);
            |p.done| == |events|
            && ((forall i :: 0 <= i < |events| ==> OwnId(events, p, i)) <==> s.reuse == FromMemo || Grouped(events))
  {
    var p := Loop(s, events);
    LoopGives(s, events);
    forall i | 0 <= i < |events|
      ensures OwnId(events, p, i) <==> events[Source(s.reuse, events, i)].remoteAddr == events[i].remoteAddr
    {
      OwnIdIff(s, events, p, i);
    }
    assert (forall i :: 0 <= i < |events| ==> OwnId(events, p, i)) <==> SourcesMatch(s.reuse, events);
    GroupedIffSourcesMatch(events);
  }

  lemma OwnIdIff(s: Setting, events: seq<Event>, p: Progress, i: nat)
    requires i < |events| == |p.done| && Injective(p.memo) && IdFrom(s, events, p, i, Source(s.reuse, events, i))
    ensures OwnId(events, p, i) <==> events[Source(s.reuse, events, i)].remoteAddr == events[i].remoteAddr
  {
  }

  // A batch that goes wrong: the same address before and behind another one.
  lemma WrongBatch(s: Setting, e: Event, other: string)
    requires |s.ids| == 2 && s.ids[0].Some? && s.ids[1].Some? && s.ids[0] != s.ids[1] && s.reuse == LastResolved
    requires e.remoteAddr != "" && other != "" && other != e.remoteAddr
    ensures var events := [e, e.(remoteAddr := other), e];
            var p := Loop(s, events);
            && !p.failed && |p.done| == 3
            && p.memo[e.remoteAddr] == s.ids[0].value != p.done[2].remoteGeo == s.ids[1].value
  {
    var events := [e, e.(remoteAddr := other), e];
    assert events[..2] == [e, e.(remoteAddr := other)] && events[..2][..1] == [e] && [e][..0] == [];
    assert Loop(s, [e]) == Step(s, Loop(s, []), e);
    assert Loop(s, events[..2]) == Step(s, Loop(s, [e]), events[1]);
    assert Loop(s, events) == Step(s, Loop(s, events[..2]), events[2]);
  }

  // ---- The batch and the resolver together ----

  function ClockAt(l: Lookups, clock: int, k: nat): int
    requires k <= |l.envs|
  {
    if k == 0 then clock else l.envs[k - 1].End()
  }

  // The world's answers to the lookups come in order.
  predicate AnswersOk(l: Lookups, clock: int) {
    l.Valid() && forall k :: 0 <= k < |l.addrs| ==> EnvOk(l.envs[k], ClockAt(l, clock, k), l.addrs[k])
  }

  lemma HistoryLater(rows: seq<Row>, clock: int, later: int)
    requires History(rows, clock) && clock <= later
    ensures History(rows, later)
  {
  }

  lemma ResolveKeeps(rows: seq<Row>, cache: map<string, int>, useCache: bool, clock: int, addr: string, env: Env)
    requires History(rows, clock) && EnvOk(env, clock, addr)
    ensures var r := Resolve(rows, cache, useCache, addr, env);
            && Extends(rows, r.rows) && History(r.rows, env.End())
            && (r.ok ==> Locates(r.rows, r.id, addr) || (useCache && addr in cache && r.id == cache[addr]))
  {
    if useCache && addr in cache {
      HistoryLater(rows, clock, env.End());
    } else {
      LookupLocates(rows, clock, addr, env);
    }
  }

  lemma {:induction false} LookupsKeep(l: Lookups, clock: int, k: nat)
    requires AnswersOk(l, clock) && History(l.rows, clock) && k <= |l.addrs|
    ensures Extends(l.rows, l.RowsAfter(k)) && History(l.RowsAfter(k), ClockAt(l, clock, k))
  {
    if k > 0 {
      LookupsKeep(l, clock, k - 1);
      LookupKeeps(l, clock, k);
      ExtendsTransitive(l.rows, l.RowsAfter(k - 1), l.RowsAfter(k));
    }
  }

  lemma LookupKeeps(l: Lookups, clock: int, k: nat)
    requires AnswersOk(l, clock) && 0 < k <= |l.addrs| && History(l.RowsAfter(k - 1), ClockAt(l, clock, k - 1))
    ensures Extends(l.RowsAfter(k - 1), l.RowsAfter(k)) && History(l.RowsAfter(k), ClockAt(l, clock, k))
  {
    ResolveKeeps(l.RowsAfter(k - 1), l.cache, l.useCache, ClockAt(l, clock, k - 1), l.addrs[k - 1], l.envs[k - 1]);
  }

  // Every id that was looked up names a row of its address after all lookups.
  lemma LookupsLocate(l: Lookups, clock: int, j: nat, k: nat)
    requires AnswersOk(l, clock) && History(l.rows, clock) && (l.useCache ==> CacheAgrees(l.rows, l.cache))
    requires j < k <= |l.addrs| && l.Result(j).ok
    ensures Locates(l.RowsAfter(k), l.Result(j).id, l.addrs[j])
  {
    LookupLocatesNow(l, clock, j);
    LocatesLater(l, clock, j + 1, k, l.Result(j).id, l.addrs[j]);
  }

  lemma LookupLocatesNow(l: Lookups, clock: int, j: nat)
    requires AnswersOk(l, clock) && History(l.rows, clock) && (l.useCache ==> CacheAgrees(l.rows, l.cache))
    requires j < |l.addrs| && l.Result(j).ok
    ensures Locates(l.RowsAfter(j + 1), l.Result(j).id, l.addrs[j])
  {
    LookupsKeep(l, clock, j);
    ResolveLocates(l.rows, l.RowsAfter(j), l.cache, l.useCache, ClockAt(l, clock, j), l.addrs[j], l.envs[j]);
  }

  lemma ResolveLocates(base: seq<Row>, rows: seq<Row>, cache: map<string, int>, useCache: bool, clock: int,
                       addr: string, env: Env)
    requires History(rows, clock) && EnvOk(env, clock, addr) && Extends(base, rows)
    requires useCache ==> CacheAgrees(base, cache)
    ensures var r := Resolve(rows, cache, useCache, addr, env);
            r.ok ==> Locates(r.rows, r.id, addr)
  {
    ResolveKeeps(rows, cache, useCache, clock, addr, env);
    if useCache && addr in cache {
      LocatesExtends(base, rows, cache[addr], addr);
    }
  }

  lemma LocatesLater(l: Lookups, clock: int, j: nat, k: nat, id: int, addr: string)
    requires AnswersOk(l, clock) && History(l.rows, clock) && j <= k <= |l.addrs|
    requires Locates(l.RowsAfter(j), id, addr)
    ensures Locates(l.RowsAfter(k), id, addr)
  {
    var tables := seq(|l.addrs| + 1, m requires 0 <= m <= |l.addrs| => l.RowsAfter(m));
    forall m | 0 <= m < |l.addrs|
      ensures Extends(tables[m], tables[m + 1])
    {
      LookupsKeep(l, clock, m);
      LookupKeeps(l, clock, m + 1);
    }
    ExtendsOn(tables, j, k);
    LookupsKeep(l, clock, k);
    LocatesExtends(l.RowsAfter(j), l.RowsAfter(k), id, addr);
  }

  lemma {:induction false} ExtendsOn(tables: seq<seq<Row>>, j: nat, k: nat)
    requires j <= k < |tables| && forall m :: 0 <= m < |tables| - 1 ==> Extends(tables[m], tables[m + 1])
    ensures Extends(tables[j], tables[k])
  {
    if j < k {
      ExtendsOn(tables, j, k - 1);
      ExtendsTransitive(tables[j], tables[k - 1], tables[k]);
    }
  }

  // After a batch, over a table that is a history and with no cache or one that
  // agrees with it: the location of event i is one of the address that came up
  // last as new, and so of the event's own address exactly if these two are looked
  // up as the same. With the memo's value it always is.
  lemma BatchLocates(l: Lookups, clock: int, origin: string, originId: int, reuse: Reuse, events: seq<Event>, i: nat)
    requires AnswersOk(l, clock) && History(l.rows, clock) && (l.useCache ==> CacheAgrees(l.rows, l.cache))
    requires l.addrs == Distinct(events) && i < |events|
    requires !Loop(Setting(origin, originId, reuse, l.Ids()), events).failed
    ensures var e := events[i];
            var p := Loop(Setting(origin, originId, reuse, l.Ids()), events);
            var (source, rows) := (events[Source(reuse, events, i)].remoteAddr, l.RowsAfter(|l.addrs|));
            && |p.done| == |events|
            && p.done[i] == e.(remoteGeo := p.done[i].remoteGeo, originGeo := originId, originAddr := origin)
            && Locates(rows, p.done[i].remoteGeo, source)
            && (Locates(rows, p.done[i].remoteGeo, e.remoteAddr) <==> Normal(source) == Normal(e.remoteAddr))
  {
    var s := Setting(origin, originId, reuse, l.Ids());
    SourceId(s, events, i);
    var p, source := Loop(s, events), events[Source(reuse, events, i)].remoteAddr;
    var k: nat :| k < |s.ids| && k < |l.addrs| && l.addrs[k] == source && s.ids[k] == Some(p.done[i].remoteGeo);
    assert l.Result(k).ok && l.Result(k).id == p.done[i].remoteGeo;
    LookupsLocate(l, clock, k, |l.addrs|);
    assert IdsIncrease(l.RowsAfter(|l.addrs|)) by {
      LookupsKeep(l, clock, |l.addrs|);
    }
    LocatesOne(l.RowsAfter(|l.addrs|), p.done[i].remoteGeo, source, events[i].remoteAddr);
  }

  lemma BatchOutcome(rows: seq<Row>, l: Lookups, clock: int, origin: string, events: seq<Event>, envs: seq<Env>,
                     reuse: Reuse)
    requires |envs| > 0 && l.Valid()
    requires var o := Resolve(rows, l.cache, l.useCache, origin, envs[0]);
             && o.ok && l == Lookups(o.rows, l.cache, l.useCache, Distinct(events), envs[1..])
             && !Loop(Setting(origin, o.id, reuse, l.Ids()), events).failed
    ensures var o := Resolve(rows, l.cache, l.useCache, origin, envs[0]);
            var p := Loop(Setting(origin, o.id, reuse, l.Ids()), events);
            && SetIn(events, p.done, origin)
            && (InOrder(rows, l.cache, l.useCache, clock, origin, Distinct(events), envs) ==>
                  AllNamed(l.RowsAfter(|l.addrs|), events, p.done, origin, reuse))
  {
    var o := Resolve(rows, l.cache, l.useCache, origin, envs[0]);
    LoopLocates(Setting(origin, o.id, reuse, l.Ids()), events);
    if InOrder(rows, l.cache, l.useCache, clock, origin, Distinct(events), envs) {
      AllLocated(rows, l, clock, origin, o.id, events, envs, reuse);
    }
  }

  // The origin's id names a row of the origin, and each event's id one of the
  // address it comes from.
  lemma AllLocated(rows: seq<Row>, l: Lookups, clock: int, origin: string, originId: int, events: seq<Event>,
                   envs: seq<Env>, reuse: Reuse)
    requires InOrder(rows, l.cache, l.useCache, clock, origin, Distinct(events), envs) && l.Valid()
    requires var o := Resolve(rows, l.cache, l.useCache, origin, envs[0]);
             o.ok && o.rows == l.rows && o.id == originId
    requires l.addrs == Distinct(events) && l.envs == envs[1..]
    requires !Loop(Setting(origin, originId, reuse, l.Ids()), events).failed
    ensures AllNamed(l.RowsAfter(|l.addrs|), events, Loop(Setting(origin, originId, reuse, l.Ids()), events).done,
                     origin, reuse)
  {
    OriginLocated(rows, l, clock, origin, originId, envs);
    var p := Loop(Setting(origin, originId, reuse, l.Ids()), events);
    forall i | 0 <= i < |events|
      ensures |p.done| == |events| && p.done[i].originGeo == originId
      ensures Locates(l.RowsAfter(|l.addrs|), p.done[i].remoteGeo, events[Source(reuse, events, i)].remoteAddr)
    {
      BatchLocates(l, envs[0].End(), origin, originId, reuse, events, i);
    }
  }

  lemma OriginLocated(rows: seq<Row>, l: Lookups, clock: int, origin: string, originId: int, envs: seq<Env>)
    requires InOrder(rows, l.cache, l.useCache, clock, origin, l.addrs, envs) && l.Valid() && l.envs == envs[1..]
    requires var o := Resolve(rows, l.cache, l.useCache, origin, envs[0]);
             o.ok && o.rows == l.rows && o.id == originId
    ensures History(l.rows, envs[0].End()) && (l.useCache ==> CacheAgrees(l.rows, l.cache))
    ensures AnswersOk(l, envs[0].End()) && Locates(l.RowsAfter(|l.addrs|), originId, origin)
  {
    ResolveKeeps(rows, l.cache, l.useCache, clock, origin, envs[0]);
    ResolveLocates(rows, rows, l.cache, l.useCache, clock, origin, envs[0]);
    LocatesLater(l, envs[0].End(), 0, |l.addrs|, originId, origin);
    if l.useCache {
      AgreesExtends(rows, l.rows, l.cache);
    }
  }

  // The lookup that an event's id comes from.
  lemma SourceId(s: Setting, events: seq<Event>, i: nat)
    requires !Loop(s, events).failed && i < |events|
    ensures var p, source := Loop(s, events), events[Source(s.reuse, events, i)].remoteAddr;
            && |p.done| == |events| && p.done[i] == Located(s, events[i], p.done[i].remoteGeo)
            && exists k: nat :: k < |s.ids| && k < |Distinct(events)| && Distinct(events)[k] == source
                                && s.ids[k] == Some(p.done[i].remoteGeo)
  {
    var p, source := Loop(s, events), events[Source(s.reuse, events, i)].remoteAddr;
    LoopGives(s, events);
    LoopAsks(s, events);
    assert IdFrom(s, events, p, i, Source(s.reuse, events, i));
    var k: nat :| k < |p.asked| && p.asked[k] == source;
    assert s.ids[k] == Some(p.memo[source]);
  }
}
