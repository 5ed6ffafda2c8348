// cmd/proxy.go: a durable queue of request bodies that is drained in batches of
// bounded size while producers go on enqueuing.
module Proxy {
  import opened Bytes
  import opened Wrappers

  const MAX_BATCH_SIZE := 9_437_184 // 9 * 1024 * 1024

  type Payload = seq<byte>

  function Total(ps: seq<Payload>): nat {
    if ps == [] then 0 else |ps[0]| + Total(ps[1..])
  }

  // What happens around a dequeue: producers enqueue just before it, and it may fail.
  datatype Turn = Turn(arrivals: seq<Payload>, fails: bool)

  function TurnAt(turns: seq<Turn>, k: nat): Turn {
    if k < |turns| then turns[k] else Turn([], false)
  }

  // What the producers enqueue around dequeues k to m - 1.
  function Arrived(turns: seq<Turn>, k: nat, m: nat): seq<Payload>
    decreases m - k
  {
    if m <= k then [] else TurnAt(turns, k).arrivals + Arrived(turns, k + 1, m)
  }

  lemma {:induction false} ArrivedSnoc(turns: seq<Turn>, k: nat, m: nat)
    requires k <= m
    ensures Arrived(turns, k, m + 1) == Arrived(turns, k, m) + TurnAt(turns, m).arrivals
    decreases m - k
  {
    if k < m {
      ArrivedSnoc(turns, k + 1, m);
    } else {
      assert Arrived(turns, k, k + 1) == TurnAt(turns, k).arrivals + Arrived(turns, k + 1, k + 1);
    }
  }

  // Why the loop of a drain stops.
  datatype Stop = Exhausted | DequeueFailed | Full | Overflow | Undecodable

  // The items a drain dequeues, what it leaves, and how many dequeues it tries.
  datatype Gathered = Gathered(taken: seq<Payload>, queue: seq<Payload>, tries: nat, stop: Stop)

  // The loop of Drain. It ends although producers may enqueue at every turn: an
  // item that lets it go on decodes, so it is not empty and fills the batch.
  function Gather<E>(decode: Payload -> Option<E>, q: seq<Payload>, turns: seq<Turn>, k: nat, size: nat): (g: Gathered)
    requires decode([]).None?
    ensures g.stop.Overflow? || g.stop.Undecodable? ==> g.taken != []
    decreases MAX_BATCH_SIZE - size
  {
    var offered := q + TurnAt(turns, k).arrivals;
    if size >= MAX_BATCH_SIZE then Gathered([], q, k, Full)
    else if TurnAt(turns, k).fails then Gathered([], offered, k + 1, DequeueFailed)
    else if offered == [] then Gathered([], [], k + 1, Exhausted)
    else if size + |offered[0]| > MAX_BATCH_SIZE then Gathered([offered[0]], offered[1..], k + 1, Overflow)
    else if decode(offered[0]).None? then Gathered([offered[0]], offered[1..], k + 1, Undecodable)
    else More(offered[0], Gather(decode, offered[1..], turns, k + 1, size + |offered[0]|))
  }

  // One more item in front.
  function More(item: Payload, g: Gathered): Gathered {
    g.(taken := [item] + g.taken)
  }

  // The dequeued items that are in the batch.
  function Fitting(g: Gathered): seq<Payload> {
    if (g.stop.Overflow? || g.stop.Undecodable?) && g.taken != [] then g.taken[..|g.taken| - 1] else g.taken
  }

  // Dequeuing is in order: what was queued and what arrived is what was taken
  // followed by what is left.
  lemma {:induction false} GatherConserves<E>(decode: Payload -> Option<E>, q: seq<Payload>, turns: seq<Turn>, k: nat,
                                              size: nat)
    requires decode([]).None?
    ensures var g := Gather(decode, q, turns, k, size);
            k <= g.tries && q + Arrived(turns, k, g.tries) == g.taken + g.queue
    decreases MAX_BATCH_SIZE - size
  {
    var g := Gather(decode, q, turns, k, size);
    var offered := q + TurnAt(turns, k).arrivals;
    if g.tries == k + 1 {
      assert Arrived(turns, k, g.tries) == TurnAt(turns, k).arrivals + Arrived(turns, k + 1, g.tries);
    }
    if size < MAX_BATCH_SIZE && !TurnAt(turns, k).fails && offered != [] {
      var item, rest := offered[0], offered[1..];
      assert offered == [item] + rest;
      if size + |item| <= MAX_BATCH_SIZE && decode(item).Some? {
        var h := Gather(decode, rest, turns, k + 1, size + |item|);
        GatherConserves(decode, rest, turns, k + 1, size + |item|);
        ConservesMore(q, TurnAt(turns, k).arrivals, Arrived(turns, k + 1, h.tries), item, rest, h);
      }
    }
  }

  lemma ConservesMore(q: seq<Payload>, arrivals: seq<Payload>, later: seq<Payload>, item: Payload, rest: seq<Payload>,
                      h: Gathered)
    requires q + arrivals == [item] + rest && rest + later == h.taken + h.queue
    ensures q + (arrivals + later) == [item] + h.taken + h.queue
  {
    calc {
      q + (arrivals + later);
      (q + arrivals) + later;
      [item] + (rest + later);
      [item] + h.taken + h.queue;
    }
  }

  predicate AllDecode<E>(decode: Payload -> Option<E>, ps: seq<Payload>) {
    forall i :: 0 <= i < |ps| ==> decode(ps[i]).Some?
  }

  // The batch is no larger than the limit, and the last item taken is left out of
  // it when it would go over the limit, which nothing else can do.
  predicate Sized(size: nat, g: Gathered) {
    && size + Total(Fitting(g)) <= MAX_BATCH_SIZE
    && (g.stop.Overflow? <==> size + Total(g.taken) > MAX_BATCH_SIZE)
    && (g.stop.Full? ==> size + Total(g.taken) == MAX_BATCH_SIZE)
    && (g.stop.Exhausted? ==> g.queue == [] && size + Total(g.taken) < MAX_BATCH_SIZE)
  }

  // The batch decodes, and so do all items taken but one that stops the drain or
  // is not looked at because it goes over the limit.
  predicate Decodable<E>(decode: Payload -> Option<E>, g: Gathered) {
    && AllDecode(decode, Fitting(g))
    && (g.stop.Undecodable? ==> g.taken != [] && decode(g.taken[|g.taken| - 1]).None?)
  }

  lemma {:induction false} GatherFits<E>(decode: Payload -> Option<E>, q: seq<Payload>, turns: seq<Turn>, k: nat,
                                         size: nat)
    requires decode([]).None? && size <= MAX_BATCH_SIZE
    ensures Sized(size, Gather(decode, q, turns, k, size))
    decreases MAX_BATCH_SIZE - size
  {
    var offered := q + TurnAt(turns, k).arrivals;
    if size < MAX_BATCH_SIZE && !TurnAt(turns, k).fails && offered != [] {
      var item := offered[0];
      if size + |item| > MAX_BATCH_SIZE || decode(item).None? {
        SizedOne(size, Gather(decode, q, turns, k, size));
      } else {
        GatherFits(decode, offered[1..], turns, k + 1, size + |item|);
        SizedMore(size, item, Gather(decode, offered[1..], turns, k + 1, size + |item|));
      }
    }
  }

  lemma SizedOne(size: nat, g: Gathered)
    requires |g.taken| == 1 && size <= MAX_BATCH_SIZE && (g.stop.Overflow? || g.stop.Undecodable?)
    requires g.stop.Overflow? <==> size + |g.taken[0]| > MAX_BATCH_SIZE
    ensures Sized(size, g)
  {
    assert Total(g.taken[1..]) == 0 && Fitting(g) == [];
  }

  lemma SizedMore(size: nat, item: Payload, h: Gathered)
    requires Sized(size + |item|, h) && (h.stop.Overflow? || h.stop.Undecodable? ==> h.taken != [])
    ensures Sized(size, More(item, h))
  {
    FittingMore(item, h);
    TotalCons(item, Fitting(h));
    TotalCons(item, h.taken);
  }

  lemma FittingMore(item: Payload, h: Gathered)
    requires h.stop.Overflow? || h.stop.Undecodable? ==> h.taken != []
    ensures Fitting(More(item, h)) == [item] + Fitting(h)
  {
  }

  lemma {:induction false} GatherDecodes<E>(decode: Payload -> Option<E>, q: seq<Payload>, turns: seq<Turn>, k: nat,
                                            size: nat)
    requires decode([]).None?
    ensures Decodable(decode, Gather(decode, q, turns, k, size))
    decreases MAX_BATCH_SIZE - size
  {
    var offered := q + TurnAt(turns, k).arrivals;
    if size < MAX_BATCH_SIZE && !TurnAt(turns, k).fails && offered != [] {
      var item := offered[0];
      if size + |item| <= MAX_BATCH_SIZE && decode(item).Some? {
        GatherDecodes(decode, offered[1..], turns, k + 1, size + |item|);
        DecodableMore(decode, item, Gather(decode, offered[1..], turns, k + 1, size + |item|));
      }
    }
  }

  lemma DecodableMore<E>(decode: Payload -> Option<E>, item: Payload, h: Gathered)
    requires Decodable(decode, h) && decode(item).Some? && (h.stop.Overflow? || h.stop.Undecodable? ==> h.taken != [])
    ensures Decodable(decode, More(item, h))
  {
    FittingMore(item, h);
  }

  lemma TotalCons(p: Payload, ps: seq<Payload>)
    ensures Total([p] + ps) == |p| + Total(ps)
  {
    assert ([p] + ps)[1..] == ps;
  }

  lemma {:induction false} TotalAppend(ps: seq<Payload>, more: seq<Payload>)
    ensures Total(ps + more) == Total(ps) + Total(more)
  {
    if ps == [] {
      assert ps + more == more;
    } else {
      assert (ps + more)[1..] == ps[1..] + more;
      TotalAppend(ps[1..], more);
    }
  }

  // Unless a dequeue failed, no longer run of what the queue offered would have
  // fitted and decoded.
  lemma GatherLongest<E>(decode: Payload -> Option<E>, q: seq<Payload>, turns: seq<Turn>, more: seq<Payload>,
                         after: seq<Payload>)
    requires decode([]).None?
    requires var g := Gather(decode, q, turns, 0, 0);
             !g.stop.DequeueFailed? && more != [] && q + Arrived(turns, 0, g.tries) == Fitting(g) + more + after
    ensures var run := Fitting(Gather(decode, q, turns, 0, 0)) + more;
            Total(run) > MAX_BATCH_SIZE || !AllDecode(decode, run)
  {
    var g := Gather(decode, q, turns, 0, 0);
    GatherConserves(decode, q, turns, 0, 0);
    GatherFits(decode, q, turns, 0, 0);
    GatherDecodes(decode, q, turns, 0, 0);
    NoLongerRun(decode, g, more, after);
  }

  lemma NoLongerRun<E>(decode: Payload -> Option<E>, g: Gathered, more: seq<Payload>, after: seq<Payload>)
    requires decode([]).None? && Sized(0, g) && Decodable(decode, g) && !g.stop.DequeueFailed?
    requires more != [] && g.taken + g.queue == Fitting(g) + more + after
    requires g.stop.Overflow? || g.stop.Undecodable? ==> g.taken != []
    ensures Total(Fitting(g) + more) > MAX_BATCH_SIZE || !AllDecode(decode, Fitting(g) + more)
  {
    var fit, run := Fitting(g), Fitting(g) + more;
    TotalAppend(fit, more);
    TotalCons(more[0], more[1..]);
    assert more == [more[0]] + more[1..];
    assert run[|fit|] == more[0] && (fit + more + after)[|fit|] == more[0];
    if g.stop.Overflow? || g.stop.Undecodable? {
      assert g.taken == fit + [more[0]];
      TotalAppend(fit, [more[0]]);
      TotalCons(more[0], []);
    }
  }

  // ---- When a drain loses nothing ----

  // The first n items offered from dequeue k on fit into what is left of the batch
  // and decode, and then the drain ends: the batch is full, or a dequeue fails, or
  // nothing else is queued by then.
  ghost predicate EndsAfter<E>(decode: Payload -> Option<E>, q: seq<Payload>, turns: seq<Turn>, k: nat, size: nat,
                               n: nat) {
    FrontEnds(decode, q + Arrived(turns, k, k + n), size, n, NoMoreAfter(q, turns, k, n))
  }

  // The dequeue after n items fails, or n items are all there is by then.
  predicate NoMoreAfter(q: seq<Payload>, turns: seq<Turn>, k: nat, n: nat) {
    TurnAt(turns, k + n).fails || |q + Arrived(turns, k, k + n + 1)| == n
  }

  // The first n of the items fit and decode, and fill the batch or are followed by an end.
  predicate FrontEnds<E>(decode: Payload -> Option<E>, offered: seq<Payload>, size: nat, n: nat, ends: bool) {
    && n <= |offered| && size + Total(offered[..n]) <= MAX_BATCH_SIZE && AllDecode(decode, offered[..n])
    && (size + Total(offered[..n]) == MAX_BATCH_SIZE || ends)
  }

  ghost predicate Clear<E>(decode: Payload -> Option<E>, q: seq<Payload>, turns: seq<Turn>, k: nat, size: nat) {
    exists n: nat :: EndsAfter(decode, q, turns, k, size, n)
  }

  // No item is dropped for its size or for not decoding if and only if what the
  // queue offers has a front part after which the drain ends.
  lemma {:induction false} NothingDroppedIff<E>(decode: Payload -> Option<E>, q: seq<Payload>, turns: seq<Turn>, k: nat,
                                                size: nat)
    requires decode([]).None? && size <= MAX_BATCH_SIZE
    ensures var stop := Gather(decode, q, turns, k, size).stop;
            !stop.Overflow? && !stop.Undecodable? <==> Clear(decode, q, turns, k, size)
    decreases MAX_BATCH_SIZE - size
  {
    var offered := q + TurnAt(turns, k).arrivals;
    if size == MAX_BATCH_SIZE || TurnAt(turns, k).fails || offered == [] {
      EndsAtOnce(decode, q, turns, k, size);
    } else if size + |offered[0]| > MAX_BATCH_SIZE || decode(offered[0]).None? {
      FirstIsDropped(decode, q, turns, k, size);
    } else {
      NothingDroppedIff(decode, offered[1..], turns, k + 1, size + |offered[0]|);
      ClearMore(decode, q, turns, k, size);
    }
  }

  lemma ArrivedOne(turns: seq<Turn>, k: nat)
    ensures Arrived(turns, k, k + 1) == TurnAt(turns, k).arrivals
  {
    assert Arrived(turns, k, k + 1) == TurnAt(turns, k).arrivals + Arrived(turns, k + 1, k + 1);
  }

  lemma EndsAtOnce<E>(decode: Payload -> Option<E>, q: seq<Payload>, turns: seq<Turn>, k: nat, size: nat)
    requires size <= MAX_BATCH_SIZE
    requires size == MAX_BATCH_SIZE || TurnAt(turns, k).fails || q + TurnAt(turns, k).arrivals == []
    ensures Clear(decode, q, turns, k, size)
  {
    ArrivedOne(turns, k);
    assert EndsAfter(decode, q, turns, k, size, 0);
  }

  // The items offered up to a later dequeue, by the first of them.
  lemma OfferedMore(q: seq<Payload>, turns: seq<Turn>, k: nat, m: nat)
    requires k < m && q + TurnAt(turns, k).arrivals != []
    ensures var offered := q + TurnAt(turns, k).arrivals;
            q + Arrived(turns, k, m) == [offered[0]] + (offered[1..] + Arrived(turns, k + 1, m))
  {
    var arrivals, later := TurnAt(turns, k).arrivals, Arrived(turns, k + 1, m);
    Regroup(q, arrivals, later);
    Regroup([(q + arrivals)[0]], (q + arrivals)[1..], later);
  }

  lemma FirstIsDropped<E>(decode: Payload -> Option<E>, q: seq<Payload>, turns: seq<Turn>, k: nat, size: nat)
    requires size < MAX_BATCH_SIZE && !TurnAt(turns, k).fails && q + TurnAt(turns, k).arrivals != []
    requires var item := (q + TurnAt(turns, k).arrivals)[0];
             size + |item| > MAX_BATCH_SIZE || decode(item).None?
    ensures !Clear(decode, q, turns, k, size)
  {
    var item := (q + TurnAt(turns, k).arrivals)[0];
    ArrivedOne(turns, k);
    forall n: nat
      ensures !EndsAfter(decode, q, turns, k, size, n)
    {
      if n > 0 {
        OfferedMore(q, turns, k, k + n);
        var all := q + Arrived(turns, k, k + n);
        assert n <= |all| ==> all[..n][0] == item;
      }
    }
  }

  lemma ClearMore<E>(decode: Payload -> Option<E>, q: seq<Payload>, turns: seq<Turn>, k: nat, size: nat)
    requires size < MAX_BATCH_SIZE && !TurnAt(turns, k).fails && q + TurnAt(turns, k).arrivals != []
    requires decode((q + TurnAt(turns, k).arrivals)[0]).Some?
    ensures var offered := q + TurnAt(turns, k).arrivals;
            Clear(decode, q, turns, k, size) <==> Clear(decode, offered[1..], turns, k + 1, size + |offered[0]|)
  {
    var offered := q + TurnAt(turns, k).arrivals;
    ArrivedOne(turns, k);
    assert !EndsAfter(decode, q, turns, k, size, 0);
    if n: nat :| EndsAfter(decode, q, turns, k, size, n) {
      EndsAfterMore(decode, q, turns, k, size, n - 1);
    }
    var (rest, next, filled) := (offered[1..], k + 1, size + |offered[0]|);
    if n: nat :| EndsAfter(decode, rest, turns, next, filled, n) {
      EndsAfterMore(decode, q, turns, k, size, n);
      assert EndsAfter(decode, q, turns, k, size, n + 1);
    }
  }

  lemma EndsAfterMore<E>(decode: Payload -> Option<E>, q: seq<Payload>, turns: seq<Turn>, k: nat, size: nat, n: nat)
    requires q + TurnAt(turns, k).arrivals != [] && decode((q + TurnAt(turns, k).arrivals)[0]).Some?
    ensures var offered := q + TurnAt(turns, k).arrivals;
            EndsAfter(decode, q, turns, k, size, n + 1)
            <==> EndsAfter(decode, offered[1..], turns, k + 1, size + |offered[0]|, n)
  {
    var offered := q + TurnAt(turns, k).arrivals;
    var item, rest := offered[0], offered[1..] + Arrived(turns, k + 1, k + 1 + n);
    OfferedMore(q, turns, k, k + n + 1);
    NoMoreLater(q, turns, k, n);
    FrontMore(decode, item, rest, size, n, NoMoreAfter(q, turns, k, n + 1));
  }

  lemma NoMoreLater(q: seq<Payload>, turns: seq<Turn>, k: nat, n: nat)
    requires q + TurnAt(turns, k).arrivals != []
    ensures NoMoreAfter(q, turns, k, n + 1) == NoMoreAfter((q + TurnAt(turns, k).arrivals)[1..], turns, k + 1, n)
  {
    OfferedMore(q, turns, k, k + n + 2);
  }

  lemma FrontMore<E>(decode: Payload -> Option<E>, item: Payload, rest: seq<Payload>, size: nat, n: nat, ends: bool)
    requires decode(item).Some?
    ensures FrontEnds(decode, [item] + rest, size, n + 1, ends) <==> FrontEnds(decode, rest, size + |item|, n, ends)
  {
    if n <= |rest| {
      assert ([item] + rest)[..n + 1] == [item] + rest[..n];
      TotalCons(item, rest[..n]);
      AllDecodeCons(decode, item, rest[..n]);
    }
  }

  lemma AllDecodeCons<E>(decode: Payload -> Option<E>, item: Payload, ps: seq<Payload>)
    requires decode(item).Some?
    ensures AllDecode(decode, [item] + ps) <==> AllDecode(decode, ps)
  {
    if AllDecode(decode, [item] + ps) {
      assert forall i :: 0 <= i < |ps| ==> ([item] + ps)[i + 1] == ps[i];
    }
  }

  // ---- The relay ----

  // What became of an item that was dequeued.
  datatype Fate = Sent | Overflowed | LostToDecoding | LostInSending

  function Repeat(f: Fate, n: nat): (fs: seq<Fate>)
    ensures |fs| == n && forall i :: 0 <= i < n ==> fs[i] == f
  {
    seq(n, _ => f)
  }

  // The fates of the items one drain takes.
  function FatesOf(g: Gathered, sendOk: bool): (fs: seq<Fate>)
    ensures |fs| == |g.taken|
  {
    if g.stop.Undecodable? then Repeat(LostToDecoding, |g.taken|)
    else
      Repeat(if sendOk then Sent else LostInSending, |Fitting(g)|)
      + (if g.stop.Overflow? && g.taken != [] then [Overflowed] else [])
  }

  predicate AllSent(fates: seq<Fate>) {
    forall i :: 0 <= i < |fates| ==> fates[i] == Sent
  }

  // A drain of a queue loses nothing if and only if the queue offers a front part
  // that fits and decodes and after which the drain ends, and the transporter takes
  // it or there was nothing to take.
  lemma LosesNothingIff<E>(decode: Payload -> Option<E>, q: seq<Payload>, turns: seq<Turn>, sendOk: bool)
    requires decode([]).None? && q != []
    ensures AllSent(FatesOf(Gather(decode, q, turns, 0, 0), sendOk))
       <==> TurnAt(turns, 0).fails || (sendOk && Clear(decode, q, turns, 0, 0))
  {
    var g := Gather(decode, q, turns, 0, 0);
    NothingDroppedIff(decode, q, turns, 0, 0);
    var fates := FatesOf(g, sendOk);
    if g.stop.Overflow? {
      assert fates[|fates| - 1] == Overflowed;
    } else if g.taken != [] && (g.stop.Undecodable? || !sendOk) {
      assert fates[0] != Sent;
    }
  }

  // The first n items queued fit and decode, and are all there is or fill the batch.
  predicate FrontIsBatch<E>(decode: Payload -> Option<E>, q: seq<Payload>, n: nat) {
    && n <= |q| && Total(q[..n]) <= MAX_BATCH_SIZE && AllDecode(decode, q[..n])
    && (n == |q| || Total(q[..n]) == MAX_BATCH_SIZE)
  }

  // With nobody enqueuing, that is a condition on the queue alone.
  lemma QuietLosesNothingIff<E>(decode: Payload -> Option<E>, q: seq<Payload>, sendOk: bool)
    requires decode([]).None? && q != []
    ensures AllSent(FatesOf(Gather(decode, q, [], 0, 0), sendOk))
       <==> sendOk && exists n: nat :: FrontIsBatch(decode, q, n)
  {
    LosesNothingIff(decode, q, [], sendOk);
    if n: nat :| EndsAfter(decode, q, [], 0, 0, n) {
      QuietEndsAfter(decode, q, n);
    }
    if n: nat :| FrontIsBatch(decode, q, n) {
      QuietEndsAfter(decode, q, n);
      assert EndsAfter(decode, q, [], 0, 0, n);
    }
  }

  lemma QuietEndsAfter<E>(decode: Payload -> Option<E>, q: seq<Payload>, n: nat)
    ensures EndsAfter(decode, q, [], 0, 0, n) <==> FrontIsBatch(decode, q, n)
  {
    NoArrivals(0, n);
    NoArrivals(0, n + 1);
    assert q + [] == q;
  }

  // Two items that decode, of which the first leaves room: both are sent if together
  // they are 9 MiB or less, and otherwise the second is lost.
  lemma TwoItems<E>(decode: Payload -> Option<E>, a: Payload, b: Payload)
    requires decode([]).None? && decode(a).Some? && decode(b).Some? && |a| < 9 * 1024 * 1024
    ensures FatesOf(Gather(decode, [a, b], [], 0, 0), true)
         == [Sent, if |a| + |b| <= 9 * 1024 * 1024 then Sent else Overflowed]
  {
    var q := [a, b];
    assert q + [] == q && q[1..] == [b] && [b] + [] == [b] && [b][1..] == [];
    assert TurnAt([], 0) == TurnAt([], 1) == TurnAt([], 2) == Turn([], false);
    LastItem(decode, b, |a|);
    var (h, g) := (Gather(decode, [b], [], 1, |a|), Gather(decode, q, [], 0, 0));
    assert g == More(a, h) && g.taken == [a, b];
    assert |FatesOf(g, true)| == 2;
  }

  lemma LastItem<E>(decode: Payload -> Option<E>, b: Payload, size: nat)
    requires decode([]).None? && decode(b).Some? && size < MAX_BATCH_SIZE
    ensures var h := Gather(decode, [b], [], 1, size);
            && h.taken == [b] && h.queue == [] && !h.stop.Undecodable?
            && (h.stop.Overflow? <==> size + |b| > MAX_BATCH_SIZE)
  {
    assert TurnAt([], 1) == TurnAt([], 2) == Turn([], false);
    assert [b] + [] == [b] && [b][1..] == [];
    if size + |b| <= MAX_BATCH_SIZE {
      var h := Gather(decode, [], [], 2, size + |b|);
      assert h.taken == [] && !h.stop.Overflow? && !h.stop.Undecodable?;
    }
  }

  // So two equal items that are fit to be sent can lose the second.
  lemma LosingQueue<E>(decode: Payload -> Option<E>, item: Payload)
    requires decode([]).None? && decode(item).Some? && |item| < 9 * 1024 * 1024 < 2 * |item|
    ensures FatesOf(Gather(decode, [item, item], [], 0, 0), true) == [Sent, Overflowed]
  {
    TwoItems(decode, item, item);
  }

  function Concat<T>(ss: seq<seq<T>>): seq<T> {
    if ss == [] then [] else Concat(ss[..|ss| - 1]) + ss[|ss| - 1]
  }

  // Items that were sent are items that decode.
  ghost predicate Decodes<E>(decode: Payload -> Option<E>, accepted: seq<Payload>, fates: seq<Fate>) {
    |fates| <= |accepted| && forall i :: 0 <= i < |fates| && fates[i] == Sent ==> decode(accepted[i]).Some?
  }

  // The events of the items that were sent, in the order of acceptance.
  ghost function SentEvents<E>(decode: Payload -> Option<E>, accepted: seq<Payload>, fates: seq<Fate>): seq<E>
    requires Decodes(decode, accepted, fates)
  {
    if fates == [] then []
    else
      var n := |fates| - 1;
      SentEvents(decode, accepted, fates[..n]) + (if fates[n] == Sent then [decode(accepted[n]).value] else [])
  }

  lemma {:induction false} SentEventsPrefix<E>(decode: Payload -> Option<E>, accepted: seq<Payload>,
                                               more: seq<Payload>, fates: seq<Fate>)
    requires Decodes(decode, accepted, fates)
    ensures Decodes(decode, accepted + more, fates)
    ensures SentEvents(decode, accepted + more, fates) == SentEvents(decode, accepted, fates)
  {
    if fates != [] {
      SentEventsPrefix(decode, accepted, more, fates[..|fates| - 1]);
    }
  }

  // The sent items are a subsequence of the accepted ones: they have strictly
  // increasing positions, so each is delivered once and in order, and the
  // positions that are missing are those with another fate.
  ghost predicate IsSubsequence<E>(decode: Payload -> Option<E>, accepted: seq<Payload>, fates: seq<Fate>,
                                   events: seq<E>, at: seq<nat>) {
    && |at| == |events|
    && (forall i, j :: 0 <= i < j < |at| ==> at[i] < at[j])
    && (forall i :: 0 <= i < |at| ==> at[i] < |fates| <= |accepted| && fates[at[i]] == Sent
                                      && decode(accepted[at[i]]) == Some(events[i]))
    && (forall i :: 0 <= i < |fates| && fates[i] == Sent ==> i in at)
  }

  lemma {:induction false} SentAreSubsequence<E>(decode: Payload -> Option<E>, accepted: seq<Payload>, fates: seq<Fate>)
    requires Decodes(decode, accepted, fates)
    ensures exists at: seq<nat> :: IsSubsequence(decode, accepted, fates, SentEvents(decode, accepted, fates), at)
  {
    if fates == [] {
      assert IsSubsequence(decode, accepted, fates, SentEvents(decode, accepted, fates), []);
    } else {
      var n := |fates| - 1;
      var events := SentEvents(decode, accepted, fates[..n]);
      SentAreSubsequence(decode, accepted, fates[..n]);
      var at: seq<nat> :| IsSubsequence(decode, accepted, fates[..n], events, at);
      assert fates == fates[..n] + [fates[n]];
      SubsequenceSnoc(decode, accepted, fates[..n], fates[n], events, at);
      var at' := if fates[n] == Sent then at + [n] else at;
      assert IsSubsequence(decode, accepted, fates, SentEvents(decode, accepted, fates), at');
    }
  }

  lemma SubsequenceSnoc<E>(decode: Payload -> Option<E>, accepted: seq<Payload>, fates: seq<Fate>, f: Fate,
                           events: seq<E>, at: seq<nat>)
    requires IsSubsequence(decode, accepted, fates, events, at) && |fates| < |accepted|
    requires f == Sent ==> decode(accepted[|fates|]).Some?
    ensures f == Sent ==>
              var e := decode(accepted[|fates|]).value;
              IsSubsequence(decode, accepted, fates + [f], events + [e], at + [|fates|])
    ensures f != Sent ==> IsSubsequence(decode, accepted, fates + [f], events + [], at)
  {
    assert events + [] == events;
    var all, at' := fates + [f], if f == Sent then at + [|fates|] else at;
    forall i | 0 <= i < |all| && all[i] == Sent
      ensures i in at'
    {
      if i < |fates| {
        assert fates[i] == Sent && i in at;
      } else {
        assert at'[|at|] == i;
      }
    }
  }

  class Relay<E> {
    const decode: Payload -> Option<E>
    var q: seq<Payload>
    var batches: seq<seq<E>> // handed to the transporter without an error
    ghost var accepted: seq<Payload>
    ghost var fates: seq<Fate>

    // Every accepted item has met one fate or is still queued, in order, and the
    // batches are the events of those whose fate it was to be sent, in order.
    ghost predicate Valid()
      reads this
    {
      && decode([]).None?
      && Decodes(decode, accepted, fates)
      && q == accepted[|fates|..]
      && Concat(batches) == SentEvents(decode, accepted, fates)
    }

    constructor (decode: Payload -> Option<E>)
      requires decode([]).None?
      ensures Valid() && accepted == [] && this.decode == decode
    {
      this.decode := decode;
      q, batches, accepted, fates := [], [], [], [];
    }

    // So at any time, after any enqueues and drains: what was delivered is a
    // subsequence of what was accepted, each item at most once, and every accepted
    // item is still queued or has one fate.
    lemma Safety()
      requires Valid()
      ensures |fates| + |q| == |accepted|
      ensures exists at: seq<nat> :: IsSubsequence(decode, accepted, fates, Concat(batches), at)
    {
      SentAreSubsequence(decode, accepted, fates);
    }

    // Enqueue one item, which may fail.
    method Send(payload: Payload, enqueueOk: bool) returns (ok: bool)
      requires Valid()
      modifies this
      ensures Valid() && ok == enqueueOk && batches == old(batches) && fates == old(fates)
      ensures accepted == old(accepted) + (if ok then [payload] else [])
      ensures q == old(q) + (if ok then [payload] else [])
    {
      if !enqueueOk {
        return false;
      }
      ok := true;
      q, accepted := q + [payload], accepted + [payload];
      SentEventsPrefix(decode, old(accepted), [payload], fates);
    }

    // A drain under the mutex. The producers' enqueues between its dequeues, and
    // whether the transporter reports an error, are parameters.
    method Drain(turns: seq<Turn>, sendOk: bool)
      requires Valid()
      modifies this
      ensures Valid()
      ensures old(q) == [] ==>
                q == [] && accepted == old(accepted) && fates == old(fates) && batches == old(batches)
      ensures old(q) != [] ==>
                var g := Gather(decode, old(q), turns, 0, 0);
                && q == g.queue && accepted == old(accepted) + Arrived(turns, 0, g.tries)
                && fates == old(fates) + FatesOf(g, sendOk)
                && (Fitting(g) == [] || !sendOk || g.stop.Undecodable? ==> batches == old(batches))
                && (Fitting(g) != [] && sendOk && !g.stop.Undecodable? ==>
                      |batches| == |old(batches)| + 1 && batches[..|old(batches)|] == old(batches)
                      && IsDecoded(decode, Fitting(g), batches[|old(batches)|]))
      ensures old(fates) <= fates
      ensures AllSent(fates[|old(fates)|..])
         <==> old(q) == [] || TurnAt(turns, 0).fails || (sendOk && Clear(decode, old(q), turns, 0, 0))
    {
      if |q| <= 0 {
        return;
      }
      LosesNothingIff(decode, q, turns, sendOk);
      ghost var g := Gather(decode, q, turns, 0, 0);
      GatherConserves(decode, q, turns, 0, 0);
      SentEventsPrefix(decode, accepted, Arrived(turns, 0, g.tries), fates);
      assert (accepted + Arrived(turns, 0, g.tries))[|fates|..] == g.taken + g.queue;
      var events, undecodable := Collect(turns);
      DrainFates(decode, accepted, fates, g, sendOk, events);
      fates := fates + FatesOf(g, sendOk);
      if undecodable || |events| <= 0 {
        return;
      }
      if sendOk {
        batches := batches + [events];
        assert batches[..|batches| - 1] == old(batches);
      }
    }

    // Dequeue an item, after whatever the producers enqueue first.
    method Dequeue(turn: Turn) returns (item: Option<Payload>)
      modifies this`q, this`accepted
      ensures accepted == old(accepted) + turn.arrivals
      ensures var offered := old(q) + turn.arrivals;
              if turn.fails || offered == [] then item == None && q == offered
              else item == Some(offered[0]) && q == offered[1..]
    {
      q, accepted := q + turn.arrivals, accepted + turn.arrivals;
      if turn.fails || q == [] {
        return None;
      }
      item, q := Some(q[0]), q[1..];
    }

    // The loop: dequeue and decode while the batch is below the limit.
    method Collect(turns: seq<Turn>) returns (events: seq<E>, undecodable: bool)
      requires decode([]).None?
      modifies this`q, this`accepted
      ensures var g := Gather(decode, old(q), turns, 0, 0);
              && q == g.queue && accepted == old(accepted) + Arrived(turns, 0, g.tries)
              && undecodable == g.stop.Undecodable?
              && (!undecodable ==> IsDecoded(decode, Fitting(g), events))
    {
      ghost var g := Gather(decode, q, turns, 0, 0);
      events, undecodable := [], false;
      ghost var taken := [];
      var bufSize, k := 0, 0;
      while bufSize < MAX_BATCH_SIZE
        invariant g == Ahead(taken, Gather(decode, q, turns, k, bufSize))
        invariant accepted == old(accepted) + Arrived(turns, 0, k)
        invariant IsDecoded(decode, taken, events)
        decreases MAX_BATCH_SIZE - bufSize
      {
        OneTurn(decode, taken, q, turns, k, bufSize);
        AcceptMore(old(accepted), turns, k);
        var next := Dequeue(TurnAt(turns, k));
        k := k + 1;
        if next.None? {
          return;
        }
        var item := next.value;
        bufSize := bufSize + |item|;
        if bufSize > MAX_BATCH_SIZE {
          return;
        }
        var e := decode(item);
        if e.None? {
          undecodable := true;
          return;
        }
        IsDecodedSnoc(decode, taken, events, item);
        events, taken := events + [e.value], taken + [item];
      }
      assert taken + [] == taken;
    }

    // The drains of the timer, once the producers have stopped: they empty the queue.
    method DrainToEnd(sendOks: seq<bool>)
      requires Valid()
      modifies this
      ensures Valid() && q == [] && accepted == old(accepted) && |fates| == |accepted|
    {
      var i := 0;
      while q != []
        invariant Valid() && accepted == old(accepted)
        decreases |q|
      {
        GatherShrinks(decode, q);
        Drain([], i < |sendOks| && sendOks[i]);
        i := i + 1;
      }
    }

    // One request. The body is read with a single Read, into a buffer as long as
    // the request says, and the whole buffer is enqueued: what that Read did not
    // deliver stays zero. The answer is 202 even if the queue does not take it.
    // None is the panic on a request of unknown length.
    method ServeHTTP(contentLength: int, received: seq<byte>, err: ReadError, enqueueOk: bool)
      returns (status: Option<int>)
      requires Valid() && 0 <= |received| <= (if contentLength < 0 then 0 else contentLength)
      modifies this
      ensures Valid() && batches == old(batches) && fates == old(fates)
      ensures status == Some(202) && enqueueOk ==>
                var padding := Zeros(if contentLength < |received| then 0 else contentLength - |received|);
                accepted == old(accepted) + [received + padding]
      ensures status != Some(202) || !enqueueOk ==> accepted == old(accepted) && q == old(q)
      ensures status == Some(202) <==>
                contentLength >= 0 && (err == EndOfBody || (err == NoReadError && received != []))
      ensures status == None <==> contentLength < 0
    {
      if contentLength < 0 {
        return None;
      }
      var body := received + Zeros(contentLength - |received|);
      var n := |received|;
      if n == 0 || err != NoReadError {
        if err != EndOfBody {
          return Some(400);
        }
      }
      var _ := Send(body, enqueueOk);
      status := Some(202);
    }
  }

  datatype ReadError = NoReadError | EndOfBody | OtherReadError

  function Zeros(n: nat): (z: seq<byte>)
    ensures |z| == n && forall c :: c in z ==> c == 0
  {
    if n == 0 then [] else [0] + Zeros(n - 1)
  }

  lemma AcceptMore(base: seq<Payload>, turns: seq<Turn>, k: nat)
    ensures base + Arrived(turns, 0, k) + TurnAt(turns, k).arrivals == base + Arrived(turns, 0, k + 1)
  {
    ArrivedSnoc(turns, 0, k);
    assert base + Arrived(turns, 0, k) + TurnAt(turns, k).arrivals
           == base + (Arrived(turns, 0, k) + TurnAt(turns, k).arrivals);
  }

  // Items taken before the rest of the loop.
  function Ahead(taken: seq<Payload>, g: Gathered): Gathered {
    g.(taken := taken + g.taken)
  }

  // One turn of the loop, after items that were taken before.
  lemma OneTurn<E>(decode: Payload -> Option<E>, taken: seq<Payload>, q: seq<Payload>, turns: seq<Turn>, k: nat,
                   size: nat)
    requires decode([]).None? && size < MAX_BATCH_SIZE
    ensures var offered := q + TurnAt(turns, k).arrivals;
            Ahead(taken, Gather(decode, q, turns, k, size))
            == if TurnAt(turns, k).fails then Gathered(taken, offered, k + 1, DequeueFailed)
               else if offered == [] then Gathered(taken, [], k + 1, Exhausted)
               else if size + |offered[0]| > MAX_BATCH_SIZE then
                 Gathered(taken + [offered[0]], offered[1..], k + 1, Overflow)
               else if decode(offered[0]).None? then Gathered(taken + [offered[0]], offered[1..], k + 1, Undecodable)
               else Ahead(taken + [offered[0]], Gather(decode, offered[1..], turns, k + 1, size + |offered[0]|))
  {
    assert taken + [] == taken;
    var offered := q + TurnAt(turns, k).arrivals;
    if offered != [] && size + |offered[0]| <= MAX_BATCH_SIZE && decode(offered[0]).Some? {
      var g := Gather(decode, offered[1..], turns, k + 1, size + |offered[0]|);
      assert taken + ([offered[0]] + g.taken) == taken + [offered[0]] + g.taken;
    }
  }

  // With nobody enqueuing, a drain takes at least one item.
  lemma GatherShrinks<E>(decode: Payload -> Option<E>, q: seq<Payload>)
    requires decode([]).None? && q != []
    ensures var g := Gather(decode, q, [], 0, 0);
            |g.queue| < |q| && Arrived([], 0, g.tries) == []
  {
    var g := Gather(decode, q, [], 0, 0);
    GatherConserves(decode, q, [], 0, 0);
    NoArrivals(0, g.tries);
    assert q + [] == q;
    assert TurnAt([], 0).arrivals == [];
    assert |g.taken| > 0;
  }

  lemma {:induction false} NoArrivals(k: nat, m: nat)
    ensures Arrived([], k, m) == []
    decreases m - k
  {
    if k < m {
      NoArrivals(k + 1, m);
    }
  }

  // A run of items after those that have a fate gets the same one.
  lemma AddFates<E>(decode: Payload -> Option<E>, accepted: seq<Payload>, fates: seq<Fate>, n: nat, f: Fate,
                    events: seq<E>)
    requires Decodes(decode, accepted, fates) && |fates| + n <= |accepted|
    requires f == Sent ==> |events| == n && forall i :: 0 <= i < n ==> decode(accepted[|fates| + i]) == Some(events[i])
    ensures Decodes(decode, accepted, fates + Repeat(f, n))
    ensures SentEvents(decode, accepted, fates + Repeat(f, n))
         == SentEvents(decode, accepted, fates) + (if f == Sent then events else [])
  {
    if f == Sent {
      AddSent(decode, accepted, fates, events);
    } else {
      AddLost(decode, accepted, fates, n, f);
      assert SentEvents(decode, accepted, fates) + [] == SentEvents(decode, accepted, fates);
    }
  }

  lemma {:induction false} AddSent<E>(decode: Payload -> Option<E>, accepted: seq<Payload>, fates: seq<Fate>,
                                      events: seq<E>)
    requires Decodes(decode, accepted, fates) && |fates| + |events| <= |accepted|
    requires forall i :: 0 <= i < |events| ==> decode(accepted[|fates| + i]) == Some(events[i])
    ensures Decodes(decode, accepted, fates + Repeat(Sent, |events|))
    ensures SentEvents(decode, accepted, fates + Repeat(Sent, |events|))
         == SentEvents(decode, accepted, fates) + events
  {
    if events == [] {
      assert fates + Repeat(Sent, 0) == fates;
      assert SentEvents(decode, accepted, fates) + [] == SentEvents(decode, accepted, fates);
    } else {
      var n := |events| - 1;
      AddSent(decode, accepted, fates, events[..n]);
      var i := |fates| + n;
      assert decode(accepted[i]) == Some(events[n]) && |fates + Repeat(Sent, n)| == i;
      AddFate(decode, accepted, fates + Repeat(Sent, n), Sent);
      RepeatSnoc(fates, Sent, n);
      LastOnTop(SentEvents(decode, accepted, fates), events);
    }
  }

  lemma LastOnTop<T>(base: seq<T>, s: seq<T>)
    requires s != []
    ensures base + s[..|s| - 1] + [s[|s| - 1]] == base + s
  {
  }

  lemma {:induction false} AddLost<E>(decode: Payload -> Option<E>, accepted: seq<Payload>, fates: seq<Fate>, n: nat,
                                      f: Fate)
    requires Decodes(decode, accepted, fates) && |fates| + n <= |accepted| && f != Sent
    ensures Decodes(decode, accepted, fates + Repeat(f, n))
    ensures SentEvents(decode, accepted, fates + Repeat(f, n)) == SentEvents(decode, accepted, fates)
  {
    if n == 0 {
      assert fates + Repeat(f, 0) == fates;
    } else {
      AddLost(decode, accepted, fates, n - 1, f);
      AddFate(decode, accepted, fates + Repeat(f, n - 1), f);
      RepeatSnoc(fates, f, n - 1);
    }
  }

  lemma RepeatSnoc(fates: seq<Fate>, f: Fate, n: nat)
    ensures fates + Repeat(f, n) + [f] == fates + Repeat(f, n + 1)
  {
  }

  lemma AddFate<E>(decode: Payload -> Option<E>, accepted: seq<Payload>, fates: seq<Fate>, f: Fate)
    requires Decodes(decode, accepted, fates) && |fates| < |accepted|
    requires f == Sent ==> decode(accepted[|fates|]).Some?
    ensures Decodes(decode, accepted, fates + [f])
    ensures SentEvents(decode, accepted, fates + [f])
         == if f == Sent then SentEvents(decode, accepted, fates) + [decode(accepted[|fates|]).value]
            else SentEvents(decode, accepted, fates)
  {
    assert (fates + [f])[..|fates|] == fates;
  }

  lemma IsDecodedSnoc<E>(decode: Payload -> Option<E>, ps: seq<Payload>, events: seq<E>, p: Payload)
    requires IsDecoded(decode, ps, events) && decode(p).Some?
    ensures IsDecoded(decode, ps + [p], events + [decode(p).value])
  {
  }

  // What a drain does to the account of all items.
  lemma DrainFates<E>(decode: Payload -> Option<E>, accepted: seq<Payload>, fates: seq<Fate>, g: Gathered,
                      sendOk: bool, events: seq<E>)
    requires Decodes(decode, accepted, fates) && accepted[|fates|..] == g.taken + g.queue
    requires g.stop.Overflow? || g.stop.Undecodable? ==> g.taken != []
    requires !g.stop.Undecodable? ==> IsDecoded(decode, Fitting(g), events)
    ensures var fates' := fates + FatesOf(g, sendOk);
            && Decodes(decode, accepted, fates') && accepted[|fates'|..] == g.queue
            && SentEvents(decode, accepted, fates')
               == SentEvents(decode, accepted, fates) + (if sendOk && !g.stop.Undecodable? then events else [])
  {
    var n := |fates|;
    assert |accepted| == n + |g.taken| + |g.queue|;
    assert accepted[n + |g.taken|..] == accepted[n..][|g.taken|..] == g.queue;
    if g.stop.Undecodable? {
      AddFates(decode, accepted, fates, |g.taken|, LostToDecoding, []);
    } else {
      BatchFates(decode, accepted, fates, g, if sendOk then Sent else LostInSending, events);
    }
  }

  lemma BatchFates<E>(decode: Payload -> Option<E>, accepted: seq<Payload>, fates: seq<Fate>, g: Gathered, f: Fate,
                      events: seq<E>)
    requires Decodes(decode, accepted, fates) && accepted[|fates|..] == g.taken + g.queue
    requires !g.stop.Undecodable? && (g.stop.Overflow? ==> g.taken != []) && IsDecoded(decode, Fitting(g), events)
    ensures var all := fates + (Repeat(f, |Fitting(g)|) + (if g.stop.Overflow? then [Overflowed] else []));
            && Decodes(decode, accepted, all)
            && SentEvents(decode, accepted, all)
               == SentEvents(decode, accepted, fates) + (if f == Sent then events else [])
  {
    var n, fit := |fates|, Fitting(g);
    assert forall i :: 0 <= i < |fit| ==> accepted[n + i] == accepted[n..][i] == fit[i];
    AddFates(decode, accepted, fates, |fit|, f, events);
    assert |accepted| == n + |g.taken| + |g.queue|;
    AddOverflowed(decode, accepted, fates + Repeat(f, |fit|), g);
    Regroup(fates, Repeat(f, |fit|), if g.stop.Overflow? then [Overflowed] else []);
  }

  // The item that went over the limit, if there is one.
  lemma AddOverflowed<E>(decode: Payload -> Option<E>, accepted: seq<Payload>, fates: seq<Fate>, g: Gathered)
    requires Decodes(decode, accepted, fates) && (g.stop.Overflow? ==> |fates| < |accepted|)
    ensures var all := fates + (if g.stop.Overflow? then [Overflowed] else []);
            Decodes(decode, accepted, all) && SentEvents(decode, accepted, all) == SentEvents(decode, accepted, fates)
  {
    if g.stop.Overflow? {
      AddFate(decode, accepted, fates, Overflowed);
    } else {
      assert fates + [] == fates;
    }
  }

  ghost predicate IsDecoded<E>(decode: Payload -> Option<E>, ps: seq<Payload>, events: seq<E>) {
    |events| == |ps| && forall i :: 0 <= i < |ps| ==> decode(ps[i]) == Some(events[i])
  }
}
