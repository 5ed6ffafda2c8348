// api/event.go: event times travel as milliseconds since 1970 in decimal.
module EventTime {
  import opened Decimal
  import opened Wrappers

  const MILLI := 1_000_000 // nanoseconds

  // Integer division and remainder of Go: toward zero.
  function Quot(a: int, b: int): int
    requires b > 0
  {
    if a >= 0 then a / b else -(-a / b)
  }

  function Rem(a: int, b: int): int
    requires b > 0
  {
    a - Quot(a, b) * b
  }

  // The value an int64 computation leaves.
  function Wrap64(n: int): int {
    (n - INT64_MIN) % 0x1_0000_0000_0000_0000 + INT64_MIN
  }

  predicate InInt64(n: int) {
    INT64_MIN <= n <= INT64_MAX
  }

  // A time.Time: whole seconds since 1970 and the nanoseconds after them.
  datatype Instant = Instant(sec: int, nsec: nat) {
    predicate Valid() {
      nsec < 1_000_000_000
    }

    function Nanos(): int {
      sec * 1_000_000_000 + nsec
    }
  }

  // time.Unix(sec, nsec), which carries nanoseconds outside [0, 10^9) over.
  function Unix(sec: int, nsec: int): (t: Instant)
    ensures t.Valid() && t.Nanos() == sec * 1_000_000_000 + nsec
  {
    if 0 <= nsec < 1_000_000_000 then Instant(sec, nsec)
    else
      var n := Quot(nsec, 1_000_000_000);
      var r := nsec - n * 1_000_000_000;
      if r < 0 then Instant(sec + n - 1, r + 1_000_000_000) else Instant(sec + n, r)
  }

  function UnixNano(t: Instant): int {
    Wrap64(t.Nanos())
  }

  // MarshalJSON
  function Marshal(t: Instant): string {
    Print(Quot(UnixNano(t), MILLI))
  }

  function FromMillis(ts: int): Instant {
    Unix(Quot(ts, 1000), Rem(ts, 1000) * MILLI)
  }

  class EventTime {
    var t: Instant

    constructor (t: Instant)
      ensures this.t == t
    {
      this.t := t;
    }

    method MarshalJSON() returns (data: string)
      ensures data == Marshal(t)
    {
      var ts := Quot(UnixNano(t), MILLI);
      data := Print(ts);
    }

    method UnmarshalJSON(data: string) returns (ok: bool)
      modifies this
      ensures ok <==> ParseInt(data).Some?
      ensures t == if ok then FromMillis(ParseInt(data).value) else old(t)
    {
      var ts := ParseInt(data);
      ok := ts.Some?;
      if ok {
        t := Unix(Quot(ts.value, 1000), Rem(ts.value, 1000) * MILLI);
      }
    }
  }

  // ---- Round trips ----

  lemma FromMillisNanos(ts: int)
    ensures FromMillis(ts).Valid() && FromMillis(ts).Nanos() == ts * 1_000_000
  {
    var q := Quot(ts, 1000);
    assert Rem(ts, 1000) == ts - q * 1000;
  }

  lemma WrapInRange(n: int)
    ensures InInt64(Wrap64(n)) && (Wrap64(n) == n <==> InInt64(n))
  {
  }

  // Nanoseconds beyond 64 bits wrap around.
  lemma UnixNanoIs(t: Instant, n: int)
    requires -9223372036854775808 <= n <= 9223372036854775807 && (t.Nanos() - n) % 18446744073709551616 == 0
    ensures UnixNano(t) == n
  {
    var m := t.Nanos();
    var q := (m - n) / 18446744073709551616;
    assert m - INT64_MIN == (n - INT64_MIN) + q * 18446744073709551616;
  }

  lemma QuotMilli(n: int)
    ensures var q := Quot(n, MILLI);
            if n >= 0 then 0 <= q && q * 1_000_000 <= n < q * 1_000_000 + 1_000_000
            else q <= 0 && q * 1_000_000 - 1_000_000 < n <= q * 1_000_000
  {
  }

  lemma QuotUnique(n: int, q: int)
    requires q * 1_000_000 == n
    ensures Quot(n, MILLI) == q
  {
    QuotMilli(n);
  }

  lemma MarshalParses(t: Instant)
    requires InInt64(t.Nanos())
    ensures ParseInt(Marshal(t)) == Some(Quot(t.Nanos(), MILLI))
  {
    WrapInRange(t.Nanos());
    QuotMilli(t.Nanos());
    ParsePrint(Quot(t.Nanos(), MILLI));
  }

  // A number of milliseconds survives decoding and encoding, decimal digits and
  // all, exactly when its nanoseconds fit in 64 bits.
  lemma MillisRoundTrip(ts: int)
    requires InInt64(ts)
    ensures ParseInt(Print(ts)) == Some(ts)
    ensures Marshal(FromMillis(ts)) == Print(ts) <==> InInt64(ts * MILLI)
  {
    var n := ts * 1_000_000;
    FromMillisNanos(ts);
    ParsePrint(ts);
    WrapInRange(n);
    if InInt64(n) {
      QuotUnique(n, ts);
    } else {
      var m := Quot(Wrap64(n), MILLI);
      QuotMilli(Wrap64(n));
      ParsePrint(m);
    }
  }

  // An instant loses less than a millisecond, toward 1970.
  lemma InstantRoundTrip(t: Instant)
    requires InInt64(t.Nanos())
    ensures ParseInt(Marshal(t)).Some?
    ensures var (n, back) := (t.Nanos(), FromMillis(ParseInt(Marshal(t)).value));
            && back.Valid() && back.Nanos() == Quot(n, MILLI) * 1_000_000
            && (if n >= 0 then 0 <= back.Nanos() <= n < back.Nanos() + MILLI
                else back.Nanos() - MILLI < n <= back.Nanos() <= 0)
  {
    MarshalParses(t);
    FromMillisNanos(Quot(t.Nanos(), MILLI));
    QuotMilli(t.Nanos());
  }

  lemma QuotMonotone(m: int, n: int)
    requires m <= n
    ensures Quot(m, MILLI) <= Quot(n, MILLI)
  {
    QuotMilli(m);
    QuotMilli(n);
  }

  // And the order of instants is kept.
  lemma RoundTripMonotone(t: Instant, u: Instant)
    requires InInt64(t.Nanos()) && InInt64(u.Nanos()) && t.Nanos() <= u.Nanos()
    ensures ParseInt(Marshal(t)).Some? && ParseInt(Marshal(u)).Some?
    ensures FromMillis(ParseInt(Marshal(t)).value).Nanos() <= FromMillis(ParseInt(Marshal(u)).value).Nanos()
  {
    InstantRoundTrip(t);
    InstantRoundTrip(u);
    QuotMonotone(t.Nanos(), u.Nanos());
  }

  // What is sent: the numeral of the whole milliseconds, rounded toward 1970, behind
  // a minus sign for instants more than a millisecond before 1970.
  lemma MarshalIs(t: Instant, numeral: string)
    requires InInt64(t.Nanos()) && IsNumeral(numeral)
    ensures Value(numeral) * 1_000_000 <= t.Nanos() < Value(numeral) * 1_000_000 + 1_000_000 ==> Marshal(t) == numeral
    ensures Value(numeral) > 0 && Value(numeral) * 1_000_000 <= -t.Nanos() < Value(numeral) * 1_000_000 + 1_000_000 ==>
              Marshal(t) == "-" + numeral
    ensures -1_000_000 < t.Nanos() < 0 ==> Marshal(t) == "0"
  {
    WrapInRange(t.Nanos());
    QuotMilli(t.Nanos());
    PrintIs(numeral);
    PrintIs("0");
    assert Value("0") == 0;
  }
}
