// potdb/db.go, replaceParams: from the '?' placeholders of MySQL to the numbered
// ones of PostgreSQL.
module Params {
  import opened Decimal
  import opened Wrappers

  // The k-th placeholder from the left becomes "$k", counting from pos.
  function Numbered(sql: string, pos: nat): string {
    if sql == "" then ""
    else if sql[0] == '?' then "$" + Dec(pos) + Numbered(sql[1..], pos + 1)
    else [sql[0]] + Numbered(sql[1..], pos)
  }

  function Marks(sql: string): nat {
    if sql == "" then 0 else (if sql[0] == '?' then 1 else 0) + Marks(sql[1..])
  }

  // strings.Replace(s, "?", by, 1)
  function ReplaceFirst(s: string, r: string): string {
    if s == "" then "" else if s[0] == '?' then r + s[1..] else [s[0]] + ReplaceFirst(s[1..], r)
  }

  lemma {:induction false} MarksAppend(s: string, t: string)
    ensures Marks(s + t) == Marks(s) + Marks(t)
  {
    if s == "" {
      assert s + t == t;
    } else {
      assert (s + t)[1..] == s[1..] + t;
      MarksAppend(s[1..], t);
    }
  }

  lemma {:induction false} NoMarks(s: string)
    ensures Marks(s) == 0 <==> '?' !in s
  {
    if s != "" {
      assert s == [s[0]] + s[1..];
      NoMarks(s[1..]);
    }
  }

  // Text without a placeholder is passed over.
  lemma {:induction false} ReplaceFirstAfter(done: string, rest: string, r: string)
    requires '?' !in done
    ensures ReplaceFirst(done + rest, r) == done + ReplaceFirst(rest, r)
  {
    if done == "" {
      assert done + rest == rest;
      assert done + ReplaceFirst(rest, r) == ReplaceFirst(rest, r);
    } else {
      assert (done + rest)[1..] == done[1..] + rest;
      ReplaceFirstAfter(done[1..], rest, r);
    }
  }

  // Skip to the next placeholder: what is before it is final.
  lemma {:induction false} NextMark(rest: string, pos: nat) returns (i: nat)
    requires '?' in rest
    ensures i < |rest| && rest[i] == '?' && '?' !in rest[..i]
    ensures Numbered(rest, pos) == rest[..i] + ("$" + Dec(pos)) + Numbered(rest[i + 1..], pos + 1)
    ensures ReplaceFirst(rest, "$" + Dec(pos)) == rest[..i] + ("$" + Dec(pos)) + rest[i + 1..]
  {
    if rest[0] == '?' {
      i := 0;
      assert rest[..0] + ("$" + Dec(pos)) == "$" + Dec(pos);
    } else {
      var head, tail := [rest[0]], rest[1..];
      assert rest == head + tail;
      var j := NextMark(tail, pos);
      i := j + 1;
      assert rest[..i] == head + tail[..j] && rest[i + 1..] == tail[j + 1..];
      InFront(head, tail[..j], "$" + Dec(pos), tail[j + 1..]);
      InFront(head, tail[..j], "$" + Dec(pos), Numbered(tail[j + 1..], pos + 1));
    }
  }

  lemma InFront(head: string, a: string, b: string, c: string)
    ensures head + (a + b + c) == (head + a) + b + c
  {
  }

  // Each pass takes the first placeholder of the text as it is by then, and so one
  // placeholder fewer is left; the outcome is that of one pass from the left.
  method ReplaceParams(mysql: bool, query: string) returns (sql: string)
    ensures sql == if mysql then query else Numbered(query, 1)
  {
    sql := query;
    if mysql {
      return;
    }
    var pos := 1;
    ghost var done, rest := "", query;
    NoMarks(sql);
    while '?' in sql
      invariant sql == done + rest && '?' !in done
      invariant Numbered(query, 1) == done + Numbered(rest, pos)
      decreases Marks(sql)
    {
      done, rest := Pass(done, rest, pos);
      sql := ReplaceFirst(sql, "$" + Dec(pos));
      pos := pos + 1;
    }
    NoMarks(rest);
    NumberedNoMarks(rest, pos);
  }

  // One pass: what is final, and what is still to do.
  lemma Pass(done: string, rest: string, pos: nat) returns (done': string, rest': string)
    requires '?' !in done && '?' in rest
    ensures '?' !in done' && ReplaceFirst(done + rest, "$" + Dec(pos)) == done' + rest'
    ensures done + Numbered(rest, pos) == done' + Numbered(rest', pos + 1)
    ensures Marks(done' + rest') < Marks(done + rest)
  {
    var i := NextMark(rest, pos);
    ReplaceFirstAfter(done, rest, "$" + Dec(pos));
    OneFewer(done, rest, i, pos);
    assert forall c :: c in Dec(pos) ==> IsDigit(c);
    var skipped := rest[..i] + ("$" + Dec(pos));
    done', rest' := done + skipped, rest[i + 1..];
    Regroup(done, skipped, rest');
    Regroup(done, skipped, Numbered(rest', pos + 1));
  }

  lemma OneFewer(done: string, rest: string, i: nat, pos: nat)
    requires i < |rest| && rest[i] == '?'
    ensures Marks(done + (rest[..i] + ("$" + Dec(pos)) + rest[i + 1..])) < Marks(done + rest)
  {
    var number := "$" + Dec(pos);
    MarksAppend(done, rest[..i] + number + rest[i + 1..]);
    MarksAppend(rest[..i] + number, rest[i + 1..]);
    MarksAppend(rest[..i], number);
    assert forall c :: c in Dec(pos) ==> IsDigit(c);
    NoMarks(number);
    MarksAppend(done, rest);
    CutAt(rest, i);
    MarksAppend(rest[..i] + "?", rest[i + 1..]);
    MarksAppend(rest[..i], "?");
    assert Marks("?") == 1 + Marks("");
  }

  lemma {:induction false} NumberedNoMarks(s: string, pos: nat)
    ensures '?' !in Numbered(s, pos)
    ensures '?' !in s ==> Numbered(s, pos) == s
  {
    if s != "" {
      assert s == [s[0]] + s[1..];
      NumberedNoMarks(s[1..], if s[0] == '?' then pos + 1 else pos);
      assert forall c :: c in Dec(pos) ==> IsDigit(c);
    }
  }

  // ---- What the numbers are ----

  lemma {:induction false} MarksCount(s: string)
    ensures Marks(s) == multiset(s)['?']
  {
    if s != "" {
      assert s == [s[0]] + s[1..];
      MarksCount(s[1..]);
    }
  }

  lemma {:induction false} NumberedAppend(s: string, t: string, pos: nat)
    ensures Numbered(s + t, pos) == Numbered(s, pos) + Numbered(t, pos + Marks(s))
  {
    if s == "" {
      assert s + t == t;
      assert Numbered(s, pos) + Numbered(t, pos) == Numbered(t, pos);
    } else {
      assert (s + t)[1..] == s[1..] + t && (s + t)[0] == s[0];
      if s[0] == '?' {
        NumberedAppend(s[1..], t, pos + 1);
        Regroup("$" + Dec(pos), Numbered(s[1..], pos + 1), Numbered(t, pos + Marks(s)));
      } else {
        NumberedAppend(s[1..], t, pos);
        Regroup([s[0]], Numbered(s[1..], pos), Numbered(t, pos + Marks(s)));
      }
    }
  }

  // Each placeholder becomes a '$' and the numeral of its place, counted from pos,
  // without leading zeros; what stands before and behind it is treated alike.
  lemma PlaceholderIs(front: string, back: string, pos: nat, numeral: string)
    requires IsNumeral(numeral) && Value(numeral) == pos + multiset(front)['?']
    ensures Numbered(front + ("?" + back), pos)
         == Numbered(front, pos) + ("$" + numeral + Numbered(back, Value(numeral) + 1))
  {
    MarksCount(front);
    NumberedAppend(front, "?" + back, pos);
    NumberedMark(back, Value(numeral));
    NumeralIsDec(numeral);
  }

  // ---- Going back ----

  // Turn the numbered placeholders back, knowing that they count up from pos.
  function Restored(sql: string, pos: nat): string
    decreases |sql|
  {
    if sql == "" then ""
    else if sql[0] == '$' then
      var n := 1 + |Dec(pos)|;
      "?" + (if n <= |sql| then Restored(sql[n..], pos + 1) else "")
    else [sql[0]] + Restored(sql[1..], pos)
  }

  // A query without a '$' of its own is recovered; digits behind a placeholder do
  // no harm, as the count is known.
  lemma {:induction false} RoundTrip(sql: string, pos: nat)
    requires '$' !in sql
    ensures Restored(Numbered(sql, pos), pos) == sql
  {
    if sql != "" {
      assert sql == [sql[0]] + sql[1..];
      var t := Numbered(sql, pos);
      if sql[0] == '?' {
        RoundTrip(sql[1..], pos + 1);
        assert t[1 + |Dec(pos)|..] == Numbered(sql[1..], pos + 1);
      } else {
        RoundTrip(sql[1..], pos);
        assert t[1..] == Numbered(sql[1..], pos);
      }
    }
  }

  // So no two queries without a '$' become the same text.
  lemma {:induction false} InjectiveWithoutDollar(sql: string, other: string, pos: nat)
    requires '$' !in sql && '$' !in other && Numbered(sql, pos) == Numbered(other, pos)
    ensures sql == other
  {
    RoundTrip(sql, pos);
    RoundTrip(other, pos);
  }

  // ---- Which texts have only one query ----

  // No other query becomes the same text.
  ghost predicate OnlyQuery(sql: string) {
    forall other :: Numbered(other, 1) == Numbered(sql, 1) ==> other == sql
  }

  predicate HoldsAt(s: string, i: nat) {
    i + 1 < |s| && s[i] == '$' && s[i + 1] == '1'
  }

  predicate HoldsFirstNumber(s: string) {
    exists i | 0 <= i < |s| :: HoldsAt(s, i)
  }

  // Over all queries the text is ambiguous as soon as there is a placeholder, in
  // the query or possibly in another one: a query is the only one with its text if
  // and only if it has no '?' and "$1" does not occur in it.
  lemma OnlyQueryIff(sql: string)
    ensures OnlyQuery(sql) <==> '?' !in sql && !HoldsFirstNumber(sql)
  {
    if '?' in sql {
      Collision(sql);
    } else if HoldsFirstNumber(sql) {
      var i: nat :| HoldsAt(sql, i);
      PlaceholderFor(sql, i);
    } else {
      NumberedNoMarks(sql, 1);
      forall other | Numbered(other, 1) == Numbered(sql, 1)
        ensures other == sql
      {
        NumberedNoMarks(other, 1);
        if '?' in other {
          FirstNumberIn(other);
        }
      }
    }
  }

  // Every query with a placeholder becomes the same text as that text itself.
  lemma Collision(sql: string)
    requires '?' in sql
    ensures Numbered(sql, 1) != sql && Numbered(Numbered(sql, 1), 1) == Numbered(sql, 1)
  {
    NumberedNoMarks(sql, 1);
    NumberedNoMarks(Numbered(sql, 1), 1);
  }

  // Every query with "$1" and no placeholder becomes the same text as the one with
  // a placeholder there.
  lemma PlaceholderFor(sql: string, i: nat)
    requires HoldsAt(sql, i) && '?' !in sql
    ensures var other := sql[..i] + "?" + sql[i + 2..];
            other != sql && Numbered(other, 1) == Numbered(sql, 1)
  {
    var front, back := sql[..i], sql[i + 2..];
    Regroup(front, "?", back);
    PlaceholderBetween(front, back);
    assert sql == front + ("$1" + back);
    NumberedNoMarks(sql, 1);
    assert (front + ("?" + back))[i] == '?';
  }

  lemma PlaceholderBetween(front: string, back: string)
    requires '?' !in front && '?' !in back
    ensures Numbered(front + ("?" + back), 1) == front + ("$1" + back)
  {
    NumberedAfter(front, "?" + back, 1);
    NumberedMark(back, 1);
    NumberedNoMarks(back, 2);
    assert Dec(1) == "1";
    assert "$" + "1" == "$1";
  }

  lemma NumberedMark(back: string, pos: nat)
    ensures Numbered("?" + back, pos) == "$" + Dec(pos) + Numbered(back, pos + 1)
  {
    assert ("?" + back)[1..] == back;
  }

  lemma FirstNumberIn(sql: string)
    requires '?' in sql
    ensures HoldsFirstNumber(Numbered(sql, 1))
  {
    var i := NextMark(sql, 1);
    assert Dec(1) == "1";
    assert HoldsAt(Numbered(sql, 1), i);
  }

  lemma {:induction false} NumberedAfter(front: string, back: string, pos: nat)
    requires '?' !in front
    ensures Numbered(front + back, pos) == front + Numbered(back, pos)
  {
    if front == "" {
      assert front + back == back;
      assert front + Numbered(back, pos) == Numbered(back, pos);
    } else {
      assert (front + back)[1..] == front[1..] + back;
      NumberedAfter(front[1..], back, pos);
    }
  }
}
