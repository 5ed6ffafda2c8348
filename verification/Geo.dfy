// resolver/types.go and the geo table: rows, the comparison of locations, and the
// query for the most recent row of an address.
module Geo {
  import opened Wrappers

  const DAY := 24 * 3600 * 1_000_000_000 // in nanoseconds

  // Every column of geo but id and last_update.
  datatype Place = Place(ip: string, countryCode: string, regionCode: string, regionName: string, city: string,
                         timeZone: string, latitude: real, longitude: real, metroCode: nat)

  datatype Row = Row(id: int, place: Place, lastUpdate: int)

  predicate Equals(g: Place, another: Place) {
    g.countryCode == another.countryCode &&
    g.city == another.city &&
    g.latitude == another.latitude &&
    g.longitude == another.longitude &&
    g.metroCode == another.metroCode &&
    g.regionName == another.regionName &&
    g.regionCode == another.regionCode &&
    g.timeZone == another.timeZone &&
    g.ip == another.ip
  }

  // Row i is the one of its address with the greatest last_update; of equal ones,
  // between which SQL does not decide, the one inserted last.
  predicate IsNewest(rows: seq<Row>, ip: string, i: nat) {
    && i < |rows| && rows[i].place.ip == ip
    && forall j :: 0 <= j < |rows| && rows[j].place.ip == ip ==>
         rows[j].lastUpdate < rows[i].lastUpdate || (rows[j].lastUpdate == rows[i].lastUpdate && j <= i)
  }

  // SELECT ... WHERE ip = ? ORDER BY last_update DESC LIMIT 1
  function Newest(rows: seq<Row>, ip: string): (r: Option<Row>)
    ensures r.Some? ==> r.value in rows && r.value.place.ip == ip
    ensures r.Some? ==>
              forall i :: 0 <= i < |rows| && rows[i].place.ip == ip ==> rows[i].lastUpdate <= r.value.lastUpdate
    ensures r.None? ==> forall i :: 0 <= i < |rows| ==> rows[i].place.ip != ip
  {
    if exists i | 0 <= i < |rows| :: rows[i].place.ip == ip then
      NewestExists(rows, ip);
      var i: nat :| IsNewest(rows, ip, i);
      Some(rows[i])
    else None
  }

  lemma {:induction false} NewestExists(rows: seq<Row>, ip: string)
    requires exists i :: 0 <= i < |rows| && rows[i].place.ip == ip
    ensures exists i: nat :: IsNewest(rows, ip, i)
  {
    var n := |rows| - 1;
    if exists i :: 0 <= i < n && rows[i].place.ip == ip {
      var i :| 0 <= i < n && rows[i].place.ip == ip;
      assert rows[..n][i].place.ip == ip;
      NewestExists(rows[..n], ip);
      var m: nat :| IsNewest(rows[..n], ip, m);
      if rows[n].place.ip == ip && rows[m].lastUpdate <= rows[n].lastUpdate {
        assert forall j :: 0 <= j < n ==> rows[j] == rows[..n][j];
        assert IsNewest(rows, ip, n);
      } else {
        assert forall j :: 0 <= j < n ==> rows[j] == rows[..n][j];
        assert IsNewest(rows, ip, m);
      }
    } else {
      assert IsNewest(rows, ip, n);
    }
  }

  // UPDATE geo SET last_update = at WHERE id = ?
  function Touch(rows: seq<Row>, id: int, at: int): (r: seq<Row>)
    ensures |r| == |rows|
    ensures forall i :: 0 <= i < |rows| ==> r[i] == if rows[i].id == id then rows[i].(lastUpdate := at) else rows[i]
  {
    seq(|rows|, i requires 0 <= i < |rows| => if rows[i].id == id then rows[i].(lastUpdate := at) else rows[i])
  }

  predicate HasId(rows: seq<Row>, id: int) {
    exists i :: 0 <= i < |rows| && rows[i].id == id
  }

  // The row an id refers to, which the primary key makes unique.
  predicate IsRow(rows: seq<Row>, id: int, row: Row) {
    row in rows && row.id == id && forall i :: 0 <= i < |rows| && rows[i].id == id ==> rows[i] == row
  }

  // ---- A compressed history of locations ----

  predicate IdsIncrease(rows: seq<Row>) {
    && (forall i :: 0 <= i < |rows| ==> 0 < rows[i].id)
    && (forall i, j :: 0 <= i < j < |rows| ==> rows[i].id < rows[j].id)
  }

  // Rows of one address, in id order, are more than 28 days apart.
  predicate Spaced(rows: seq<Row>) {
    forall i, j :: 0 <= i < j < |rows| && rows[i].place.ip == rows[j].place.ip
      ==> rows[i].lastUpdate + 28 * DAY < rows[j].lastUpdate
  }

  // No other row of the address of row i stands between i and j.
  predicate Adjacent(rows: seq<Row>, i: nat, j: nat)
    requires i < j < |rows|
  {
    rows[i].place.ip == rows[j].place.ip
    && forall k :: i < k < j ==> rows[k].place.ip != rows[i].place.ip
  }

  predicate Compressed(rows: seq<Row>) {
    forall i, j :: 0 <= i < j < |rows| && Adjacent(rows, i, j) ==> !Equals(rows[i].place, rows[j].place)
  }

  predicate History(rows: seq<Row>, clock: int) {
    IdsIncrease(rows) && Spaced(rows) && Compressed(rows)
    && forall i :: 0 <= i < |rows| ==> rows[i].lastUpdate <= clock
  }

  // Later states of the table: no row goes away or changes but for its last_update.
  predicate Extends(before: seq<Row>, after: seq<Row>) {
    && |before| <= |after|
    && forall i :: 0 <= i < |before| ==>
         && after[i].id == before[i].id && after[i].place == before[i].place
         && before[i].lastUpdate <= after[i].lastUpdate
  }

  // equals compares every column but id and last_update, so rows that it tells
  // apart differ in what the event views show.
  lemma EqualsIsEquality(g: Place, another: Place)
    ensures Equals(g, another) <==> g == another
  {
  }

  // In a history the query has one answer: the last row of the address, and every
  // other row of the address is more than 28 days older.
  lemma NewestIsLast(rows: seq<Row>, ip: string, clock: int, m: nat)
    requires History(rows, clock) && m < |rows| && rows[m].place.ip == ip
    ensures Newest(rows, ip).Some?
    ensures Newest(rows, ip) == Some(rows[m]) <==> forall k :: m < k < |rows| ==> rows[k].place.ip != ip
    ensures Newest(rows, ip) != Some(rows[m]) ==> rows[m].lastUpdate + 28 * DAY < Newest(rows, ip).value.lastUpdate
  {
    var r := Newest(rows, ip).value;
    var i :| 0 <= i < |rows| && rows[i] == r;
    assert rows[m] in rows;
  }

  // The newest row of the address is over 28 days older and at another location.
  predicate MayFollow(rows: seq<Row>, row: Row) {
    Newest(rows, row.place.ip).Some? ==>
      var last := Newest(rows, row.place.ip).value;
      last.lastUpdate + 28 * DAY < row.lastUpdate && !Equals(last.place, row.place)
  }

  // Exactly the rows that may follow keep the history when they are inserted.
  lemma HistoryInsertIff(rows: seq<Row>, clock: int, row: Row, later: int)
    requires History(rows, clock) && row.id > 0 && clock <= later && row.lastUpdate <= later
    requires forall i :: 0 <= i < |rows| ==> rows[i].id < row.id
    ensures History(rows + [row], later) <==> MayFollow(rows, row)
  {
    var n, after, ip := |rows|, rows + [row], row.place.ip;
    if MayFollow(rows, row) {
      HistoryInsert(rows, clock, row);
    } else {
      var m :| 0 <= m < n && rows[m] == Newest(rows, ip).value;
      NewestIsLast(rows, ip, clock, m);
      assert after[m] == rows[m] && after[n] == row;
      assert Adjacent(after, m, n) by {
        assert forall k :: m < k < n ==> after[k] == rows[k];
      }
    }
  }

  lemma HistoryInsert(rows: seq<Row>, clock: int, row: Row)
    requires History(rows, clock) && row.id > 0 && MayFollow(rows, row)
    requires forall i :: 0 <= i < |rows| ==> rows[i].id < row.id
    ensures History(rows + [row], if clock < row.lastUpdate then row.lastUpdate else clock)
  {
    var n, after, ip := |rows|, rows + [row], row.place.ip;
    forall i | 0 <= i < n && rows[i].place.ip == ip
      ensures rows[i].lastUpdate + 28 * DAY < row.lastUpdate
    {
      NewestIsLast(rows, ip, clock, i);
    }
    forall i | 0 <= i < n && Adjacent(after, i, n)
      ensures !Equals(rows[i].place, row.place)
    {
      assert forall k :: i < k < n ==> after[k] == rows[k];
      NewestIsLast(rows, ip, clock, i);
    }
    CompressedSnoc(rows, row);
  }

  lemma CompressedSnoc(rows: seq<Row>, row: Row)
    requires Compressed(rows)
    requires forall i :: 0 <= i < |rows| && Adjacent(rows + [row], i, |rows|) ==> !Equals(rows[i].place, row.place)
    ensures Compressed(rows + [row])
  {
    var after := rows + [row];
    forall i, j | 0 <= i < j < |rows| && Adjacent(after, i, j)
      ensures !Equals(rows[i].place, rows[j].place)
    {
      assert forall k :: i < k < j ==> after[k] == rows[k];
      assert Adjacent(rows, i, j);
    }
  }

  lemma HistoryTouch(rows: seq<Row>, clock: int, row: Row, at: int)
    requires History(rows, clock) && Newest(rows, row.place.ip) == Some(row) && clock <= at
    ensures History(Touch(rows, row.id, at), at) && Extends(rows, Touch(rows, row.id, at))
    ensures Newest(Touch(rows, row.id, at), row.place.ip) == Some(row.(lastUpdate := at))
  {
    var m :| 0 <= m < |rows| && rows[m] == row;
    NewestIsLast(rows, row.place.ip, clock, m);
    RefreshLast(rows, clock, m, at);
    TouchIsUpdate(rows, m, at);
  }

  // Touching a row keeps the history exactly when it is the newest of its address.
  lemma HistoryTouchIff(rows: seq<Row>, clock: int, row: Row, at: int)
    requires History(rows, clock) && row in rows && clock <= at
    ensures History(Touch(rows, row.id, at), at) <==> Newest(rows, row.place.ip) == Some(row)
  {
    if Newest(rows, row.place.ip) == Some(row) {
      HistoryTouch(rows, clock, row, at);
    } else {
      var m :| 0 <= m < |rows| && rows[m] == row;
      NewestIsLast(rows, row.place.ip, clock, m);
      var k :| m < k < |rows| && rows[k].place.ip == row.place.ip;
      var after := Touch(rows, row.id, at);
      assert after[m].lastUpdate == at && after[k].lastUpdate <= at && after[m].place.ip == after[k].place.ip;
    }
  }

  // Rows of other addresses do not matter to the query.
  lemma NewestOfSame(before: seq<Row>, after: seq<Row>, ip: string)
    requires |before| <= |after|
    requires forall i :: 0 <= i < |before| ==>
               after[i] == before[i] || (after[i].place.ip != ip && before[i].place.ip != ip)
    requires forall i :: |before| <= i < |after| ==> after[i].place.ip != ip
    ensures Newest(after, ip) == Newest(before, ip)
  {
    if m :| 0 <= m < |before| && before[m].place.ip == ip {
      assert after[m].place.ip == ip;
      NewestExists(before, ip);
      var i: nat :| IsNewest(before, ip, i);
      assert after[i] == before[i];
      assert IsNewest(after, ip, i);
      NewestIs(before, ip, i);
      NewestIs(after, ip, i);
    }
  }

  lemma NewestIs(rows: seq<Row>, ip: string, i: nat)
    requires IsNewest(rows, ip, i)
    ensures Newest(rows, ip) == Some(rows[i])
  {
    NewestExists(rows, ip);
  }

  lemma TouchIsUpdate(rows: seq<Row>, m: nat, at: int)
    requires IdsIncrease(rows) && m < |rows|
    ensures Touch(rows, rows[m].id, at) == rows[m := rows[m].(lastUpdate := at)]
  {
  }

  lemma RefreshLast(rows: seq<Row>, clock: int, m: nat, at: int)
    requires History(rows, clock) && m < |rows| && clock <= at
    requires forall k :: m < k < |rows| ==> rows[k].place.ip != rows[m].place.ip
    ensures var after := rows[m := rows[m].(lastUpdate := at)];
            && History(after, at) && Extends(rows, after)
            && Newest(after, rows[m].place.ip) == Some(after[m])
  {
    var after := rows[m := rows[m].(lastUpdate := at)];
    assert IdsIncrease(after) && Spaced(after) && Extends(rows, after);
    RefreshCompressed(rows, m, at);
    NewestIsLast(after, rows[m].place.ip, at, m);
  }

  lemma RefreshCompressed(rows: seq<Row>, m: nat, at: int)
    requires Compressed(rows) && m < |rows|
    ensures Compressed(rows[m := rows[m].(lastUpdate := at)])
  {
    var after := rows[m := rows[m].(lastUpdate := at)];
    forall i, j | 0 <= i < j < |after| && Adjacent(after, i, j)
      ensures !Equals(after[i].place, after[j].place)
    {
      assert forall k :: i < k < j ==> after[k].place == rows[k].place;
      assert Adjacent(rows, i, j);
    }
  }

  lemma ExtendsTransitive(a: seq<Row>, b: seq<Row>, c: seq<Row>)
    requires Extends(a, b) && Extends(b, c)
    ensures Extends(a, c)
  {
  }

  // An id keeps naming the same location.
  lemma ExtendsKeepsPlace(before: seq<Row>, after: seq<Row>, id: int, row: Row)
    requires Extends(before, after) && IdsIncrease(after) && row in before && row.id == id
    ensures exists r :: IsRow(after, id, r) && r.place == row.place && row.lastUpdate <= r.lastUpdate
  {
    var i :| 0 <= i < |before| && before[i] == row;
    assert IsRow(after, id, after[i]);
  }
}
