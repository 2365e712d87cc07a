/** Saved locations (internal/realtime/locations.go): each user's ordered list of places, and the copy of
    the first one's label kept in users.location.

    Strings are byte strings; coordinates are reals. New row ids come from the database and are arguments. */
module Locations {
  import opened Common
  import opened Text

  type User = int

  datatype Row = Row(id: int, user: User, name: string, latitude: real, longitude: real, canonical: Option<string>,
                     sort: int)

  /** user_saved_locations, and users.location of every user (None is NULL). */
  datatype Db = Db(rows: seq<Row>, mirror: map<User, Option<string>>)

  datatype Error = LabelRequired | LabelTooLong | BadLatitude | BadLongitude | LimitReached | DuplicateLabel | OtherError

  datatype Result = Saved(row: Row) | Done | Failed(error: Error)

  datatype Reply = Reply(db: Db, result: Result)

  const MAX_SAVED: nat := 12
  const MAX_LABEL: nat := 64
  const MAX_CANONICAL: nat := 160
  const MIN_INT32: int := -0x8000_0000
  const MAX_INT32: int := 0x7FFF_FFFF
  const EPSILON: real := 0.0001

  // ----- ORDER BY sort_order, id -----

  predicate Less(a: Row, b: Row) {
    a.sort < b.sort || (a.sort == b.sort && a.id < b.id)
  }

  predicate Sorted(list: seq<Row>) {
    forall i, j :: 0 <= i < j < |list| ==> Less(list[i], list[j])
  }

  function Place(r: Row, list: seq<Row>): seq<Row> {
    if list == [] || Less(r, list[0]) then [r] + list else [list[0]] + Place(r, list[1..])
  }

  /** SELECT ... WHERE user_id = u ORDER BY sort_order, id. */
  function Listing(rows: seq<Row>, u: User): seq<Row> {
    if rows == [] then []
    else
      var r, rest := rows[|rows| - 1], Listing(rows[..|rows| - 1], u);
      if r.user == u then Place(r, rest) else rest
  }

  predicate DistinctIds(rows: seq<Row>) {
    forall i, j :: 0 <= i < j < |rows| ==> rows[i].id != rows[j].id
  }

  /** `list` holds the rows of `u`, in order. */
  ghost predicate Lists(rows: seq<Row>, u: User, list: seq<Row>) {
    Sorted(list) && forall r :: r in list <==> r in rows && r.user == u
  }

  lemma {:induction false} PlaceSorts(r: Row, list: seq<Row>)
    requires Sorted(list) && forall s :: s in list ==> s.id != r.id
    ensures Sorted(Place(r, list)) && forall s :: s in Place(r, list) <==> s == r || s in list
  {
    if list != [] && !Less(r, list[0]) {
      var rest := Place(r, list[1..]);
      PlaceSorts(r, list[1..]);
      assert list == [list[0]] + list[1..];
      forall s | s in rest ensures Less(list[0], s) {
        if s != r {
          var i :| 0 <= i < |list[1..]| && list[1..][i] == s;
          assert s == list[i + 1];
        }
      }
    }
  }

  lemma {:induction false} ListingLists(rows: seq<Row>, u: User)
    requires DistinctIds(rows)
    ensures Lists(rows, u, Listing(rows, u))
  {
    if rows != [] {
      var r, rest := rows[|rows| - 1], rows[..|rows| - 1];
      assert rows == rest + [r];
      ListingLists(rest, u);
      if r.user == u {
        forall s | s in Listing(rest, u) ensures s.id != r.id {
          var i :| 0 <= i < |rest| && rest[i] == s;
          assert rows[i].id != r.id;
        }
        PlaceSorts(r, Listing(rest, u));
      }
    }
  }

  lemma HeadIsLeast(a: seq<Row>, r: Row)
    requires Sorted(a) && r in a
    ensures r == a[0] || Less(a[0], r)
  {
    var i :| 0 <= i < |a| && a[i] == r;
    assert i > 0 ==> Less(a[0], a[i]);
  }

  lemma NoMembers(b: seq<Row>)
    ensures (forall r :: r !in b) ==> b == []
  {
    if b != [] {
      assert b[0] in b;
    }
  }

  /** A sorted list is determined by its members. */
  lemma {:induction false} SortedIsUnique(a: seq<Row>, b: seq<Row>)
    requires Sorted(a) && Sorted(b) && forall r :: r in a <==> r in b
    ensures a == b
    decreases |a|
  {
    if a == [] {
      NoMembers(b);
    } else {
      assert a[0] in b;
      HeadIsLeast(b, a[0]);
      assert b[0] in a;
      HeadIsLeast(a, b[0]);
      forall r ensures r in a[1..] <==> r in b[1..] {
        TailMembers(a, r);
        TailMembers(b, r);
      }
      SortedIsUnique(a[1..], b[1..]);
      assert a == [a[0]] + a[1..] && b == [b[0]] + b[1..];
    }
  }

  lemma TailMembers(a: seq<Row>, r: Row)
    requires Sorted(a) && a != []
    ensures r in a[1..] <==> r in a && r != a[0]
  {
    if r in a && r != a[0] {
      var i :| 0 <= i < |a| && a[i] == r;
      assert a[1..][i - 1] == r;
    }
  }

  lemma ListsIsListing(rows: seq<Row>, u: User, list: seq<Row>)
    requires DistinctIds(rows) && Lists(rows, u, list)
    ensures list == Listing(rows, u)
  {
    ListingLists(rows, u);
    SortedIsUnique(list, Listing(rows, u));
  }

  lemma {:induction false} PlaceLast(r: Row, list: seq<Row>)
    requires forall s :: s in list ==> Less(s, r)
    ensures Place(r, list) == list + [r]
  {
    if list != [] {
      assert list[0] in list;
      PlaceLast(r, list[1..]);
      assert list + [r] == [list[0]] + (list[1..] + [r]);
    }
  }

  // ----- The statements -----

  /** UPDATE of one row, found by its id. */
  function Put(rows: seq<Row>, row: Row): (r: seq<Row>)
    ensures |r| == |rows|
  {
    seq(|rows|, i requires 0 <= i < |rows| => if rows[i].id == row.id then row else rows[i])
  }

  /** DELETE ... WHERE id = $1 AND user_id = $2. */
  function Without(rows: seq<Row>, id: int, u: User): seq<Row> {
    if rows == [] then []
    else
      var r := rows[|rows| - 1];
      Without(rows[..|rows| - 1], id, u) + if r.id == id && r.user == u then [] else [r]
  }

  /** The row `id` of user `u`. */
  function Find(rows: seq<Row>, u: User, id: int): (r: Option<Row>)
    ensures match r
            case Some(row) => row in rows && row.id == id && row.user == u
            case None => forall s :: s in rows ==> s.id != id || s.user != u
  {
    if rows == [] then None
    else if rows[0].id == id && rows[0].user == u then Some(rows[0])
    else
      var rest := Find(rows[1..], u, id);
      assert rows == [rows[0]] + rows[1..];
      rest
  }

  lemma {:induction false} ListingMembers(rows: seq<Row>, u: User)
    ensures forall r :: r in Listing(rows, u) <==> r.user == u && r in rows
  {
    if rows != [] {
      assert rows == rows[..|rows| - 1] + [rows[|rows| - 1]];
      ListingMembers(rows[..|rows| - 1], u);
      PlaceMembers(rows[|rows| - 1], Listing(rows[..|rows| - 1], u));
    }
  }

  lemma {:induction false} PlaceMembers(r: Row, list: seq<Row>)
    ensures forall s :: s in Place(r, list) <==> s == r || s in list
  {
    if list != [] && !Less(r, list[0]) {
      PlaceMembers(r, list[1..]);
      assert list == [list[0]] + list[1..];
    }
  }

  lemma PutMembers(rows: seq<Row>, earlier: Row, row: Row)
    requires DistinctIds(rows) && earlier in rows && row.id == earlier.id
    ensures DistinctIds(Put(rows, row))
    ensures forall r :: r in Put(rows, row) <==> (r in rows && r.id != row.id) || r == row
  {
    var p := Put(rows, row);
    var k :| 0 <= k < |rows| && rows[k] == earlier;
    assert p[k] == row;
    forall i, j | 0 <= i < j < |p| ensures p[i].id != p[j].id {
      assert rows[i].id != rows[j].id;
    }
    forall r | r in rows && r.id != row.id ensures r in p {
      var i :| 0 <= i < |rows| && rows[i] == r;
      assert p[i] == r;
    }
    forall r | r in p ensures (r in rows && r.id != row.id) || r == row {
      var i :| 0 <= i < |p| && p[i] == r;
      assert rows[i] in rows;
    }
  }

  /** A list with the updated row in its new place is the listing after an update. */
  lemma ListingAfterPut(rows: seq<Row>, earlier: Row, row: Row, list: seq<Row>)
    requires DistinctIds(rows) && earlier in rows && row.id == earlier.id && row.user == earlier.user
    requires Sorted(list)
    requires forall r :: r in list <==> (r in Listing(rows, row.user) && r.id != row.id) || r == row
    ensures Listing(Put(rows, row), row.user) == list
  {
    PutMembers(rows, earlier, row);
    ListingLists(rows, row.user);
    ListsIsListing(Put(rows, row), row.user, list);
  }

  lemma OthersAfterPut(rows: seq<Row>, earlier: Row, row: Row, v: User)
    requires DistinctIds(rows) && earlier in rows && row.id == earlier.id && row.user == earlier.user != v
    ensures Listing(Put(rows, row), v) == Listing(rows, v)
  {
    PutMembers(rows, earlier, row);
    ListingLists(rows, v);
    forall r | r in rows && r.user == v ensures r.id != row.id {
      var i :| 0 <= i < |rows| && rows[i] == r;
      var j :| 0 <= j < |rows| && rows[j] == earlier;
    }
    ListsIsListing(Put(rows, row), v, Listing(rows, v));
  }

  lemma {:induction false} WithoutMembers(rows: seq<Row>, id: int, u: User)
    ensures forall r :: r in Without(rows, id, u) <==> r in rows && !(r.id == id && r.user == u)
    ensures |Without(rows, id, u)| <= |rows|
  {
    if rows != [] {
      assert rows == rows[..|rows| - 1] + [rows[|rows| - 1]];
      WithoutMembers(rows[..|rows| - 1], id, u);
    }
  }

  lemma {:induction false} WithoutKeepsDistinct(rows: seq<Row>, id: int, u: User)
    requires DistinctIds(rows)
    ensures DistinctIds(Without(rows, id, u))
  {
    if rows != [] {
      var rest := rows[..|rows| - 1];
      WithoutKeepsDistinct(rest, id, u);
      WithoutMembers(rest, id, u);
      var w := Without(rest, id, u);
      forall i | 0 <= i < |w| ensures w[i].id != rows[|rows| - 1].id {
        assert w[i] in rest;
        var j :| 0 <= j < |rest| && rest[j] == w[i];
        assert rows[j].id != rows[|rows| - 1].id;
      }
    }
  }

  lemma {:induction false} WithoutKeepsOrder(list: seq<Row>, id: int, u: User)
    requires Sorted(list)
    ensures Sorted(Without(list, id, u))
  {
    if list != [] {
      var rest, last := list[..|list| - 1], list[|list| - 1];
      WithoutKeepsOrder(rest, id, u);
      WithoutMembers(rest, id, u);
      var w := Without(rest, id, u);
      forall i | 0 <= i < |w| ensures Less(w[i], last) {
        assert w[i] in rest;
        var j :| 0 <= j < |rest| && rest[j] == w[i];
        assert Less(list[j], last);
      }
    }
  }

  /** Deleting before or after listing is the same. */
  lemma ListingAfterDelete(rows: seq<Row>, id: int, u: User, v: User)
    requires DistinctIds(rows)
    ensures Listing(Without(rows, id, u), v) == Without(Listing(rows, v), id, u)
  {
    ListingLists(rows, v);
    WithoutMembers(rows, id, u);
    WithoutKeepsDistinct(rows, id, u);
    WithoutMembers(Listing(rows, v), id, u);
    WithoutKeepsOrder(Listing(rows, v), id, u);
    ListsIsListing(Without(rows, id, u), v, Without(Listing(rows, v), id, u));
  }

  lemma {:induction false} NothingToDelete(list: seq<Row>, id: int, u: User)
    requires forall r :: r in list ==> !(r.id == id && r.user == u)
    ensures Without(list, id, u) == list
  {
    if list != [] {
      var rest, last := list[..|list| - 1], list[|list| - 1];
      assert last in list && list == rest + [last];
      NothingToDelete(rest, id, u);
    }
  }

  // ----- The operations -----

  predicate IsSpace(c: char) {
    c == ' ' || c == '\t' || c == '\n' || c == '\r' || c as int == 11 || c as int == 12
  }

  function TrimLeft(s: string): string {
    if s != "" && IsSpace(s[0]) then TrimLeft(s[1..]) else s
  }

  function TrimRight(s: string): string {
    if s != "" && IsSpace(s[|s| - 1]) then TrimRight(s[..|s| - 1]) else s
  }

  /** strings.TrimSpace on ASCII. */
  function Trim(s: string): string { TrimRight(TrimLeft(s)) }

  function Clip(s: string): string { if |s| > MAX_CANONICAL then s[..MAX_CANONICAL] else s }

  function Canonical(s: string): Option<string> {
    var c := Clip(Trim(s));
    if c != "" then Some(c) else None
  }

  /** What is wrong with a place, if anything. */
  function Invalid(name: string, lat: real, lon: real): Option<Error> {
    if name == "" then Some(LabelRequired)
    else if |name| > MAX_LABEL then Some(LabelTooLong)
    else if lat < -90.0 || lat > 90.0 then Some(BadLatitude)
    else if lon < -180.0 || lon > 180.0 then Some(BadLongitude)
    else None
  }

  predicate NameTaken(rows: seq<Row>, u: User, name: string, except: int) {
    exists r :: r in rows && r.user == u && r.name == name && r.id != except
  }

  predicate LabelTaken(rows: seq<Row>, u: User, name: string) {
    exists r :: r in rows && r.user == u && r.name == name
  }

  /** INSERT: the user must exist, and not have the label yet. */
  function Insert(db: Db, row: Row): Reply {
    if row.user !in db.mirror then Reply(db, Failed(OtherError))
    else if LabelTaken(db.rows, row.user, row.name) then Reply(db, Failed(DuplicateLabel))
    else Reply(db.(rows := db.rows + [row]), Saved(row))
  }

  function SetMirror(db: Db, u: User, name: Option<string>): Db {
    if u in db.mirror then db.(mirror := db.mirror[u := name]) else db
  }

  function HeadName(list: seq<Row>): Option<string> {
    if list == [] then None else Some(list[0].name)
  }

  function RefreshMirror(db: Db, u: User): Db {
    SetMirror(db, u, HeadName(Listing(db.rows, u)))
  }

  /** MAX(sort_order) + 1, or 0. */
  function NextSort(list: seq<Row>): int {
    if list == [] then 0 else list[|list| - 1].sort + 1
  }

  function Add(db: Db, u: User, name: string, canonical: string, lat: real, lon: real, id: int): Reply {
    var l := Trim(name);
    if Invalid(l, lat, lon).Some? then Reply(db, Failed(Invalid(l, lat, lon).value))
    else AddLast(db, Row(id, u, l, lat, lon, Canonical(canonical), NextSort(Listing(db.rows, u))))
  }

  /** The checked row, numbered after the user's last one. */
  function AddLast(db: Db, row: Row): Reply {
    var list := Listing(db.rows, row.user);
    if |list| >= MAX_SAVED then Reply(db, Failed(LimitReached))
    else if row.sort > MAX_INT32 then Reply(db, Failed(OtherError))
    else
      var r := Insert(db, row);
      if r.result.Saved? && list == [] then r.(db := SetMirror(r.db, row.user, Some(row.name))) else r
  }

  /** One less than the first sort order, in 32 bits. */
  function HeadSort(list: seq<Row>): int {
    if list == [] then 0 else if list[0].sort == MIN_INT32 then MAX_INT32 else list[0].sort - 1
  }

  function Abs(x: real): real { if x < 0.0 then -x else x }

  predicate Near(r: Row, lat: real, lon: real) {
    Abs(r.latitude - lat) < EPSILON && Abs(r.longitude - lon) < EPSILON
  }

  /** The first row of the list that is near, its length if there is none. */
  function FirstNear(list: seq<Row>, lat: real, lon: real): (i: nat)
    ensures i <= |list|
    ensures i < |list| ==> Near(list[i], lat, lon)
    ensures forall j :: 0 <= j < i ==> !Near(list[j], lat, lon)
  {
    if list == [] || Near(list[0], lat, lon) then 0 else 1 + FirstNear(list[1..], lat, lon)
  }

  function SetPrimary(db: Db, u: User, name: string, canonical: string, lat: real, lon: real, id: int): Reply {
    var l := Trim(name);
    var list := Listing(db.rows, u);
    var i := FirstNear(list, lat, lon);
    if Invalid(l, lat, lon).Some? then Reply(db, Failed(Invalid(l, lat, lon).value))
    else if i < |list| then Promote(db, u, i)
    else AddFirst(db, Row(id, u, l, lat, lon, Canonical(canonical), HeadSort(list)))
  }

  /** Row i of the user's list moves to the front, unless it is there. */
  function Promote(db: Db, u: User, i: nat): Reply
    requires i < |Listing(db.rows, u)|
  {
    var list := Listing(db.rows, u);
    var row := if i == 0 then list[0] else list[i].(sort := HeadSort(list));
    Reply(SetMirror(if i == 0 then db else db.(rows := Put(db.rows, row)), u, Some(row.name)), Saved(row))
  }

  /** The checked row, numbered before the user's first one. */
  function AddFirst(db: Db, row: Row): Reply {
    if |Listing(db.rows, row.user)| >= MAX_SAVED then Reply(db, Failed(LimitReached))
    else
      var r := Insert(db, row);
      if r.result.Saved? then r.(db := SetMirror(r.db, row.user, Some(row.name))) else r
  }

  function Delete(db: Db, u: User, id: int): Db {
    RefreshMirror(db.(rows := Without(db.rows, id, u)), u)
  }

  function ClearPrimary(db: Db, u: User): Db {
    var list := Listing(db.rows, u);
    if list == [] then RefreshMirror(db, u) else Delete(db, u, list[0].id)
  }

  function Rename(db: Db, u: User, id: int, name: string): Reply {
    var l := Trim(name);
    if l == "" then Reply(db, Failed(LabelRequired))
    else if |l| > MAX_LABEL then Reply(db, Failed(LabelTooLong))
    else
      match Find(db.rows, u, id)
      case None => Reply(RefreshMirror(db, u), Done)
      case Some(row) =>
        if NameTaken(db.rows, u, l, id) then Reply(db, Failed(DuplicateLabel))
        else Reply(RefreshMirror(db.(rows := Put(db.rows, row.(name := l))), u), Done)
  }

  /** UPDATE ... SET sort_order; the id must be the user's. */
  function SetSort(rows: seq<Row>, u: User, id: int, sort: int): seq<Row> {
    match Find(rows, u, id)
    case None => rows
    case Some(row) => Put(rows, row.(sort := sort))
  }

  /** The caller passes the rows as it last listed them. */
  function Swap(db: Db, u: User, a: Row, b: Row): Db {
    RefreshMirror(db.(rows := SetSort(SetSort(db.rows, u, a.id, b.sort), u, b.id, a.sort)), u)
  }

  function SeedFromProfile(db: Db, u: User, name: string, canonical: string, lat: real, lon: real, id: int): Reply {
    if Listing(db.rows, u) != [] then Reply(db, Done) else Add(db, u, name, canonical, lat, lon, id)
  }

  // ----- What every operation does to the list -----

  ghost predicate FreshId(rows: seq<Row>, id: int) {
    forall r :: r in rows ==> r.id != id
  }

  lemma ListIds(rows: seq<Row>, u: User, list: seq<Row>)
    requires DistinctIds(rows) && Lists(rows, u, list)
    ensures DistinctIds(list)
  {
    forall i, j | 0 <= i < j < |list| ensures list[i].id != list[j].id {
      assert list[i] in list && list[j] in list && Less(list[i], list[j]);
      var k :| 0 <= k < |rows| && rows[k] == list[i];
      var l :| 0 <= l < |rows| && rows[l] == list[j];
      assert k < l ==> rows[k].id != rows[l].id;
      assert l < k ==> rows[l].id != rows[k].id;
    }
  }

  lemma DifferentIds(rows: seq<Row>, r: Row, s: Row)
    requires DistinctIds(rows) && r in rows && s in rows && r != s
    ensures r.id != s.id
  {
    var i :| 0 <= i < |rows| && rows[i] == r;
    var j :| 0 <= j < |rows| && rows[j] == s;
    if i < j {
      assert rows[i].id != rows[j].id;
    } else {
      assert rows[j].id != rows[i].id;
    }
  }

  lemma SameId(rows: seq<Row>, r: Row, s: Row)
    requires DistinctIds(rows) && r in rows && s in rows && r.id == s.id
    ensures r == s
  {
    if r != s {
      DifferentIds(rows, r, s);
    }
  }

  lemma FindIs(rows: seq<Row>, row: Row)
    requires DistinctIds(rows) && row in rows
    ensures Find(rows, row.user, row.id) == Some(row)
  {
    var f := Find(rows, row.user, row.id);
    assert f.Some?;
    SameId(rows, f.value, row);
  }

  lemma ListingAfterInsert(rows: seq<Row>, row: Row, v: User)
    requires DistinctIds(rows) && FreshId(rows, row.id)
    ensures DistinctIds(rows + [row])
    ensures Listing(rows + [row], v) == if v == row.user then Place(row, Listing(rows, v)) else Listing(rows, v)
  {
    var all := rows + [row];
    assert all[..|all| - 1] == rows;
    forall i, j | 0 <= i < j < |all| ensures all[i].id != all[j].id {
      assert all[i] in rows;
    }
  }

  lemma NumberedLast(rows: seq<Row>, row: Row)
    requires DistinctIds(rows) && FreshId(rows, row.id) && row.sort == NextSort(Listing(rows, row.user))
    ensures Listing(rows + [row], row.user) == Listing(rows, row.user) + [row]
  {
    var list := Listing(rows, row.user);
    ListingAfterInsert(rows, row, row.user);
    ListingLists(rows, row.user);
    forall s | s in list ensures Less(s, row) {
      LastIsGreatest(list, s);
    }
    PlaceLast(row, list);
  }

  lemma LastIsGreatest(list: seq<Row>, s: Row)
    requires Sorted(list) && s in list
    ensures s.sort < list[|list| - 1].sort + 1
  {
    var i :| 0 <= i < |list| && list[i] == s;
    if i < |list| - 1 {
      assert Less(list[i], list[|list| - 1]);
    }
  }

  /** A row numbered after the last one is listed last, and the other lists stay. */
  lemma AddLastAppends(db: Db, row: Row, v: User)
    requires DistinctIds(db.rows) && FreshId(db.rows, row.id) && row.sort == NextSort(Listing(db.rows, row.user))
    ensures var r := AddLast(db, row);
            && DistinctIds(r.db.rows)
            && (if r.result.Failed? then r.db == db
                else r.result == Saved(row) && |Listing(db.rows, row.user)| < MAX_SAVED)
            && Listing(r.db.rows, v)
               == if v == row.user && r.result.Saved? then Listing(db.rows, v) + [row] else Listing(db.rows, v)
  {
    ListingAfterInsert(db.rows, row, v);
    NumberedLast(db.rows, row);
  }

  /** Add puts the new row last and leaves the other lists alone. */
  lemma AddAppends(db: Db, u: User, name: string, canonical: string, lat: real, lon: real, id: int, v: User)
    requires DistinctIds(db.rows) && FreshId(db.rows, id)
    ensures var r := Add(db, u, name, canonical, lat, lon, id);
            && DistinctIds(r.db.rows) && !r.result.Done? && (r.result.Failed? ==> r.db == db)
            && (r.result.Saved? ==>
                  && r.result.row.user == u && r.result.row.id == id && |Listing(db.rows, u)| < MAX_SAVED
                  && r.result.row.sort == NextSort(Listing(db.rows, u)))
            && Listing(r.db.rows, v)
               == if v == u && r.result.Saved? then Listing(db.rows, v) + [r.result.row] else Listing(db.rows, v)
  {
    var l := Trim(name);
    AddLastAppends(db, Row(id, u, l, lat, lon, Canonical(canonical), NextSort(Listing(db.rows, u))), v);
  }

  predicate HasRoom(list: seq<Row>) {
    list == [] || list[0].sort > MIN_INT32
  }

  lemma InTail(list: seq<Row>, u: User, r: Row)
    requires Sorted(list) && DistinctIds(list) && list != [] && forall s :: s in list ==> s.user == u
    ensures r in list[1..] <==> r in list && !(r.id == list[0].id && r.user == u)
  {
    TailMembers(list, r);
    if r in list && r != list[0] {
      DifferentIds(list, r, list[0]);
    }
  }

  lemma WithoutHead(list: seq<Row>, u: User)
    requires Sorted(list) && DistinctIds(list) && list != [] && forall r :: r in list ==> r.user == u
    ensures list == [list[0]] + Without(list, list[0].id, u)
  {
    var w := Without(list, list[0].id, u);
    WithoutMembers(list, list[0].id, u);
    WithoutKeepsOrder(list, list[0].id, u);
    forall r ensures r in w <==> r in list[1..] {
      InTail(list, u, r);
    }
    SortedIsUnique(w, list[1..]);
    assert list == [list[0]] + list[1..];
  }

  /** Everything in front of a sorted list keeps it sorted. */
  lemma InFront(row: Row, list: seq<Row>)
    requires Sorted(list) && forall r :: r in list ==> Less(row, r)
    ensures Sorted([row] + list)
  {
    var all := [row] + list;
    forall i, j | 0 <= i < j < |all| ensures Less(all[i], all[j]) {
      assert all[j] == list[j - 1] && list[j - 1] in list;
      assert i > 0 ==> all[i] == list[i - 1] && Less(list[i - 1], list[j - 1]);
    }
  }

  /** A near row is moved to the front, the others keep their order. */
  lemma PromoteMovesToFront(rows: seq<Row>, u: User, i: nat, row: Row)
    requires DistinctIds(rows) && HasRoom(Listing(rows, u)) && 0 < i < |Listing(rows, u)|
    requires row == Listing(rows, u)[i].(sort := HeadSort(Listing(rows, u)))
    ensures row.user == u && DistinctIds(Put(rows, row))
    ensures Listing(Put(rows, row), u) == [row] + Without(Listing(rows, u), row.id, u)
    ensures forall v :: v != u ==> Listing(Put(rows, row), v) == Listing(rows, v)
  {
    var list := Listing(rows, u);
    ListingLists(rows, u);
    assert list[i] in list;
    var rest := Without(list, row.id, u);
    WithoutMembers(list, row.id, u);
    WithoutKeepsOrder(list, row.id, u);
    forall r | r in rest ensures Less(row, r) {
      HeadIsLeast(list, r);
    }
    InFront(row, rest);
    PutMembers(rows, list[i], row);
    ListingAfterPut(rows, list[i], row, [row] + rest);
    forall v | v != u ensures Listing(Put(rows, row), v) == Listing(rows, v) {
      OthersAfterPut(rows, list[i], row, v);
    }
  }

  lemma PromoteIsFirst(db: Db, u: User, i: nat, v: User)
    requires DistinctIds(db.rows) && HasRoom(Listing(db.rows, u)) && i < |Listing(db.rows, u)|
    ensures var r := Promote(db, u, i);
            && DistinctIds(r.db.rows) && r.result.Saved? && r.result.row.user == u
            && |Without(Listing(db.rows, u), r.result.row.id, u)| < |Listing(db.rows, u)|
            && Listing(r.db.rows, v)
               == if v == u then [r.result.row] + Without(Listing(db.rows, u), r.result.row.id, u)
                  else Listing(db.rows, v)
  {
    var list := Listing(db.rows, u);
    ListingLists(db.rows, u);
    assert list[i] in list;
    WithoutOne(list, i, u);
    if i == 0 {
      ListIds(db.rows, u, list);
      WithoutHead(list, u);
    } else {
      PromoteMovesToFront(db.rows, u, i, Promote(db, u, i).result.row);
    }
  }

  lemma AddFirstIsFirst(db: Db, row: Row, v: User)
    requires DistinctIds(db.rows) && FreshId(db.rows, row.id)
    requires HasRoom(Listing(db.rows, row.user)) && row.sort == HeadSort(Listing(db.rows, row.user))
    ensures var r := AddFirst(db, row);
            && DistinctIds(r.db.rows)
            && (if r.result.Failed? then r.db == db
                else r.result == Saved(row) && |Listing(db.rows, row.user)| < MAX_SAVED)
            && Listing(r.db.rows, v)
               == if v == row.user && r.result.Saved? then [row] + Listing(db.rows, v) else Listing(db.rows, v)
  {
    ListingAfterInsert(db.rows, row, v);
  }

  /** SetPrimaryFromGeocode puts its row first and keeps the order of the others. */
  lemma PrimaryIsFirst(db: Db, u: User, name: string, canonical: string, lat: real, lon: real, id: int, v: User)
    requires DistinctIds(db.rows) && FreshId(db.rows, id) && HasRoom(Listing(db.rows, u))
    ensures var r := SetPrimary(db, u, name, canonical, lat, lon, id);
            && DistinctIds(r.db.rows) && !r.result.Done? && (r.result.Failed? ==> r.db == db)
            && (r.result.Saved? ==>
                  && r.result.row.user == u
                  && |Without(Listing(db.rows, u), r.result.row.id, u)| < MaxNat(|Listing(db.rows, u)|, MAX_SAVED))
            && Listing(r.db.rows, v)
               == if v == u && r.result.Saved? then [r.result.row] + Without(Listing(db.rows, u), r.result.row.id, u)
                  else Listing(db.rows, v)
  {
    var l, list := Trim(name), Listing(db.rows, u);
    var i := FirstNear(list, lat, lon);
    if Invalid(l, lat, lon).None? {
      if i < |list| {
        PromoteIsFirst(db, u, i, v);
      } else {
        ListingLists(db.rows, u);
        NothingToDelete(list, id, u);
        AddFirstIsFirst(db, Row(id, u, l, lat, lon, Canonical(canonical), HeadSort(list)), v);
      }
    }
  }

  function MaxNat(a: nat, b: nat): nat { if a < b then b else a }

  lemma {:induction false} WithoutOne(list: seq<Row>, i: nat, u: User)
    requires i < |list| && list[i].user == u
    ensures |Without(list, list[i].id, u)| < |list|
    decreases |list|
  {
    var rest := list[..|list| - 1];
    if i < |rest| {
      WithoutOne(rest, i, u);
    } else {
      WithoutMembers(rest, list[i].id, u);
    }
  }

  /** Rename changes one label in place. */
  lemma RenameInPlace(db: Db, u: User, id: int, name: string, v: User)
    requires DistinctIds(db.rows)
    ensures var r := Rename(db, u, id, name);
            && DistinctIds(r.db.rows) && (r.result.Failed? ==> r.db == db)
            && Listing(r.db.rows, v)
               == if v == u && r.result == Done && Find(db.rows, u, id).Some?
                  then Put(Listing(db.rows, u), Find(db.rows, u, id).value.(name := Trim(name)))
                  else Listing(db.rows, v)
  {
    var r := Rename(db, u, id, name);
    if r.result == Done && Find(db.rows, u, id).Some? {
      var earlier := Find(db.rows, u, id).value;
      var row, list := earlier.(name := Trim(name)), Listing(db.rows, u);
      PutMembers(db.rows, earlier, row);
      if v == u {
        ListingLists(db.rows, u);
        ListIds(db.rows, u, list);
        PutMembers(list, earlier, row);
        PutKeepsOrder(list, earlier, row);
        ListingAfterPut(db.rows, earlier, row, Put(list, row));
      } else {
        OthersAfterPut(db.rows, earlier, row, v);
      }
    }
  }

  lemma PutKeepsOrder(list: seq<Row>, earlier: Row, row: Row)
    requires Sorted(list) && DistinctIds(list) && earlier in list && row.id == earlier.id && row.sort == earlier.sort
    ensures Sorted(Put(list, row))
  {
    var p := Put(list, row);
    forall i, j | 0 <= i < j < |p| ensures Less(p[i], p[j]) {
      assert Less(list[i], list[j]);
      if list[i].id == row.id { SameId(list, list[i], earlier); }
      if list[j].id == row.id { SameId(list, list[j], earlier); }
    }
  }

  // ----- Swap -----

  /** No two rows of a user share a sort order. */
  ghost predicate OwnSorts(list: seq<Row>) {
    forall i, j :: 0 <= i < j < |list| ==> list[i].sort < list[j].sort
  }

  lemma SwappedMembers(rows: seq<Row>, u: User, a: Row, b: Row)
    requires DistinctIds(rows) && a in rows && b in rows && a.user == u && b.user == u && a.id != b.id
    ensures var v := SetSort(SetSort(rows, u, a.id, b.sort), u, b.id, a.sort);
            && DistinctIds(v)
            && forall r :: r in v <==> (r in rows && r.id != a.id && r.id != b.id)
                                       || r == a.(sort := b.sort) || r == b.(sort := a.sort)
  {
    FindIs(rows, a);
    PutMembers(rows, a, a.(sort := b.sort));
    var mid := Put(rows, a.(sort := b.sort));
    assert b in mid;
    FindIs(mid, b);
    PutMembers(mid, b, b.(sort := a.sort));
  }

  /** The rows at i and j in each other's place, with each other's sort order. */
  function Transposed(list: seq<Row>, i: nat, j: nat): seq<Row>
    requires i < |list| && j < |list|
  {
    list[i := list[j].(sort := list[i].sort)][j := list[i].(sort := list[j].sort)]
  }

  /** Swap of two current rows exchanges their two places and nothing else. */
  lemma SwapTransposes(db: Db, u: User, i: nat, j: nat)
    requires DistinctIds(db.rows) && OwnSorts(Listing(db.rows, u))
    requires i < |Listing(db.rows, u)| && j < |Listing(db.rows, u)| && i != j
    ensures var list := Listing(db.rows, u);
            var v := Swap(db, u, list[i], list[j]);
            && DistinctIds(v.rows)
            && Listing(v.rows, u) == Transposed(list, i, j)
            && OwnSorts(Listing(v.rows, u))
            && forall w :: w != u ==> Listing(v.rows, w) == Listing(db.rows, w)
  {
    var list := Listing(db.rows, u);
    var a, b := list[i], list[j];
    var rows := Swap(db, u, a, b).rows;
    ListingLists(db.rows, u);
    ListIds(db.rows, u, list);
    assert a in list && b in list;
    assert a.id != b.id by { if i < j { assert list[i].id != list[j].id; } else { assert list[j].id != list[i].id; } }
    SwappedMembers(db.rows, u, a, b);
    var swapped := Transposed(list, i, j);
    TransposedIsSorted(list, i, j);
    forall r ensures r in swapped <==> r in rows && r.user == u {
      TransposedMembers(list, i, j, r);
    }
    ListsIsListing(rows, u, swapped);
    forall w | w != u ensures Listing(rows, w) == Listing(db.rows, w) {
      OthersAfterSwap(db.rows, rows, a, b, w);
    }
  }

  lemma OthersAfterSwap(rows: seq<Row>, after: seq<Row>, a: Row, b: Row, w: User)
    requires DistinctIds(rows) && DistinctIds(after) && a in rows && b in rows && a.user == b.user != w
    requires forall r :: r in after <==> (r in rows && r.id != a.id && r.id != b.id)
                                         || r == a.(sort := b.sort) || r == b.(sort := a.sort)
    ensures Listing(after, w) == Listing(rows, w)
  {
    ListingLists(rows, w);
    forall r ensures r in after && r.user == w <==> r in Listing(rows, w) {
      if r in rows && (r.id == a.id || r.id == b.id) {
        SameId(rows, r, if r.id == a.id then a else b);
      }
    }
    ListsIsListing(after, w, Listing(rows, w));
  }

  lemma TransposedIsSorted(list: seq<Row>, i: nat, j: nat)
    requires OwnSorts(list) && i < |list| && j < |list| && i != j
    ensures Sorted(Transposed(list, i, j)) && OwnSorts(Transposed(list, i, j))
  {
    var swapped := Transposed(list, i, j);
    assert forall k :: 0 <= k < |list| ==> swapped[k].sort == list[k].sort;
  }

  lemma TransposedHolds(list: seq<Row>, i: nat, j: nat, r: Row)
    requires i < |list| && j < |list| && i != j
    requires (r in list && r.id != list[i].id && r.id != list[j].id)
             || r == list[i].(sort := list[j].sort) || r == list[j].(sort := list[i].sort)
    ensures r in Transposed(list, i, j)
  {
    var swapped := Transposed(list, i, j);
    assert swapped[j] in swapped && swapped[i] in swapped;
    if r in list && r.id != list[i].id && r.id != list[j].id {
      var k :| 0 <= k < |list| && list[k] == r;
      assert swapped[k] == r;
    }
  }

  lemma TransposedComesFrom(list: seq<Row>, i: nat, j: nat, r: Row)
    requires DistinctIds(list) && i < |list| && j < |list| && i != j && r in Transposed(list, i, j)
    ensures (r in list && r.id != list[i].id && r.id != list[j].id)
            || r == list[i].(sort := list[j].sort) || r == list[j].(sort := list[i].sort)
  {
    var swapped := Transposed(list, i, j);
    var k :| 0 <= k < |swapped| && swapped[k] == r;
    if k != i && k != j {
      assert list[k] in list;
      assert if k < i then list[k].id != list[i].id else list[i].id != list[k].id;
      assert if k < j then list[k].id != list[j].id else list[j].id != list[k].id;
    }
  }

  lemma TransposedMembers(list: seq<Row>, i: nat, j: nat, r: Row)
    requires DistinctIds(list) && i < |list| && j < |list| && i != j
    ensures r in Transposed(list, i, j)
            <==> (r in list && r.id != list[i].id && r.id != list[j].id)
                 || r == list[i].(sort := list[j].sort) || r == list[j].(sort := list[i].sort)
  {
    if r in Transposed(list, i, j) {
      TransposedComesFrom(list, i, j, r);
    } else if (r in list && r.id != list[i].id && r.id != list[j].id)
              || r == list[i].(sort := list[j].sort) || r == list[j].(sort := list[i].sort) {
      TransposedHolds(list, i, j, r);
    }
  }

  // ----- What the operations do, said from outside -----

  /** `t` is `s` without the white space at both ends. */
  ghost predicate Trimmed(s: string, t: string) {
    exists i, j :: TrimmedAt(s, t, i, j)
  }

  predicate TrimmedAt(s: string, t: string, i: nat, j: nat) {
    && i <= j <= |s| && t == s[i..j]
    && (forall k :: 0 <= k < |s| && !(i <= k < j) ==> IsSpace(s[k]))
    && (t != "" ==> !IsSpace(t[0]) && !IsSpace(t[|t| - 1]))
  }

  lemma {:induction false} TrimLeftAt(s: string) returns (i: nat)
    ensures i <= |s| && TrimLeft(s) == s[i..] && forall k :: 0 <= k < i ==> IsSpace(s[k])
    ensures TrimLeft(s) != "" ==> !IsSpace(TrimLeft(s)[0])
  {
    i := 0;
    if s != "" && IsSpace(s[0]) {
      var j := TrimLeftAt(s[1..]);
      i := j + 1;
      assert s[1..][j..] == s[i..];
      forall k | 0 <= k < i ensures IsSpace(s[k]) {
        assert k > 0 ==> s[k] == s[1..][k - 1];
      }
    }
  }

  lemma {:induction false} TrimRightAt(s: string) returns (j: nat)
    ensures j <= |s| && TrimRight(s) == s[..j] && forall k :: j <= k < |s| ==> IsSpace(s[k])
    ensures TrimRight(s) != "" ==> !IsSpace(TrimRight(s)[|TrimRight(s)| - 1])
  {
    j := |s|;
    if s != "" && IsSpace(s[|s| - 1]) {
      j := TrimRightAt(s[..|s| - 1]);
      assert s[..|s| - 1][..j] == s[..j];
    }
  }

  lemma TrimTrims(s: string)
    ensures Trimmed(s, Trim(s))
  {
    var i := TrimLeftAt(s);
    var j := TrimRightAt(s[i..]);
    assert s[i..][..j] == s[i..i + j];
    forall k | 0 <= k < |s| && !(i <= k < i + j) ensures IsSpace(s[k]) {
      assert k >= i + j ==> s[k] == s[i..][k - i];
    }
    assert TrimmedAt(s, Trim(s), i, i + j);
  }

  /** The name kept from the geocoder: trimmed, at most 160 bytes of it, and none when nothing is left. */
  ghost predicate KeepsCanonical(c: Option<string>, s: string) {
    exists t :: Trimmed(s, t) && c == (if t == "" then None else Some(if |t| > 160 then t[..160] else t))
  }

  lemma CanonicalIsKept(s: string)
    ensures KeepsCanonical(Canonical(s), s)
  {
    TrimTrims(s);
  }

  /** The row of a place as it was given. */
  ghost predicate IsPlace(row: Row, u: User, name: string, canonical: string, lat: real, lon: real, id: int) {
    && row.user == u && row.id == id && row.latitude == lat && row.longitude == lon
    && Trimmed(name, row.name) && KeepsCanonical(row.canonical, canonical)
  }

  /** Why a place is refused before the list is looked at. */
  ghost predicate Refuses(r: Result, t: string, lat: real, lon: real) {
    && (t == "" ==> r == Failed(LabelRequired))
    && (|t| > 64 ==> r == Failed(LabelTooLong))
    && (1 <= |t| <= 64 && !(-90.0 <= lat <= 90.0) ==> r == Failed(BadLatitude))
    && (1 <= |t| <= 64 && -90.0 <= lat <= 90.0 && !(-180.0 <= lon <= 180.0) ==> r == Failed(BadLongitude))
  }

  predicate InRange(t: string, lat: real, lon: real) {
    1 <= |t| <= 64 && -90.0 <= lat <= 90.0 && -180.0 <= lon <= 180.0
  }

  /** Add: what is invalid, one row over twelve, a used-up sort order, an unknown user and a label the user has are
      refused, in this order; otherwise the place is saved as given. */
  lemma AddSavesThePlace(db: Db, u: User, name: string, canonical: string, lat: real, lon: real, id: int)
    ensures var (r, t, list) := (Add(db, u, name, canonical, lat, lon, id), Trim(name), Listing(db.rows, u));
            && Trimmed(name, t) && Refuses(r.result, t, lat, lon)
            && (InRange(t, lat, lon) ==>
                  if |list| >= 12 then r.result == Failed(LimitReached)
                  else if (list != [] && list[|list| - 1].sort >= 0x7FFF_FFFF) || u !in db.mirror then r.result == Failed(OtherError)
                  else if LabelTaken(db.rows, u, t) then r.result == Failed(DuplicateLabel)
                  else r.result.Saved?)
            && (r.result.Saved? ==>
                  && IsPlace(r.result.row, u, name, canonical, lat, lon, id) && r.db.rows == db.rows + [r.result.row]
                  && r.result.row.sort == (if list == [] then 0 else list[|list| - 1].sort + 1))
  {
    TrimTrims(name);
    CanonicalIsKept(canonical);
  }

  /** A place one ten-thousandth of a degree away, in latitude or in longitude, is another place. */
  predicate Within(r: Row, lat: real, lon: real) {
    lat - 0.0001 < r.latitude < lat + 0.0001 && lon - 0.0001 < r.longitude < lon + 0.0001
  }

  lemma NearIsWithin(r: Row, lat: real, lon: real)
    ensures Near(r, lat, lon) <==> Within(r, lat, lon)
  {
  }

  /** The sort order of a row put before the first one, in 32 bits. */
  predicate Fronts(sort: int, list: seq<Row>) {
    && (list == [] ==> sort == 0)
    && (list != [] && list[0].sort > -0x8000_0000 ==> sort == list[0].sort - 1)
    && (list != [] && list[0].sort == -0x8000_0000 ==> sort == 0x7FFF_FFFF)
  }

  /** Seeding adds the profile's place for a user without rows and does nothing for any other. */
  lemma SeedsOnce(db: Db, u: User, name: string, canonical: string, lat: real, lon: real, id: int)
    ensures var (r, list) := (SeedFromProfile(db, u, name, canonical, lat, lon, id), Listing(db.rows, u));
            && (list != [] ==> r.db == db && r.result == Done)
            && (list == [] ==> (r.result.Saved? <==> InRange(Trim(name), lat, lon) && u in db.mirror && !LabelTaken(db.rows, u, Trim(name))))
            && (r.result.Saved? ==> list == [] && IsPlace(r.result.row, u, name, canonical, lat, lon, id)
                                    && r.db.rows == db.rows + [r.result.row])
  {
    AddSavesThePlace(db, u, name, canonical, lat, lon, id);
  }

  /** SetPrimaryFromGeocode: the near row is kept but for its place in the order; a new one is saved as given. */
  lemma PrimaryIsThePlace(db: Db, u: User, name: string, canonical: string, lat: real, lon: real, id: int)
    ensures var (r, t, list) := (SetPrimary(db, u, name, canonical, lat, lon, id), Trim(name), Listing(db.rows, u));
            var i := FirstNear(list, lat, lon);
            && Refuses(r.result, t, lat, lon)
            && (InRange(t, lat, lon) && i < |list| ==>
                  && r.result.Saved? && r.result.row.(sort := list[i].sort) == list[i] && (i == 0 ==> r.result.row == list[0])
                  && (i > 0 ==> Fronts(r.result.row.sort, list))
                  && (u in db.mirror ==> u in r.db.mirror && r.db.mirror[u] == Some(list[i].name)))
            && (InRange(t, lat, lon) && i == |list| ==>
                  if |list| >= 12 then r.result == Failed(LimitReached)
                  else if u !in db.mirror then r.result == Failed(OtherError)
                  else if LabelTaken(db.rows, u, t) then r.result == Failed(DuplicateLabel)
                  else r.result.Saved?)
            && (i == |list| && r.result.Saved? ==>
                  && IsPlace(r.result.row, u, name, canonical, lat, lon, id) && r.db.rows == db.rows + [r.result.row]
                  && Fronts(r.result.row.sort, list))
  {
    TrimTrims(name);
    CanonicalIsKept(canonical);
  }

  /** Rename: an empty or long label and one that another row of the user has are refused. */
  lemma RenameRefuses(db: Db, u: User, id: int, name: string)
    ensures var (r, t) := (Rename(db, u, id, name).result, Trim(name));
            && Trimmed(name, t)
            && (t == "" ==> r == Failed(LabelRequired)) && (|t| > 64 ==> r == Failed(LabelTooLong))
            && (1 <= |t| <= 64 ==>
                  if Find(db.rows, u, id).Some? && exists s :: s in db.rows && s.user == u && s.name == t && s.id != id
                  then r == Failed(DuplicateLabel) else r == Done)
  {
    TrimTrims(name);
  }

  /** A deletion removes that row of that user and no other. */
  lemma DeleteRemovesTheRow(db: Db, u: User, id: int)
    ensures forall r :: r in Delete(db, u, id).rows <==> r in db.rows && !(r.id == id && r.user == u)
  {
    WithoutMembers(db.rows, id, u);
  }

  lemma {:induction false} WithoutAt(list: seq<Row>, k: nat, u: User)
    requires DistinctIds(list) && k < |list| && list[k].user == u
    ensures Without(list, list[k].id, u) == list[..k] + list[k + 1..]
  {
    var rest, last := list[..|list| - 1], list[|list| - 1];
    assert list == rest + [last];
    if k < |rest| {
      WithoutAt(rest, k, u);
      assert rest[k].id != last.id;
      assert list[..k] + list[k + 1..] == rest[..k] + rest[k + 1..] + [last];
    } else {
      forall r | r in rest ensures !(r.id == list[k].id && r.user == u) {
        var i :| 0 <= i < |rest| && rest[i] == r;
        assert list[i].id != list[k].id;
      }
      NothingToDelete(rest, list[k].id, u);
      assert list[..k] + list[k + 1..] == rest;
    }
  }

  /** The user's list loses exactly that entry, in place; every other list stays. */
  lemma DeleteCutsTheList(db: Db, u: User, id: int, v: User)
    requires DistinctIds(db.rows)
    ensures var (list, after) := (Listing(db.rows, v), Listing(Delete(db, u, id).rows, v));
            && (v != u ==> after == list)
            && (forall k :: v == u && 0 <= k < |list| && list[k].id == id ==> after == list[..k] + list[k + 1..])
            && ((forall r :: r in list ==> r.id != id) ==> after == list)
  {
    var list := Listing(db.rows, v);
    ListingAfterDelete(db.rows, id, u, v);
    ListingLists(db.rows, v);
    ListIds(db.rows, v, list);
    if v != u || forall r :: r in list ==> r.id != id {
      NothingToDelete(list, id, u);
    }
    forall k | v == u && 0 <= k < |list| && list[k].id == id ensures Without(list, id, u) == list[..k] + list[k + 1..] {
      assert list[k] in list;
      WithoutAt(list, k, u);
    }
  }

  /** ClearPrimary drops exactly the first row of a list that is not empty. */
  lemma ClearPrimaryDropsTheFirst(db: Db, u: User, v: User)
    requires DistinctIds(db.rows)
    ensures var (list, after) := (Listing(db.rows, v), Listing(ClearPrimary(db, u).rows, v));
            after == if v == u && list != [] then list[1..] else list
  {
    var list := Listing(db.rows, u);
    if list != [] {
      ListingLists(db.rows, u);
      DeleteCutsTheList(db, u, list[0].id, v);
    }
  }

  // ----- The mirror -----

  /** users.location is the label of the first saved row, NULL when there is none. */
  ghost predicate Mirrors(db: Db, u: User) {
    u in db.mirror ==> db.mirror[u] == HeadName(Listing(db.rows, u))
  }

  ghost predicate Coherent(db: Db) {
    forall u :: Mirrors(db, u)
  }

  ghost predicate Capped(db: Db) {
    forall u :: |Listing(db.rows, u)| <= MAX_SAVED
  }

  ghost predicate Inv(db: Db) {
    DistinctIds(db.rows) && Capped(db) && Coherent(db)
  }

  lemma RefreshMirrors(db: Db, before: Db, u: User)
    requires db.mirror == before.mirror && Coherent(before)
    requires forall v :: v != u ==> Listing(db.rows, v) == Listing(before.rows, v)
    ensures Coherent(RefreshMirror(db, u))
  {
    forall v ensures Mirrors(RefreshMirror(db, u), v) {
      assert Mirrors(before, v);
    }
  }

  lemma AddMirror(db: Db, u: User, name: string, canonical: string, lat: real, lon: real, id: int)
    ensures var r := Add(db, u, name, canonical, lat, lon, id);
            r.db.mirror == if r.result.Saved? && Listing(db.rows, u) == [] then db.mirror[u := Some(r.result.row.name)]
                           else db.mirror
  {
  }

  lemma AddKeepsInv(db: Db, u: User, name: string, canonical: string, lat: real, lon: real, id: int)
    requires Inv(db) && FreshId(db.rows, id)
    ensures Inv(Add(db, u, name, canonical, lat, lon, id).db)
  {
    var r := Add(db, u, name, canonical, lat, lon, id);
    AddMirror(db, u, name, canonical, lat, lon, id);
    AddAppends(db, u, name, canonical, lat, lon, id, u);
    forall v ensures Mirrors(r.db, v) && |Listing(r.db.rows, v)| <= MAX_SAVED {
      AddAppends(db, u, name, canonical, lat, lon, id, v);
      assert Mirrors(db, v);
      assert |Listing(db.rows, v)| <= MAX_SAVED;
    }
  }

  lemma PrimaryMirror(db: Db, u: User, name: string, canonical: string, lat: real, lon: real, id: int)
    ensures var r := SetPrimary(db, u, name, canonical, lat, lon, id);
            r.db.mirror == if r.result.Saved? && u in db.mirror then db.mirror[u := Some(r.result.row.name)] else db.mirror
  {
  }

  lemma PrimaryKeepsInv(db: Db, u: User, name: string, canonical: string, lat: real, lon: real, id: int)
    requires Inv(db) && FreshId(db.rows, id) && HasRoom(Listing(db.rows, u))
    ensures Inv(SetPrimary(db, u, name, canonical, lat, lon, id).db)
  {
    var r := SetPrimary(db, u, name, canonical, lat, lon, id);
    PrimaryMirror(db, u, name, canonical, lat, lon, id);
    PrimaryIsFirst(db, u, name, canonical, lat, lon, id, u);
    forall v ensures Mirrors(r.db, v) && |Listing(r.db.rows, v)| <= MAX_SAVED {
      PrimaryIsFirst(db, u, name, canonical, lat, lon, id, v);
      assert Mirrors(db, v);
      assert |Listing(db.rows, v)| <= MAX_SAVED;
    }
  }

  lemma DeleteKeepsInv(db: Db, u: User, id: int)
    requires Inv(db)
    ensures Inv(Delete(db, u, id))
  {
    var rows := Without(db.rows, id, u);
    forall v ensures |Listing(rows, v)| <= MAX_SAVED && (v != u ==> Listing(rows, v) == Listing(db.rows, v)) {
      ListingAfterDelete(db.rows, id, u, v);
      WithoutMembers(Listing(db.rows, v), id, u);
      ListingLists(db.rows, v);
      if v != u {
        NothingToDelete(Listing(db.rows, v), id, u);
      }
      assert |Listing(db.rows, v)| <= MAX_SAVED;
    }
    WithoutKeepsDistinct(db.rows, id, u);
    RefreshMirrors(db.(rows := rows), db, u);
  }

  lemma RenameKeepsInv(db: Db, u: User, id: int, name: string)
    requires Inv(db)
    ensures Inv(Rename(db, u, id, name).db)
  {
    var r := Rename(db, u, id, name);
    RenameInPlace(db, u, id, name, u);
    forall v ensures |Listing(r.db.rows, v)| <= MAX_SAVED && (v != u ==> Listing(r.db.rows, v) == Listing(db.rows, v)) {
      RenameInPlace(db, u, id, name, v);
      assert |Listing(db.rows, v)| <= MAX_SAVED;
    }
    if r.result == Done {
      RefreshMirrors(db.(rows := r.db.rows), db, u);
    }
  }

  /** Setting a sort order, whatever it is, keeps everyone's rows and everyone else's list. */
  lemma SetSortKeepsRows(rows: seq<Row>, u: User, id: int, sort: int, v: User)
    requires DistinctIds(rows)
    ensures var p := SetSort(rows, u, id, sort);
            && DistinctIds(p) && |Listing(p, v)| == |Listing(rows, v)| && (v != u ==> Listing(p, v) == Listing(rows, v))
  {
    var f := Find(rows, u, id);
    if f.Some? {
      var row := f.value.(sort := sort);
      PutMembers(rows, f.value, row);
      if v == u {
        ListingCount(rows, u);
        ListingCount(Put(rows, row), u);
        PutKeepsOwners(rows, f.value, row, u);
      } else {
        OthersAfterPut(rows, f.value, row, v);
      }
    }
  }

  function Owned(rows: seq<Row>, u: User): nat {
    if rows == [] then 0 else Owned(rows[..|rows| - 1], u) + if rows[|rows| - 1].user == u then 1 else 0
  }

  lemma {:induction false} ListingCount(rows: seq<Row>, u: User)
    ensures |Listing(rows, u)| == Owned(rows, u)
  {
    if rows != [] {
      ListingCount(rows[..|rows| - 1], u);
      PlaceLength(rows[|rows| - 1], Listing(rows[..|rows| - 1], u));
    }
  }

  lemma {:induction false} PlaceLength(r: Row, list: seq<Row>)
    ensures |Place(r, list)| == |list| + 1
  {
    if list != [] {
      PlaceLength(r, list[1..]);
    }
  }

  lemma {:induction false} SameOwners(rows: seq<Row>, other: seq<Row>, u: User)
    requires |rows| == |other| && forall i :: 0 <= i < |rows| ==> rows[i].user == other[i].user
    ensures Owned(rows, u) == Owned(other, u)
  {
    if rows != [] {
      SameOwners(rows[..|rows| - 1], other[..|rows| - 1], u);
    }
  }

  lemma PutKeepsOwners(rows: seq<Row>, earlier: Row, row: Row, u: User)
    requires DistinctIds(rows) && earlier in rows && row.id == earlier.id && row.user == earlier.user
    ensures Owned(Put(rows, row), u) == Owned(rows, u)
  {
    forall i | 0 <= i < |rows| ensures Put(rows, row)[i].user == rows[i].user {
      if rows[i].id == row.id {
        SameId(rows, rows[i], earlier);
      }
    }
    SameOwners(rows, Put(rows, row), u);
  }

  lemma SwapKeepsInv(db: Db, u: User, a: Row, b: Row)
    requires Inv(db)
    ensures Inv(Swap(db, u, a, b))
  {
    var mid := SetSort(db.rows, u, a.id, b.sort);
    var rows := SetSort(mid, u, b.id, a.sort);
    SetSortKeepsRows(db.rows, u, a.id, b.sort, u);
    SetSortKeepsRows(mid, u, b.id, a.sort, u);
    forall v ensures |Listing(rows, v)| <= MAX_SAVED && (v != u ==> Listing(rows, v) == Listing(db.rows, v)) {
      SetSortKeepsRows(db.rows, u, a.id, b.sort, v);
      SetSortKeepsRows(mid, u, b.id, a.sort, v);
      assert |Listing(db.rows, v)| <= MAX_SAVED;
    }
    RefreshMirrors(db.(rows := rows), db, u);
  }

  lemma ClearKeepsInv(db: Db, u: User)
    requires Inv(db)
    ensures Inv(ClearPrimary(db, u))
  {
    var list := Listing(db.rows, u);
    if list == [] {
      assert |Listing(db.rows, u)| <= MAX_SAVED;
      RefreshMirrors(db, db, u);
    } else {
      DeleteKeepsInv(db, u, list[0].id);
    }
  }

  // ----- Runs -----

  datatype Step =
    | DoAdd(user: User, name: string, canonical: string, lat: real, lon: real, id: int)
    | DoSetPrimary(user: User, name: string, canonical: string, lat: real, lon: real, id: int)
    | DoSeed(user: User, name: string, canonical: string, lat: real, lon: real, id: int)
    | DoClearPrimary(user: User)
    | DoDelete(user: User, id: int)
    | DoRename(user: User, id: int, name: string)
    | DoSwap(user: User, a: Row, b: Row)

  function Apply(db: Db, s: Step): Db {
    match s
    case DoAdd(u, name, canonical, lat, lon, id) => Add(db, u, name, canonical, lat, lon, id).db
    case DoSetPrimary(u, name, canonical, lat, lon, id) => SetPrimary(db, u, name, canonical, lat, lon, id).db
    case DoSeed(u, name, canonical, lat, lon, id) => SeedFromProfile(db, u, name, canonical, lat, lon, id).db
    case DoClearPrimary(u) => ClearPrimary(db, u)
    case DoDelete(u, id) => Delete(db, u, id)
    case DoRename(u, id, name) => Rename(db, u, id, name).db
    case DoSwap(u, a, b) => Swap(db, u, a, b)
  }

  /** Inserted ids are new, and the first sort order is not at the end of its range. */
  ghost predicate StepOk(db: Db, s: Step) {
    match s
    case DoAdd(_, _, _, _, _, id) => FreshId(db.rows, id)
    case DoSeed(_, _, _, _, _, id) => FreshId(db.rows, id)
    case DoSetPrimary(u, _, _, _, _, id) => FreshId(db.rows, id) && HasRoom(Listing(db.rows, u))
    case _ => true
  }

  ghost predicate RunOk(db: Db, steps: seq<Step>)
    decreases |steps|
  {
    steps == [] || (StepOk(db, steps[0]) && RunOk(Apply(db, steps[0]), steps[1..]))
  }

  ghost function Run(db: Db, steps: seq<Step>): Db
    decreases |steps|
  {
    if steps == [] then db else Run(Apply(db, steps[0]), steps[1..])
  }

  lemma StepKeepsInv(db: Db, s: Step)
    requires Inv(db) && StepOk(db, s)
    ensures Inv(Apply(db, s))
  {
    match s
    case DoAdd(u, name, canonical, lat, lon, id) => AddKeepsInv(db, u, name, canonical, lat, lon, id);
    case DoSetPrimary(u, name, canonical, lat, lon, id) => PrimaryKeepsInv(db, u, name, canonical, lat, lon, id);
    case DoSeed(u, name, canonical, lat, lon, id) => AddKeepsInv(db, u, name, canonical, lat, lon, id);
    case DoClearPrimary(u) => ClearKeepsInv(db, u);
    case DoDelete(u, id) => DeleteKeepsInv(db, u, id);
    case DoRename(u, id, name) => RenameKeepsInv(db, u, id, name);
    case DoSwap(u, a, b) => SwapKeepsInv(db, u, a, b);
  }

  lemma {:induction false} RunKeepsInv(db: Db, steps: seq<Step>)
    requires Inv(db) && RunOk(db, steps)
    ensures Inv(Run(db, steps))
    decreases |steps|
  {
    if steps != [] {
      StepKeepsInv(db, steps[0]);
      RunKeepsInv(Apply(db, steps[0]), steps[1..]);
    }
  }

  /** users.location after every run: the first row's label, or NULL; and at most twelve rows. */
  lemma MirrorFollowsEveryRun(db: Db, steps: seq<Step>, u: User)
    requires Inv(db) && RunOk(db, steps)
    ensures var v := Run(db, steps);
            && |Listing(v.rows, u)| <= MAX_SAVED
            && (u in v.mirror ==>
                  v.mirror[u] == if Listing(v.rows, u) == [] then None else Some(Listing(v.rows, u)[0].name))
  {
    RunKeepsInv(db, steps);
    assert Mirrors(Run(db, steps), u);
    assert |Listing(Run(db, steps).rows, u)| <= MAX_SAVED;
  }

  // ----- Sort orders stay distinct -----

  ghost predicate SortsDistinct(db: Db) {
    forall u :: OwnSorts(Listing(db.rows, u))
  }

  /** A swap gets two rows of the list as it is now. */
  ghost predicate Current(db: Db, s: Step) {
    s.DoSwap? ==> s.a in Listing(db.rows, s.user) && s.b in Listing(db.rows, s.user)
  }

  lemma {:induction false} WithoutKeepsSorts(list: seq<Row>, id: int, u: User)
    requires OwnSorts(list)
    ensures OwnSorts(Without(list, id, u))
  {
    if list != [] {
      var rest, last := list[..|list| - 1], list[|list| - 1];
      WithoutKeepsSorts(rest, id, u);
      WithoutMembers(rest, id, u);
      var w := Without(rest, id, u);
      forall i | 0 <= i < |w| ensures w[i].sort < last.sort {
        assert w[i] in rest;
        var j :| 0 <= j < |rest| && rest[j] == w[i];
        assert list[j].sort < last.sort;
      }
    }
  }

  lemma AddKeepsSorts(db: Db, u: User, name: string, canonical: string, lat: real, lon: real, id: int)
    requires DistinctIds(db.rows) && SortsDistinct(db) && FreshId(db.rows, id)
    ensures SortsDistinct(Add(db, u, name, canonical, lat, lon, id).db)
  {
    var r := Add(db, u, name, canonical, lat, lon, id);
    forall v ensures OwnSorts(Listing(r.db.rows, v)) {
      AddAppends(db, u, name, canonical, lat, lon, id, v);
      assert OwnSorts(Listing(db.rows, v));
    }
  }

  lemma FrontKeepsSorts(list: seq<Row>, row: Row, u: User)
    requires OwnSorts(list) && (list == [] || row.sort < list[0].sort)
    ensures OwnSorts([row] + Without(list, row.id, u))
  {
    var w := Without(list, row.id, u);
    WithoutKeepsSorts(list, row.id, u);
    WithoutMembers(list, row.id, u);
    forall i | 0 <= i < |w| ensures row.sort < w[i].sort {
      assert w[i] in list;
      var j :| 0 <= j < |list| && list[j] == w[i];
      assert j > 0 ==> list[0].sort < list[j].sort;
    }
  }

  lemma PrimaryRow(db: Db, u: User, name: string, canonical: string, lat: real, lon: real, id: int)
    ensures var r, list := SetPrimary(db, u, name, canonical, lat, lon, id), Listing(db.rows, u);
            r.result.Saved? ==> if FirstNear(list, lat, lon) == 0 < |list| then r.db.rows == db.rows
                                else r.result.row.sort == HeadSort(list)
  {
  }

  lemma PrimaryKeepsSorts(db: Db, u: User, name: string, canonical: string, lat: real, lon: real, id: int)
    requires DistinctIds(db.rows) && SortsDistinct(db) && FreshId(db.rows, id) && HasRoom(Listing(db.rows, u))
    ensures SortsDistinct(SetPrimary(db, u, name, canonical, lat, lon, id).db)
  {
    var r, list := SetPrimary(db, u, name, canonical, lat, lon, id), Listing(db.rows, u);
    PrimaryRow(db, u, name, canonical, lat, lon, id);
    assert OwnSorts(list);
    forall v ensures OwnSorts(Listing(r.db.rows, v)) {
      PrimaryIsFirst(db, u, name, canonical, lat, lon, id, v);
      assert OwnSorts(Listing(db.rows, v));
      if v == u && r.result.Saved? && !(FirstNear(list, lat, lon) == 0 < |list|) {
        FrontKeepsSorts(list, r.result.row, u);
      }
    }
  }

  lemma DeleteKeepsSorts(db: Db, u: User, id: int)
    requires DistinctIds(db.rows) && SortsDistinct(db)
    ensures SortsDistinct(Delete(db, u, id))
  {
    forall v ensures OwnSorts(Listing(Without(db.rows, id, u), v)) {
      ListingAfterDelete(db.rows, id, u, v);
      assert OwnSorts(Listing(db.rows, v));
      WithoutKeepsSorts(Listing(db.rows, v), id, u);
    }
  }

  lemma RenameKeepsSorts(db: Db, u: User, id: int, name: string)
    requires DistinctIds(db.rows) && SortsDistinct(db)
    ensures SortsDistinct(Rename(db, u, id, name).db)
  {
    var r, f, list := Rename(db, u, id, name), Find(db.rows, u, id), Listing(db.rows, u);
    forall v ensures OwnSorts(Listing(r.db.rows, v)) {
      RenameInPlace(db, u, id, name, v);
      assert OwnSorts(Listing(db.rows, v));
      if v == u && f.Some? {
        ListingLists(db.rows, u);
        ListIds(db.rows, u, list);
        PutKeepsSorts(list, f.value, f.value.(name := Trim(name)));
      }
    }
  }

  lemma PutKeepsSorts(list: seq<Row>, earlier: Row, row: Row)
    requires OwnSorts(list) && DistinctIds(list) && earlier in list && row.id == earlier.id && row.sort == earlier.sort
    ensures OwnSorts(Put(list, row))
  {
    var p := Put(list, row);
    forall i | 0 <= i < |p| ensures p[i].sort == list[i].sort {
      if list[i].id == row.id { SameId(list, list[i], earlier); }
    }
  }

  lemma PutSame(rows: seq<Row>, row: Row)
    requires DistinctIds(rows) && row in rows
    ensures Put(rows, row) == rows
  {
    forall i | 0 <= i < |rows| ensures Put(rows, row)[i] == rows[i] {
      if rows[i].id == row.id { SameId(rows, rows[i], row); }
    }
  }

  lemma SwapKeepsSorts(db: Db, u: User, a: Row, b: Row)
    requires DistinctIds(db.rows) && SortsDistinct(db) && a in Listing(db.rows, u) && b in Listing(db.rows, u)
    ensures SortsDistinct(Swap(db, u, a, b))
  {
    var list := Listing(db.rows, u);
    assert OwnSorts(list);
    var i :| 0 <= i < |list| && list[i] == a;
    var j :| 0 <= j < |list| && list[j] == b;
    if i == j {
      ListingLists(db.rows, u);
      FindIs(db.rows, a);
      PutSame(db.rows, a);
    } else {
      SwapTransposes(db, u, i, j);
    }
    var v := Swap(db, u, a, b);
    forall w ensures OwnSorts(Listing(v.rows, w)) {
      assert OwnSorts(Listing(db.rows, w));
    }
  }

  /** From distinct sort orders, every run whose swaps get current rows keeps them distinct. */
  lemma StepKeepsSorts(db: Db, s: Step)
    requires DistinctIds(db.rows) && SortsDistinct(db) && StepOk(db, s) && Current(db, s)
    ensures SortsDistinct(Apply(db, s))
  {
    match s
    case DoAdd(u, name, canonical, lat, lon, id) => AddKeepsSorts(db, u, name, canonical, lat, lon, id);
    case DoSetPrimary(u, name, canonical, lat, lon, id) => PrimaryKeepsSorts(db, u, name, canonical, lat, lon, id);
    case DoSeed(u, name, canonical, lat, lon, id) => AddKeepsSorts(db, u, name, canonical, lat, lon, id);
    case DoClearPrimary(u) =>
      if Listing(db.rows, u) != [] { DeleteKeepsSorts(db, u, Listing(db.rows, u)[0].id); }
    case DoDelete(u, id) => DeleteKeepsSorts(db, u, id);
    case DoRename(u, id, name) => RenameKeepsSorts(db, u, id, name);
    case DoSwap(u, a, b) => SwapKeepsSorts(db, u, a, b);
  }

  ghost predicate AllCurrent(db: Db, steps: seq<Step>)
    decreases |steps|
  {
    steps == [] || (Current(db, steps[0]) && AllCurrent(Apply(db, steps[0]), steps[1..]))
  }

  lemma {:induction false} RunKeepsSorts(db: Db, steps: seq<Step>)
    requires Inv(db) && SortsDistinct(db) && RunOk(db, steps) && AllCurrent(db, steps)
    ensures SortsDistinct(Run(db, steps))
    decreases |steps|
  {
    if steps != [] {
      StepKeepsInv(db, steps[0]);
      StepKeepsSorts(db, steps[0]);
      RunKeepsSorts(Apply(db, steps[0]), steps[1..]);
    }
  }

  // ----- Labels -----

  /** The unique index on (user_id, label). */
  ghost predicate OwnNames(rows: seq<Row>) {
    forall r, s :: r in rows && s in rows && r.user == s.user && r.name == s.name ==> r == s
  }

  lemma SetSortKeepsNames(rows: seq<Row>, u: User, id: int, sort: int)
    requires DistinctIds(rows) && OwnNames(rows)
    ensures OwnNames(SetSort(rows, u, id, sort))
  {
    var f := Find(rows, u, id);
    if f.Some? {
      PutMembers(rows, f.value, f.value.(sort := sort));
    }
  }

  lemma RenameKeepsNames(db: Db, u: User, id: int, name: string)
    requires DistinctIds(db.rows) && OwnNames(db.rows)
    ensures OwnNames(Rename(db, u, id, name).db.rows)
  {
    var f := Find(db.rows, u, id);
    if f.Some? && !NameTaken(db.rows, u, Trim(name), id) {
      PutMembers(db.rows, f.value, f.value.(name := Trim(name)));
    }
  }

  lemma InsertKeepsNames(db: Db, row: Row)
    requires OwnNames(db.rows)
    ensures OwnNames(Insert(db, row).db.rows)
  {
  }

  lemma AddKeepsNames(db: Db, u: User, name: string, canonical: string, lat: real, lon: real, id: int)
    requires OwnNames(db.rows)
    ensures OwnNames(Add(db, u, name, canonical, lat, lon, id).db.rows)
  {
    InsertKeepsNames(db, Row(id, u, Trim(name), lat, lon, Canonical(canonical), NextSort(Listing(db.rows, u))));
  }

  lemma PromoteKeepsNames(db: Db, u: User, i: nat)
    requires DistinctIds(db.rows) && OwnNames(db.rows) && i < |Listing(db.rows, u)|
    ensures OwnNames(Promote(db, u, i).db.rows)
  {
    var list := Listing(db.rows, u);
    if i > 0 {
      ListingLists(db.rows, u);
      assert list[i] in list;
      PutMembers(db.rows, list[i], list[i].(sort := HeadSort(list)));
    }
  }

  lemma PrimaryKeepsNames(db: Db, u: User, name: string, canonical: string, lat: real, lon: real, id: int)
    requires DistinctIds(db.rows) && OwnNames(db.rows)
    ensures OwnNames(SetPrimary(db, u, name, canonical, lat, lon, id).db.rows)
  {
    var list := Listing(db.rows, u);
    var i := FirstNear(list, lat, lon);
    InsertKeepsNames(db, Row(id, u, Trim(name), lat, lon, Canonical(canonical), HeadSort(list)));
    if i < |list| {
      PromoteKeepsNames(db, u, i);
    }
  }

  lemma WithoutKeepsNames(rows: seq<Row>, id: int, u: User)
    requires OwnNames(rows)
    ensures OwnNames(Without(rows, id, u))
  {
    WithoutMembers(rows, id, u);
  }

  lemma SwapKeepsNames(db: Db, u: User, a: Row, b: Row)
    requires DistinctIds(db.rows) && OwnNames(db.rows)
    ensures OwnNames(Swap(db, u, a, b).rows)
  {
    SetSortKeepsNames(db.rows, u, a.id, b.sort);
    SetSortKeepsRows(db.rows, u, a.id, b.sort, u);
    SetSortKeepsNames(SetSort(db.rows, u, a.id, b.sort), u, b.id, a.sort);
  }

  lemma StepKeepsNames(db: Db, s: Step)
    requires DistinctIds(db.rows) && OwnNames(db.rows)
    ensures OwnNames(Apply(db, s).rows)
  {
    match s
    case DoAdd(u, name, canonical, lat, lon, id) => AddKeepsNames(db, u, name, canonical, lat, lon, id);
    case DoSetPrimary(u, name, canonical, lat, lon, id) => PrimaryKeepsNames(db, u, name, canonical, lat, lon, id);
    case DoSeed(u, name, canonical, lat, lon, id) => AddKeepsNames(db, u, name, canonical, lat, lon, id);
    case DoClearPrimary(u) =>
      if Listing(db.rows, u) != [] { WithoutKeepsNames(db.rows, Listing(db.rows, u)[0].id, u); }
    case DoDelete(u, id) => WithoutKeepsNames(db.rows, id, u);
    case DoRename(u, id, name) => RenameKeepsNames(db, u, id, name);
    case DoSwap(u, a, b) => SwapKeepsNames(db, u, a, b);
  }

  /** No run gives a user two rows with one label. */
  lemma {:induction false} RunKeepsNames(db: Db, steps: seq<Step>)
    requires Inv(db) && OwnNames(db.rows) && RunOk(db, steps)
    ensures OwnNames(Run(db, steps).rows)
    decreases |steps|
  {
    if steps != [] {
      StepKeepsInv(db, steps[0]);
      StepKeepsNames(db, steps[0]);
      RunKeepsNames(Apply(db, steps[0]), steps[1..]);
    }
  }

  // ----- The end of the sort order's range -----

  lemma HeadIs(rows: seq<Row>, u: User, head: Row)
    requires DistinctIds(rows) && head in rows && head.user == u
    requires forall r :: r in rows && r.user == u ==> r == head || Less(head, r)
    ensures Listing(rows, u) != [] && Listing(rows, u)[0] == head
  {
    var list := Listing(rows, u);
    ListingLists(rows, u);
    assert head in list;
    HeadIsLeast(list, head);
    assert list[0] in list;
  }

  /** A row numbered "before" the first one wraps around to the largest sort order: the first row stays. */
  lemma WrappedStaysBehind(rows: seq<Row>, row: Row, after: seq<Row>)
    requires DistinctIds(rows) && Listing(rows, row.user) != [] && !HasRoom(Listing(rows, row.user))
    requires row.sort == MAX_INT32 && row.id != Listing(rows, row.user)[0].id && DistinctIds(after)
    requires forall r :: r in after <==> (r in rows && r.id != row.id) || r == row
    requires forall r :: r in rows && r.user == row.user ==> r.sort >= MIN_INT32
    ensures Listing(after, row.user) != [] && Listing(after, row.user)[0] == Listing(rows, row.user)[0]
  {
    var list := Listing(rows, row.user);
    var head := list[0];
    ListingLists(rows, row.user);
    assert head in list;
    forall r | r in after && r.user == row.user ensures r == head || Less(head, r) {
      if r != row {
        assert r in list;
        HeadIsLeast(list, r);
      }
    }
    HeadIs(after, row.user, head);
  }

  predicate Int32(db: Db) {
    forall r :: r in db.rows ==> MIN_INT32 <= r.sort <= MAX_INT32
  }

  lemma PromoteWraps(db: Db, u: User, i: nat)
    requires Inv(db) && Int32(db) && OwnNames(db.rows) && u in db.mirror
    requires 0 < i < |Listing(db.rows, u)| && !HasRoom(Listing(db.rows, u))
    ensures !Mirrors(Promote(db, u, i).db, u)
  {
    var list, row := Listing(db.rows, u), Promote(db, u, i).result.row;
    ListingLists(db.rows, u);
    ListIds(db.rows, u, list);
    assert list[0] in list && list[i] in list && list[0].id != list[i].id;
    PutMembers(db.rows, list[i], row);
    WrappedStaysBehind(db.rows, row, Put(db.rows, row));
    assert list[0].name != list[i].name;
  }

  lemma AddFirstWraps(db: Db, row: Row)
    requires Inv(db) && Int32(db) && FreshId(db.rows, row.id)
    requires !HasRoom(Listing(db.rows, row.user)) && row.sort == HeadSort(Listing(db.rows, row.user))
    requires AddFirst(db, row).result.Saved?
    ensures !Mirrors(AddFirst(db, row).db, row.user)
  {
    var list := Listing(db.rows, row.user);
    ListingLists(db.rows, row.user);
    assert list[0] in list;
    ListingAfterInsert(db.rows, row, row.user);
    WrappedStaysBehind(db.rows, row, db.rows + [row]);
    assert list[0].name != row.name;
  }

  /** SetPrimaryFromGeocode refuses, before anything is written, exactly what is invalid, and a new row over the
      cap or with a label of the user's own. */
  lemma PrimaryFails(db: Db, u: User, name: string, canonical: string, lat: real, lon: real, id: int)
    requires u in db.mirror
    ensures var list := Listing(db.rows, u);
            SetPrimary(db, u, name, canonical, lat, lon, id).result.Failed?
            <==> Invalid(Trim(name), lat, lon).Some?
                 || (FirstNear(list, lat, lon) == |list| && (|list| >= MAX_SAVED || LabelTaken(db.rows, u, Trim(name))))
    ensures var r := SetPrimary(db, u, name, canonical, lat, lon, id); r.result.Failed? ==> r.db == db
    ensures !SetPrimary(db, u, name, canonical, lat, lon, id).result.Done?
  {
  }

  /** SetPrimaryFromGeocode leaves the mirror right exactly when the first sort order is above the least
      32-bit number, or the call is refused, or the first row is the near one. */
  lemma PrimaryIsMirrored(db: Db, u: User, name: string, canonical: string, lat: real, lon: real, id: int)
    requires Inv(db) && Int32(db) && OwnNames(db.rows) && FreshId(db.rows, id) && u in db.mirror
    ensures var (list, l) := (Listing(db.rows, u), Trim(name));
            var i := FirstNear(list, lat, lon);
            Mirrors(SetPrimary(db, u, name, canonical, lat, lon, id).db, u)
            <==> HasRoom(list) || Invalid(l, lat, lon).Some? || i == 0
                 || (i == |list| && (|list| >= MAX_SAVED || LabelTaken(db.rows, u, l)))
  {
    var r, list := SetPrimary(db, u, name, canonical, lat, lon, id), Listing(db.rows, u);
    var i := FirstNear(list, lat, lon);
    PrimaryFails(db, u, name, canonical, lat, lon, id);
    assert Mirrors(db, u);
    if HasRoom(list) {
      PrimaryKeepsInv(db, u, name, canonical, lat, lon, id);
    } else if r.result.Saved? && 0 < i < |list| {
      PromoteWraps(db, u, i);
    } else if r.result.Saved? && i == |list| {
      AddFirstWraps(db, Row(id, u, Trim(name), lat, lon, Canonical(canonical), HeadSort(list)));
    }
  }

  lemma ListingOfOne(row: Row, u: User)
    ensures Listing([row], u) == if row.user == u then [row] else []
  {
    assert [row][..0] == [];
  }

  /** Such a state: one row at the least sort order, and a second place made primary. The new row is listed last,
      and the mirror names it. */
  lemma AMirrorGoesWrong(u: User, a: Row) returns (db: Db)
    requires a == Row(1, u, "Bergen", 60.4, 5.3, None, MIN_INT32)
    ensures Inv(db) && Int32(db) && OwnNames(db.rows) && u in db.mirror && Listing(db.rows, u) == [a]
    ensures SetPrimary(db, u, "Oslo", "", 59.9, 10.7, 2).result.Saved?
    ensures !Mirrors(SetPrimary(db, u, "Oslo", "", 59.9, 10.7, 2).db, u)
  {
    db := Db([a], map[u := Some("Bergen")]);
    forall v ensures Mirrors(db, v) && |Listing(db.rows, v)| <= MAX_SAVED {
      ListingOfOne(a, v);
    }
    assert Listing(db.rows, u) == [a];
    assert !Near(a, 59.9, 10.7);
    assert FirstNear([a], 59.9, 10.7) == 1;
    assert Trim("Oslo") == "Oslo";
    assert !LabelTaken(db.rows, u, "Oslo");
    PrimaryFails(db, u, "Oslo", "", 59.9, 10.7, 2);
    PrimaryIsMirrored(db, u, "Oslo", "", 59.9, 10.7, 2);
  }

  /** LIMIT 1: nothing exactly for a user without rows, and otherwise the least row. */
  lemma FirstIsLeast(rows: seq<Row>, u: User)
    ensures Listing(rows, u) == [] <==> forall s :: s in rows ==> s.user != u
    ensures DistinctIds(rows) && Listing(rows, u) != [] ==>
              var head := Listing(rows, u)[0];
              head in rows && head.user == u && forall s :: s in rows && s.user == u ==> s == head || Less(head, s)
  {
    var list := Listing(rows, u);
    ListingMembers(rows, u);
    if list != [] {
      assert list[0] in list;
      if DistinctIds(rows) {
        ListingLists(rows, u);
        forall s | s in rows && s.user == u ensures s == list[0] || Less(list[0], s) {
          HeadIsLeast(list, s);
        }
      }
    } else {
      forall s | s in rows ensures s.user != u {
        assert s !in list;
      }
    }
  }

  // ----- The service -----

  class LocationService {
    var rows: seq<Row>
    var mirror: map<User, Option<string>>

    constructor (db: Db)
      ensures View() == db
    {
      rows, mirror := db.rows, db.mirror;
    }

    function View(): Db
      reads this
    {
      Db(rows, mirror)
    }

    method GetPrimary(u: User) returns (r: Option<Row>)
      ensures r == if Listing(rows, u) == [] then None else Some(Listing(rows, u)[0])
      ensures r.None? <==> forall s :: s in rows ==> s.user != u
      ensures DistinctIds(rows) && r.Some? ==>
                r.value in rows && r.value.user == u
                && forall s :: s in rows && s.user == u ==> s == r.value || Less(r.value, s)
    {
      var list := Listing(rows, u);
      FirstIsLeast(rows, u);
      return if list == [] then None else Some(list[0]);
    }

    method SetUserLocationLabel(u: User, name: Option<string>)
      modifies this`mirror
      ensures View() == SetMirror(old(View()), u, name)
    {
      if u in mirror {
        mirror := mirror[u := name];
      }
    }

    method RefreshMirrorOf(u: User)
      modifies this`mirror
      ensures View() == RefreshMirror(old(View()), u)
    {
      var primary := GetPrimary(u);
      var name := if primary.Some? then Some(primary.value.name) else None;
      SetUserLocationLabel(u, name);
    }

    method AddUserSavedLocation(row: Row) returns (r: Result)
      modifies this`rows
      ensures Reply(View(), r) == Insert(old(View()), row)
    {
      if row.user !in mirror {
        return Failed(OtherError);
      }
      if LabelTaken(rows, row.user, row.name) {
        return Failed(DuplicateLabel);
      }
      rows := rows + [row];
      return Saved(row);
    }

    method AddLocation(u: User, name: string, canonical: string, lat: real, lon: real, id: int) returns (r: Result)
      modifies this
      ensures Reply(View(), r) == Add(old(View()), u, name, canonical, lat, lon, id)
      ensures r.Saved? ==> IsPlace(r.row, u, name, canonical, lat, lon, id) && rows == old(rows) + [r.row]
    {
      AddSavesThePlace(View(), u, name, canonical, lat, lon, id);
      var l, c := Trim(name), Trim(canonical);
      if l == "" {
        return Failed(LabelRequired);
      }
      if |l| > MAX_LABEL {
        return Failed(LabelTooLong);
      }
      if |c| > MAX_CANONICAL {
        c := c[..MAX_CANONICAL];
      }
      if lat < -90.0 || lat > 90.0 {
        return Failed(BadLatitude);
      }
      if lon < -180.0 || lon > 180.0 {
        return Failed(BadLongitude);
      }
      r := AddChecked(u, l, if c != "" then Some(c) else None, lat, lon, id);
    }

    method AddChecked(u: User, l: string, c: Option<string>, lat: real, lon: real, id: int) returns (r: Result)
      modifies this
      ensures Reply(View(), r) == AddLast(old(View()), Row(id, u, l, lat, lon, c, NextSort(Listing(old(rows), u))))
    {
      var existing := Listing(rows, u);
      if |existing| >= MAX_SAVED {
        return Failed(LimitReached);
      }
      var next := NextSort(existing);
      if next > MAX_INT32 {
        return Failed(OtherError);
      }
      r := AddUserSavedLocation(Row(id, u, l, lat, lon, c, next));
      if r.Saved? && |existing| == 0 {
        SetUserLocationLabel(u, Some(l));
      }
    }

    method SetPrimaryFromGeocode(u: User, name: string, canonical: string, lat: real, lon: real, id: int)
      returns (r: Result)
      modifies this
      ensures Reply(View(), r) == SetPrimary(old(View()), u, name, canonical, lat, lon, id)
    {
      var l, c := Trim(name), Trim(canonical);
      if l == "" {
        return Failed(LabelRequired);
      }
      if |l| > MAX_LABEL {
        return Failed(LabelTooLong);
      }
      if lat < -90.0 || lat > 90.0 {
        return Failed(BadLatitude);
      }
      if lon < -180.0 || lon > 180.0 {
        return Failed(BadLongitude);
      }
      if |c| > MAX_CANONICAL {
        c := c[..MAX_CANONICAL];
      }
      var existing := Listing(rows, u);
      var i := MatchIndex(existing, lat, lon);
      if i < |existing| {
        r := PromoteRow(u, existing, i);
      } else {
        r := AddPrimary(u, existing, l, if c != "" then Some(c) else None, lat, lon, id);
      }
    }

    static method MatchIndex(existing: seq<Row>, lat: real, lon: real) returns (i: nat)
      ensures i == FirstNear(existing, lat, lon)
      ensures i <= |existing| && (i < |existing| ==> Within(existing[i], lat, lon))
      ensures forall j :: 0 <= j < i ==> !Within(existing[j], lat, lon)
    {
      forall r ensures Near(r, lat, lon) <==> Within(r, lat, lon) {
        NearIsWithin(r, lat, lon);
      }
      i := 0;
      while i < |existing|
        invariant i <= |existing|
        invariant FirstNear(existing, lat, lon) == i + FirstNear(existing[i..], lat, lon)
      {
        if Near(existing[i], lat, lon) {
          return;
        }
        assert existing[i..][1..] == existing[i + 1..];
        i := i + 1;
      }
    }

    method PromoteRow(u: User, existing: seq<Row>, i: nat) returns (r: Result)
      requires existing == Listing(rows, u) && i < |existing|
      modifies this
      ensures Reply(View(), r) == Promote(old(View()), u, i)
    {
      var row := existing[i];
      if i > 0 {
        var head := existing[0].sort;
        row := row.(sort := if head == MIN_INT32 then MAX_INT32 else head - 1);
        rows := Put(rows, row);
      }
      SetUserLocationLabel(u, Some(row.name));
      return Saved(row);
    }

    method AddPrimary(u: User, existing: seq<Row>, l: string, c: Option<string>, lat: real, lon: real, id: int)
      returns (r: Result)
      requires existing == Listing(rows, u)
      modifies this
      ensures Reply(View(), r) == AddFirst(old(View()), Row(id, u, l, lat, lon, c, HeadSort(existing)))
    {
      if |existing| >= MAX_SAVED {
        return Failed(LimitReached);
      }
      r := AddUserSavedLocation(Row(id, u, l, lat, lon, c, HeadSort(existing)));
      if r.Saved? {
        SetUserLocationLabel(u, Some(l));
      }
    }

    method DeleteLocation(u: User, id: int)
      modifies this
      ensures View() == Delete(old(View()), u, id)
      ensures forall r :: r in rows <==> r in old(rows) && !(r.id == id && r.user == u)
    {
      DeleteRemovesTheRow(View(), u, id);
      rows := Without(rows, id, u);
      RefreshMirrorOf(u);
    }

    method ClearPrimaryOf(u: User)
      modifies this
      ensures View() == ClearPrimary(old(View()), u)
      ensures DistinctIds(old(rows)) ==>
                forall v :: Listing(rows, v) == if v == u && Listing(old(rows), v) != [] then Listing(old(rows), v)[1..]
                                                else Listing(old(rows), v)
    {
      ghost var before := View();
      forall v | DistinctIds(rows)
        ensures Listing(ClearPrimary(before, u).rows, v)
             == if v == u && Listing(before.rows, v) != [] then Listing(before.rows, v)[1..] else Listing(before.rows, v)
      {
        ClearPrimaryDropsTheFirst(before, u, v);
      }
      var primary := GetPrimary(u);
      if primary.None? {
        RefreshMirrorOf(u);
        return;
      }
      DeleteLocation(u, primary.value.id);
    }

    method RenameLocation(u: User, id: int, name: string) returns (r: Result)
      modifies this
      ensures Reply(View(), r) == Rename(old(View()), u, id, name)
    {
      var l := Trim(name);
      if l == "" {
        return Failed(LabelRequired);
      }
      if |l| > MAX_LABEL {
        return Failed(LabelTooLong);
      }
      var f := Find(rows, u, id);
      if f.Some? {
        if NameTaken(rows, u, l, id) {
          return Failed(DuplicateLabel);
        }
        rows := Put(rows, f.value.(name := l));
      }
      RefreshMirrorOf(u);
      return Done;
    }

    method SwapLocations(u: User, a: Row, b: Row)
      modifies this
      ensures View() == Swap(old(View()), u, a, b)
    {
      rows := SetSort(rows, u, a.id, b.sort);
      rows := SetSort(rows, u, b.id, a.sort);
      RefreshMirrorOf(u);
    }

    method Seed(u: User, name: string, canonical: string, lat: real, lon: real, id: int) returns (r: Result)
      modifies this
      ensures Reply(View(), r) == SeedFromProfile(old(View()), u, name, canonical, lat, lon, id)
    {
      var existing := Listing(rows, u);
      if |existing| > 0 {
        return Done;
      }
      r := AddLocation(u, name, canonical, lat, lon, id);
    }
  }
}
