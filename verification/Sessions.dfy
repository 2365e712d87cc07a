/** The web session store of internal/web/sessions.go over Redis: a hash per session, a set of session
    ids per user, both with sliding expiry.

    A key whose expiry has passed is missing.  HSET on a missing key creates it, EXPIRE on a missing key
    does nothing, SREM of the last member deletes the set. */
module Sessions {
  import opened Common

  type Sid = string
  type Uid = int

  /** web:session:{sid}; `uid` and `ts` are missing in a row that only a refresh has written. */
  datatype Row = Row(uid: Option<Uid>, ua: string, ip: string, ts: Option<int>, seen: int, expires: int)

  /** web:user:{uid}. */
  datatype Index = Index(sids: set<Sid>, expires: int)

  datatype Db = Db(rows: map<Sid, Row>, users: map<Uid, Index>, now: int)

  const SECOND: int := 1_000_000_000

  function Unix(now: int): int { now / SECOND }

  // ----- Redis -----

  predicate RowLive(db: Db, sid: Sid) {
    sid in db.rows && db.now < db.rows[sid].expires
  }

  predicate IndexLive(db: Db, u: Uid) {
    u in db.users && db.now < db.users[u].expires
  }

  function Members(db: Db, u: Uid): set<Sid> {
    if IndexLive(db, u) then db.users[u].sids else {}
  }

  /** HGET sid uid. */
  function FetchUid(db: Db, sid: Sid): Option<Uid> {
    if RowLive(db, sid) then db.rows[sid].uid else None
  }

  function DelRow(db: Db, sid: Sid): Db {
    db.(rows := db.rows - {sid})
  }

  function SRem(db: Db, u: Uid, sid: Sid): Db {
    if Members(db, u) - {sid} == {} then db.(users := db.users - {u})
    else db.(users := db.users[u := db.users[u].(sids := Members(db, u) - {sid})])
  }

  // ----- The store -----

  function SetSession(db: Db, timeout: int, sid: Sid, u: Uid, ua: string, ip: string): Db {
    db.(rows := db.rows[sid := Row(Some(u), ua, ip, Some(Unix(db.now)), Unix(db.now), db.now + timeout)],
        users := db.users[u := Index(Members(db, u) + {sid}, db.now + timeout)])
  }

  /** The second half of Read: bump `seen`, extend the row and the index of the user found before. */
  function Refresh(db: Db, timeout: int, sid: Sid, u: Uid): Db {
    var row := if RowLive(db, sid) then db.rows[sid] else Row(None, "", "", None, 0, 0);
    db.(rows := db.rows[sid := row.(seen := Unix(db.now), expires := db.now + timeout)],
        users := if IndexLive(db, u) then db.users[u := db.users[u].(expires := db.now + timeout)] else db.users)
  }

  function ReadSession(db: Db, timeout: int, sid: Sid): (Option<Uid>, Db) {
    if sid == "" then (None, db)
    else
      match FetchUid(db, sid)
      case None => (None, db)
      case Some(u) => (Some(u), Refresh(db, timeout, sid, u))
  }

  function ClearSession(db: Db, sid: Sid): Db {
    if sid == "" then db
    else
      match FetchUid(db, sid)
      case None => DelRow(db, sid)
      case Some(u) => SRem(DelRow(db, sid), u, sid)
  }

  function ClearAll(db: Db, u: Uid): Db {
    db.(rows := db.rows - Members(db, u), users := db.users - {u})
  }

  function Revoke(db: Db, u: Uid, sid: Sid): Db {
    match FetchUid(db, sid)
    case None => SRem(db, u, sid)
    case Some(v) => if v == u then SRem(DelRow(db, sid), u, sid) else db
  }

  /** The ids List reports, and what it leaves behind: stale index entries are dropped. */
  function Listed(db: Db, u: Uid): set<Sid> {
    set sid | sid in Members(db, u) && RowLive(db, sid)
  }

  /** After List, the index holds the reported ids. */
  function Pruned(db: Db, u: Uid): Db {
    Restricted(db, u, Listed(db, u))
  }

  /** The index of `u` cut down to `kept`; an emptied set is gone. */
  function Restricted(db: Db, u: Uid, kept: set<Sid>): Db
    requires kept <= Members(db, u)
  {
    if kept == Members(db, u) then db
    else if kept == {} then db.(users := db.users - {u})
    else db.(users := db.users[u := db.users[u].(sids := kept)])
  }

  // ----- Runs: every operation a step, Read also in two halves -----

  /** The database and the Reads that have fetched a uid but not yet refreshed. */
  datatype Sys = Sys(db: Db, pending: set<(Sid, Uid)>)

  datatype Step =
    | Set(sid: Sid, uid: Uid, ua: string, ip: string)
    | Read(sid: Sid)
    | Fetch(sid: Sid)
    | Finish(sid: Sid, uid: Uid)
    | Clear(sid: Sid)
    | ClearAllForUser(uid: Uid)
    | RevokeOne(uid: Uid, sid: Sid)
    | List(uid: Uid)
    | Tick(elapsed: nat)

  /** A session id that nothing refers to: 256 random bits never repeat one. */
  ghost predicate Unused(s: Sys, sid: Sid) {
    && sid !in s.db.rows
    && (forall u :: u in s.db.users ==> sid !in s.db.users[u].sids)
    && (forall p :: p in s.pending ==> p.0 != sid)
  }

  ghost predicate Enabled(s: Sys, step: Step) {
    match step
    case Set(sid, _, _, _) => Unused(s, sid)
    case Finish(sid, u) => (sid, u) in s.pending
    case _ => true
  }

  function Apply(s: Sys, timeout: int, step: Step): Sys {
    match step
    case Set(sid, u, ua, ip) => s.(db := SetSession(s.db, timeout, sid, u, ua, ip))
    case Read(sid) => s.(db := ReadSession(s.db, timeout, sid).1)
    case Fetch(sid) =>
      if FetchUid(s.db, sid).Some? then s.(pending := s.pending + {(sid, FetchUid(s.db, sid).value)}) else s
    case Finish(sid, u) => s.(db := Refresh(s.db, timeout, sid, u))
    case Clear(sid) => s.(db := ClearSession(s.db, sid))
    case ClearAllForUser(u) => s.(db := ClearAll(s.db, u))
    case RevokeOne(u, sid) => s.(db := Revoke(s.db, u, sid))
    case List(u) => s.(db := Pruned(s.db, u))
    case Tick(d) => s.(db := s.db.(now := s.db.now + d))
  }

  /** A live session: the row is there and names its user. */
  predicate Session(db: Db, sid: Sid, u: Uid) {
    FetchUid(db, sid) == Some(u)
  }

  /** The session's id is in its user's live index, which expires no earlier. */
  ghost predicate Indexed(db: Db, sid: Sid, u: Uid) {
    Session(db, sid, u) ==> IndexLive(db, u) && sid in db.users[u].sids && db.rows[sid].expires <= db.users[u].expires
  }

  ghost predicate Inv(s: Sys, timeout: int) {
    && (forall sid, u :: Indexed(s.db, sid, u))
    && (forall sid :: sid in s.db.rows ==> s.db.rows[sid].expires <= s.db.now + timeout)
    && (forall u :: u in s.db.users ==> s.db.users[u].expires <= s.db.now + timeout)
    && (forall u, sid :: u in s.db.users && sid in s.db.users[u].sids ==> OwnedBy(s.db, sid, u))
    && (forall p :: p in s.pending ==> OwnedBy(s.db, p.0, p.1))
  }

  /** If the row names a user at all, it is `u` (whether or not it is still live). */
  predicate OwnedBy(db: Db, sid: Sid, u: Uid) {
    sid in db.rows && db.rows[sid].uid.Some? ==> db.rows[sid].uid.value == u
  }

  lemma SRemKeeps(db: Db, u: Uid, sid: Sid)
    ensures var r := SRem(db, u, sid);
            && r.rows == db.rows && r.now == db.now
            && Members(r, u) == Members(db, u) - {sid}
            && (forall v :: v != u ==> (v in r.users <==> v in db.users) && (v in r.users ==> r.users[v] == db.users[v]))
            && (u in r.users ==> u in db.users && r.users[u].expires == db.users[u].expires
                                 && r.users[u].sids == Members(db, u) - {sid})
  {
  }

  /** Inv, one clause at a time, for a database and a set of pending reads. */
  lemma InvBy(s: Sys, timeout: int)
    requires forall sid, u :: Indexed(s.db, sid, u)
    requires forall sid :: sid in s.db.rows ==> s.db.rows[sid].expires <= s.db.now + timeout
    requires forall u :: u in s.db.users ==> s.db.users[u].expires <= s.db.now + timeout
    requires forall u, sid :: u in s.db.users && sid in s.db.users[u].sids ==> OwnedBy(s.db, sid, u)
    requires forall p :: p in s.pending ==> OwnedBy(s.db, p.0, p.1)
    ensures Inv(s, timeout)
  {
  }

  lemma SetKeepsInv(s: Sys, timeout: int, sid: Sid, u: Uid, ua: string, ip: string)
    requires timeout > 0 && Inv(s, timeout) && Unused(s, sid)
    ensures Inv(s.(db := SetSession(s.db, timeout, sid, u, ua, ip)), timeout)
    ensures Session(SetSession(s.db, timeout, sid, u, ua, ip), sid, u)
  {
    var r := SetSession(s.db, timeout, sid, u, ua, ip);
    forall x, v ensures Indexed(r, x, v) {
      assert Indexed(s.db, x, v);
    }
    forall v, x | v in r.users && x in r.users[v].sids ensures OwnedBy(r, x, v) {
      if x != sid {
        assert v in s.db.users && x in s.db.users[v].sids;
        assert OwnedBy(s.db, x, v);
      }
    }
    forall p | p in s.pending ensures OwnedBy(r, p.0, p.1) {
      assert OwnedBy(s.db, p.0, p.1);
    }
    InvBy(s.(db := r), timeout);
  }

  lemma RefreshKeepsInv(s: Sys, timeout: int, sid: Sid, u: Uid)
    requires timeout > 0 && Inv(s, timeout) && OwnedBy(s.db, sid, u)
    ensures Inv(s.(db := Refresh(s.db, timeout, sid, u)), timeout)
    ensures forall x :: FetchUid(Refresh(s.db, timeout, sid, u), x) == FetchUid(s.db, x)
  {
    var r := Refresh(s.db, timeout, sid, u);
    forall x, v ensures Indexed(r, x, v) {
      assert Indexed(s.db, x, v);
    }
    forall v, x | v in r.users && x in r.users[v].sids ensures OwnedBy(r, x, v) {
      assert v in s.db.users && x in s.db.users[v].sids;
      assert OwnedBy(s.db, x, v);
    }
    forall p | p in s.pending ensures OwnedBy(r, p.0, p.1) {
      assert OwnedBy(s.db, p.0, p.1);
    }
    InvBy(s.(db := r), timeout);
  }

  /** Removing rows and index members of sessions that are over keeps the rest. */
  lemma RemovalKeepsInv(s: Sys, r: Db, timeout: int)
    requires Inv(s, timeout) && r.now == s.db.now
    requires forall x :: x in r.rows ==> x in s.db.rows && r.rows[x] == s.db.rows[x]
    requires forall v :: v in r.users ==> v in s.db.users && r.users[v].sids <= s.db.users[v].sids
                                          && r.users[v].expires == s.db.users[v].expires
    requires forall x, v :: Session(r, x, v) && x in Members(s.db, v) ==> x in Members(r, v)
    ensures Inv(s.(db := r), timeout)
  {
    forall x, v ensures Indexed(r, x, v) {
      assert Indexed(s.db, x, v);
    }
    forall v, x | v in r.users && x in r.users[v].sids ensures OwnedBy(r, x, v) {
      assert OwnedBy(s.db, x, v);
    }
    forall p | p in s.pending ensures OwnedBy(r, p.0, p.1) {
      assert OwnedBy(s.db, p.0, p.1);
    }
    InvBy(s.(db := r), timeout);
  }

  lemma SRemKeepsInv(s: Sys, timeout: int, u: Uid, sid: Sid)
    requires Inv(s, timeout) && !Session(s.db, sid, u)
    ensures Inv(s.(db := SRem(s.db, u, sid)), timeout)
  {
    SRemKeeps(s.db, u, sid);
    var r := SRem(s.db, u, sid);
    forall x, v | Session(r, x, v) && x in Members(s.db, v) ensures x in Members(r, v) {
      assert Session(s.db, x, v);
    }
    RemovalKeepsInv(s, r, timeout);
  }

  lemma DropKeepsInv(s: Sys, timeout: int, u: Uid, sid: Sid)
    requires Inv(s, timeout)
    ensures Inv(s.(db := SRem(DelRow(s.db, sid), u, sid)), timeout)
    ensures Inv(s.(db := DelRow(s.db, sid)), timeout)
  {
    var mid := s.(db := DelRow(s.db, sid));
    RemovalKeepsInv(s, mid.db, timeout);
    SRemKeepsInv(mid, timeout, u, sid);
  }

  lemma ClearAllKeepsInv(s: Sys, timeout: int, u: Uid)
    requires Inv(s, timeout)
    ensures Inv(s.(db := ClearAll(s.db, u)), timeout)
  {
    var r := ClearAll(s.db, u);
    forall x, v | Session(r, x, v) && x in Members(s.db, v) ensures x in Members(r, v) {
      assert Session(s.db, x, v);
    }
    RemovalKeepsInv(s, r, timeout);
  }

  lemma PruneKeepsInv(s: Sys, timeout: int, u: Uid)
    requires Inv(s, timeout)
    ensures Inv(s.(db := Pruned(s.db, u)), timeout)
  {
    RemovalKeepsInv(s, Pruned(s.db, u), timeout);
  }

  lemma TickKeepsInv(s: Sys, timeout: int, d: nat)
    requires Inv(s, timeout)
    ensures Inv(s.(db := s.db.(now := s.db.now + d)), timeout)
  {
    var r := s.db.(now := s.db.now + d);
    forall x, v ensures Indexed(r, x, v) {
      assert Indexed(s.db, x, v);
    }
    forall v, x | v in r.users && x in r.users[v].sids ensures OwnedBy(r, x, v) {
      assert OwnedBy(s.db, x, v);
    }
    forall p | p in s.pending ensures OwnedBy(r, p.0, p.1) {
      assert OwnedBy(s.db, p.0, p.1);
    }
    InvBy(s.(db := r), timeout);
  }

  /** Every step keeps the invariant, however Reads are interleaved. */
  lemma ApplyKeepsInv(s: Sys, timeout: int, step: Step)
    requires timeout > 0 && Inv(s, timeout) && Enabled(s, step)
    ensures Inv(Apply(s, timeout, step), timeout)
  {
    match step
    case Set(sid, u, ua, ip) => SetKeepsInv(s, timeout, sid, u, ua, ip);
    case Read(sid) =>
      if sid != "" && FetchUid(s.db, sid).Some? {
        RefreshKeepsInv(s, timeout, sid, FetchUid(s.db, sid).value);
      }
    case Fetch(sid) =>
    case Finish(sid, u) => RefreshKeepsInv(s, timeout, sid, u);
    case Clear(sid) =>
      DropKeepsInv(s, timeout, if FetchUid(s.db, sid).Some? then FetchUid(s.db, sid).value else 0, sid);
    case ClearAllForUser(u) => ClearAllKeepsInv(s, timeout, u);
    case RevokeOne(u, sid) =>
      DropKeepsInv(s, timeout, u, sid);
      if FetchUid(s.db, sid).None? {
        SRemKeepsInv(s, timeout, u, sid);
      }
    case List(u) => PruneKeepsInv(s, timeout, u);
    case Tick(d) => TickKeepsInv(s, timeout, d);
  }

  /** A run in which every step was possible. */
  ghost predicate Runs(s: Sys, timeout: int, steps: seq<Step>)
    decreases |steps|
  {
    steps == [] || (Enabled(s, steps[0]) && Runs(Apply(s, timeout, steps[0]), timeout, steps[1..]))
  }

  function After(s: Sys, timeout: int, steps: seq<Step>): Sys
    decreases |steps|
  {
    if steps == [] then s else After(Apply(s, timeout, steps[0]), timeout, steps[1..])
  }

  const EMPTY: Sys := Sys(Db(map[], map[], 0), {})

  lemma {:induction false} RunKeepsInv(s: Sys, timeout: int, steps: seq<Step>)
    requires timeout > 0 && Inv(s, timeout) && Runs(s, timeout, steps)
    ensures Inv(After(s, timeout, steps), timeout)
    decreases |steps|
  {
    if steps != [] {
      ApplyKeepsInv(s, timeout, steps[0]);
      RunKeepsInv(Apply(s, timeout, steps[0]), timeout, steps[1..]);
    }
  }

  // ----- How long a session lasts -----

  /** Only the time of last use and the expiry of that row have moved: the session was used now. */
  ghost predicate UsedNow(before: Db, after: Db, timeout: int, sid: Sid)
    requires sid in before.rows
  {
    && after.now == before.now && sid in after.rows
    && after.rows[sid].seen == before.now / 1_000_000_000 && after.rows[sid].expires == before.now + timeout
    && after.rows[sid].uid == before.rows[sid].uid && after.rows[sid].ts == before.rows[sid].ts
    && after.rows[sid].ua == before.rows[sid].ua && after.rows[sid].ip == before.rows[sid].ip
    && forall x :: x != sid ==> (x in after.rows <==> x in before.rows) && (x in before.rows ==> after.rows[x] == before.rows[x])
  }

  /** A Read that finds its user, and a refresh that comes while the session still lives, slide the expiry. */
  lemma ReadSlides(s: Sys, timeout: int, step: Step, u: Uid)
    requires step.Read? || step.Finish?
    requires step.sid != "" && Session(s.db, step.sid, u)
    ensures UsedNow(s.db, Apply(s, timeout, step).db, timeout, step.sid)
  {
  }

  /** A login writes the session and nothing else in the rows. */
  lemma SetWrites(s: Sys, timeout: int, sid: Sid, u: Uid, ua: string, ip: string)
    ensures var r := Apply(s, timeout, Set(sid, u, ua, ip)).db;
            && r.now == s.db.now && sid in r.rows
            && r.rows[sid].uid == Some(u) && r.rows[sid].ua == ua && r.rows[sid].ip == ip
            && r.rows[sid].ts == Some(r.now / 1_000_000_000) && r.rows[sid].seen == r.now / 1_000_000_000
            && r.rows[sid].expires == r.now + timeout
            && forall x :: x != sid ==> (x in r.rows <==> x in s.db.rows) && (x in s.db.rows ==> r.rows[x] == s.db.rows[x])
  {
  }

  /** The step neither uses nor ends the session `sid` of `u`. */
  predicate Aside(step: Step, sid: Sid, u: Uid) {
    match step
    case Set(x, _, _, _) => x != sid
    case Read(x) => x != sid
    case Finish(x, _) => x != sid
    case Clear(x) => x != sid
    case ClearAllForUser(v) => v != u
    case RevokeOne(v, x) => v != u || x != sid
    case _ => true
  }

  function Elapsed(steps: seq<Step>): nat {
    if steps == [] then 0 else (if steps[0].Tick? then steps[0].elapsed else 0) + Elapsed(steps[1..])
  }

  lemma NobodyElses(s: Sys, timeout: int, sid: Sid, u: Uid, v: Uid)
    requires Inv(s, timeout) && sid in s.db.rows && s.db.rows[sid].uid == Some(u) && v != u
    ensures sid !in Members(s.db, v)
  {
    assert v in s.db.users && sid in s.db.users[v].sids ==> OwnedBy(s.db, sid, v);
  }

  lemma AsideKeepsRow(s: Sys, timeout: int, step: Step, sid: Sid, u: Uid)
    requires Inv(s, timeout) && Aside(step, sid, u) && sid in s.db.rows && s.db.rows[sid].uid == Some(u)
    ensures var r := Apply(s, timeout, step).db;
            && sid in r.rows && r.rows[sid] == s.db.rows[sid]
            && r.now == s.db.now + if step.Tick? then step.elapsed else 0
  {
    match step
    case ClearAllForUser(v) => NobodyElses(s, timeout, sid, u, v);
    case RevokeOne(v, x) =>
      SRemKeeps(s.db, v, x);
      SRemKeeps(DelRow(s.db, x), v, x);
    case Clear(x) =>
      if FetchUid(s.db, x).Some? {
        SRemKeeps(DelRow(s.db, x), FetchUid(s.db, x).value, x);
      }
    case _ =>
  }

  /** Whatever others do, a session that is left alone is accepted exactly until its expiry, with its row as it is. */
  lemma {:induction false} SessionLasts(s: Sys, timeout: int, steps: seq<Step>, sid: Sid, u: Uid)
    requires timeout > 0 && Inv(s, timeout) && Runs(s, timeout, steps)
    requires sid in s.db.rows && s.db.rows[sid].uid == Some(u)
    requires forall step :: step in steps ==> Aside(step, sid, u)
    ensures var r := After(s, timeout, steps).db;
            && r.now == s.db.now + Elapsed(steps)
            && sid in r.rows && r.rows[sid] == s.db.rows[sid]
            && (Session(r, sid, u) <==> s.db.now + Elapsed(steps) < s.db.rows[sid].expires)
    decreases |steps|
  {
    if steps != [] {
      assert Aside(steps[0], sid, u);
      ApplyKeepsInv(s, timeout, steps[0]);
      AsideKeepsRow(s, timeout, steps[0], sid, u);
      SessionLasts(Apply(s, timeout, steps[0]), timeout, steps[1..], sid, u);
    }
  }

  /** From its last use (a login, a Read, or the refresh of one) a session is accepted for exactly the timeout: after
      further steps that leave it alone, a Read finds its user if and only if less time has gone by. */
  lemma SessionSlides(s: Sys, timeout: int, step: Step, steps: seq<Step>, sid: Sid, u: Uid)
    requires timeout > 0 && Inv(s, timeout) && Enabled(s, step) && Runs(Apply(s, timeout, step), timeout, steps)
    requires sid != "" && (step.Set? || step.Read? || step.Finish?) && step.sid == sid
    requires if step.Set? then step.uid == u else Session(s.db, sid, u)
    requires forall x :: x in steps ==> Aside(x, sid, u)
    ensures var r := After(Apply(s, timeout, step), timeout, steps).db;
            && (ReadSession(r, timeout, sid).0 == Some(u) <==> Elapsed(steps) < timeout)
            && sid in r.rows && r.rows[sid].seen == s.db.now / 1_000_000_000
  {
    var mid := Apply(s, timeout, step);
    ApplyKeepsInv(s, timeout, step);
    if step.Set? {
      SetWrites(s, timeout, sid, u, step.ua, step.ip);
    } else {
      ReadSlides(s, timeout, step, u);
    }
    SessionLasts(mid, timeout, steps, sid, u);
  }

  // ----- Logging out -----

  /** After any run, "log out everywhere" ends every session of the user and touches no other user's. */
  lemma ClearAllEndsEverySession(steps: seq<Step>, timeout: int, u: Uid, sid: Sid, v: Uid)
    requires timeout > 0 && Runs(EMPTY, timeout, steps)
    ensures var db := After(EMPTY, timeout, steps).db;
            Session(ClearAll(db, u), sid, v) <==> Session(db, sid, v) && v != u
  {
    RunKeepsInv(EMPTY, timeout, steps);
    var s := After(EMPTY, timeout, steps);
    assert Indexed(s.db, sid, v) && Indexed(s.db, sid, u);
    if sid in Members(s.db, u) {
      assert OwnedBy(s.db, sid, u);
    }
  }

  /** Revoking works for the owner only, and Clear for whoever holds the cookie. */
  lemma RevokeEndsOneSession(db: Db, u: Uid, sid: Sid, x: Sid, v: Uid)
    ensures Session(Revoke(db, u, sid), x, v) <==> Session(db, x, v) && (x != sid || v != u)
    ensures sid != "" ==> (Session(ClearSession(db, sid), x, v) <==> Session(db, x, v) && x != sid)
  {
    SRemKeeps(db, u, sid);
    SRemKeeps(DelRow(db, sid), u, sid);
    if FetchUid(db, sid).Some? {
      SRemKeeps(DelRow(db, sid), FetchUid(db, sid).value, sid);
    }
  }

  /** Clear and revoke take the row and the index entry away and nothing else; the one who does not own a session cannot
      revoke it, but drops the id from his own index if the session is over. */
  lemma LogoutRemovesTheSession(db: Db, sid: Sid, u: Uid)
    requires sid != "" && Session(db, sid, u)
    ensures var c := ClearSession(db, sid);
            && c.rows == db.rows - {sid} && c.now == db.now && Members(c, u) == Members(db, u) - {sid}
            && forall v :: v != u ==> Members(c, v) == Members(db, v)
    ensures forall v :: Revoke(db, v, sid) == if v == u then ClearSession(db, sid) else db
    ensures var all := ClearAll(db, u);
            && all.rows == db.rows - Members(db, u) && Members(all, u) == {} && all.now == db.now
            && forall v :: v != u ==> Members(all, v) == Members(db, v)
  {
    SRemKeeps(DelRow(db, sid), u, sid);
  }

  /** A session id that does not name a live session is never accepted again: no interleaving of
      half-finished Reads, of anyone's, can bring a uid back. */
  lemma {:induction false} GoneStaysGone(s: Sys, timeout: int, steps: seq<Step>, sid: Sid)
    requires timeout > 0 && FetchUid(s.db, sid).None?
    requires forall step :: step in steps ==> !(step.Set? && step.sid == sid)
    ensures FetchUid(After(s, timeout, steps).db, sid).None?
    ensures ReadSession(After(s, timeout, steps).db, timeout, sid).0.None?
    decreases |steps|
  {
    if steps != [] {
      assert steps[0] in steps;
      GoneForOneStep(s, timeout, steps[0], sid);
      GoneStaysGone(Apply(s, timeout, steps[0]), timeout, steps[1..], sid);
    }
  }

  lemma GoneForOneStep(s: Sys, timeout: int, step: Step, sid: Sid)
    requires timeout > 0 && FetchUid(s.db, sid).None? && !(step.Set? && step.sid == sid)
    ensures FetchUid(Apply(s, timeout, step).db, sid).None?
  {
    match step
    case RevokeOne(u, x) =>
      SRemKeeps(s.db, u, x);
      SRemKeeps(DelRow(s.db, x), u, x);
    case Clear(x) =>
      if FetchUid(s.db, x).Some? {
        SRemKeeps(DelRow(s.db, x), FetchUid(s.db, x).value, x);
      }
    case _ =>
  }

  // ----- The listing page -----

  datatype Info = Info(sid: Sid, ua: string, ip: string, createdAt: int, lastSeen: int, current: bool)

  function InfoOf(db: Db, sid: Sid, current: Sid): Info
    requires sid in db.rows
  {
    var r := db.rows[sid];
    Info(sid, r.ua, r.ip, if r.ts.Some? then r.ts.value else 0, r.seen, sid == current)
  }

  /** What the page shows of a row: when it was created (zero if unknown) and last used, and from where. */
  predicate Shows(db: Db, e: Info, current: Sid) {
    && e.sid in db.rows && e.ua == db.rows[e.sid].ua && e.ip == db.rows[e.sid].ip
    && e.lastSeen == db.rows[e.sid].seen && (e.current <==> e.sid == current)
    && match db.rows[e.sid].ts
       case Some(t) => e.createdAt == t
       case None => e.createdAt == 0
  }

  lemma InfoShows(db: Db, sid: Sid, current: Sid)
    requires sid in db.rows
    ensures InfoOf(db, sid, current).sid == sid && Shows(db, InfoOf(db, sid, current), current)
  {
  }

  /** A live row without a uid under an id the index still holds: left by a Read that finished after
      the session had expired. */
  ghost predicate HasGhost(db: Db, u: Uid) {
    exists sid :: sid in Members(db, u) && RowLive(db, sid) && db.rows[sid].uid.None?
  }

  /** List reports every live session of the user; it reports nothing else exactly when no expired
      session was half-revived. */
  lemma ListIsExactWithoutGhosts(s: Sys, timeout: int, u: Uid)
    requires Inv(s, timeout)
    ensures forall sid :: Session(s.db, sid, u) ==> sid in Listed(s.db, u)
    ensures (forall sid :: sid in Listed(s.db, u) ==> Session(s.db, sid, u)) <==> !HasGhost(s.db, u)
    ensures forall sid :: sid in Members(Pruned(s.db, u), u) <==> sid in Listed(s.db, u)
  {
    forall sid | Session(s.db, sid, u) ensures sid in Listed(s.db, u) {
      assert Indexed(s.db, sid, u);
    }
    forall sid | sid in Listed(s.db, u) ensures OwnedBy(s.db, sid, u) {
    }
    if sid :| sid in Members(s.db, u) && RowLive(s.db, sid) && s.db.rows[sid].uid.None? {
      assert sid in Listed(s.db, u) && !Session(s.db, sid, u);
    } else {
      forall sid | sid in Listed(s.db, u) ensures Session(s.db, sid, u) {
        assert OwnedBy(s.db, sid, u);
      }
    }
  }

  /** The one step that can leave such a row: a Read that found its user before the row went away, and
      refreshes it after that, while the index still holds the id. */
  predicate LateFinish(db: Db, step: Step, u: Uid) {
    step.Finish? && !RowLive(db, step.sid) && step.sid in Members(db, u)
  }

  predicate GhostAt(db: Db, sid: Sid, u: Uid) {
    sid in Members(db, u) && RowLive(db, sid) && db.rows[sid].uid.None?
  }

  lemma OtherStepsMakeNoGhost(s: Sys, timeout: int, step: Step, sid: Sid, u: Uid)
    requires timeout > 0 && !step.Finish? && GhostAt(Apply(s, timeout, step).db, sid, u)
    ensures GhostAt(s.db, sid, u)
  {
    match step
    case RevokeOne(v, x) =>
      SRemKeeps(s.db, v, x);
      SRemKeeps(DelRow(s.db, x), v, x);
    case Clear(x) =>
      if FetchUid(s.db, x).Some? {
        SRemKeeps(DelRow(s.db, x), FetchUid(s.db, x).value, x);
      }
    case _ =>
  }

  lemma FinishMakesGhost(s: Sys, timeout: int, step: Step, sid: Sid, u: Uid)
    requires timeout > 0 && step.Finish? && !GhostAt(s.db, sid, u)
    ensures GhostAt(Apply(s, timeout, step).db, sid, u) <==> sid == step.sid && LateFinish(s.db, step, u)
  {
  }

  /** Where there is no such row, a step leaves one exactly when it is a late refresh. */
  lemma GhostExactlyAfterALateFinish(s: Sys, timeout: int, step: Step, u: Uid)
    requires timeout > 0 && !HasGhost(s.db, u)
    ensures HasGhost(Apply(s, timeout, step).db, u) <==> LateFinish(s.db, step, u)
  {
    var r := Apply(s, timeout, step).db;
    forall sid ensures !GhostAt(s.db, sid, u) {
    }
    if step.Finish? {
      forall sid ensures GhostAt(r, sid, u) <==> sid == step.sid && LateFinish(s.db, step, u) {
        FinishMakesGhost(s, timeout, step, sid, u);
      }
      if LateFinish(s.db, step, u) {
        assert GhostAt(r, step.sid, u);
      }
    } else {
      forall sid ensures !GhostAt(r, sid, u) {
        if GhostAt(r, sid, u) {
          OtherStepsMakeNoGhost(s, timeout, step, sid, u);
        }
      }
    }
    if HasGhost(r, u) {
      var sid :| sid in Members(r, u) && RowLive(r, sid) && r.rows[sid].uid.None?;
      assert GhostAt(r, sid, u);
    }
  }

  /** A late refresh somewhere in the run. */
  ghost predicate SomeLateFinish(s: Sys, timeout: int, steps: seq<Step>, u: Uid)
    decreases |steps|
  {
    steps != [] && (LateFinish(s.db, steps[0], u) || SomeLateFinish(Apply(s, timeout, steps[0]), timeout, steps[1..], u))
  }

  /** No run without a late refresh leaves a row without a user behind an index. */
  lemma {:induction false} GhostsNeedALateFinish(s: Sys, timeout: int, steps: seq<Step>, u: Uid)
    requires timeout > 0 && !HasGhost(s.db, u) && !SomeLateFinish(s, timeout, steps, u)
    ensures !HasGhost(After(s, timeout, steps).db, u)
    decreases |steps|
  {
    if steps != [] {
      GhostExactlyAfterALateFinish(s, timeout, steps[0], u);
      GhostsNeedALateFinish(Apply(s, timeout, steps[0]), timeout, steps[1..], u);
    }
  }

  lemma {:induction false} WholeReadsAreNotLate(s: Sys, timeout: int, steps: seq<Step>, u: Uid)
    requires forall step :: step in steps ==> !step.Finish?
    ensures !SomeLateFinish(s, timeout, steps, u)
    decreases |steps|
  {
    if steps != [] {
      assert steps[0] in steps;
      WholeReadsAreNotLate(Apply(s, timeout, steps[0]), timeout, steps[1..], u);
    }
  }

  /** As long as every Read runs as one step, no such row appears. */
  lemma WholeReadsLeaveNoGhosts(s: Sys, timeout: int, steps: seq<Step>, u: Uid)
    requires timeout > 0 && !HasGhost(s.db, u) && forall step :: step in steps ==> !step.Finish?
    ensures !HasGhost(After(s, timeout, steps).db, u)
  {
    WholeReadsAreNotLate(s, timeout, steps, u);
    GhostsNeedALateFinish(s, timeout, steps, u);
  }

  ghost predicate AllNamed(db: Db) {
    forall sid :: sid in db.rows ==> db.rows[sid].uid.Some?
  }

  lemma NamedForOneStep(s: Sys, timeout: int, step: Step)
    requires timeout > 0 && AllNamed(s.db) && !step.Finish?
    ensures AllNamed(Apply(s, timeout, step).db)
  {
    match step
    case RevokeOne(u, x) =>
      SRemKeeps(s.db, u, x);
      SRemKeeps(DelRow(s.db, x), u, x);
    case Clear(x) =>
      if FetchUid(s.db, x).Some? {
        SRemKeeps(DelRow(s.db, x), FetchUid(s.db, x).value, x);
      }
    case _ =>
  }

  /** Then every row, indexed or not, names its user. */
  lemma {:induction false} WholeReadsNameEveryRow(s: Sys, timeout: int, steps: seq<Step>)
    requires timeout > 0 && AllNamed(s.db) && forall step :: step in steps ==> !step.Finish?
    ensures AllNamed(After(s, timeout, steps).db)
    decreases |steps|
  {
    if steps != [] {
      assert steps[0] in steps;
      NamedForOneStep(s, timeout, steps[0]);
      WholeReadsNameEveryRow(Apply(s, timeout, steps[0]), timeout, steps[1..]);
    }
  }

  /** One session read halfway, then a second one begun just before the first expires. */
  lemma FirstHasExpired(timeout: int, u: Uid)
    requires timeout > 1
    ensures var s2 := Apply(Apply(EMPTY, timeout, Set("a", u, "", "")), timeout, Fetch("a"));
            var s3 := Apply(s2, timeout, Tick(1));
            var s4 := Apply(s3, timeout, Set("b", u, "", ""));
            var s5 := Apply(s4, timeout, Tick(timeout - 1));
            && Enabled(s3, Set("b", u, "", ""))
            && ("a", u) in s5.pending && !RowLive(s5.db, "a") && Members(s5.db, u) == {"a", "b"}
  {
    var s2 := Apply(Apply(EMPTY, timeout, Set("a", u, "", "")), timeout, Fetch("a"));
    assert s2.pending == {("a", u)} && Members(s2.db, u) == {"a"};
  }

  /** With split Reads a ghost can appear: two sessions, one is used while the other expires, and the
      expired one's Read finishes late. */
  lemma AGhostCanAppear(timeout: int, u: Uid) returns (steps: seq<Step>)
    requires timeout > 1
    ensures Runs(EMPTY, timeout, steps) && HasGhost(After(EMPTY, timeout, steps).db, u)
  {
    var s4 := Apply(Apply(Apply(Apply(EMPTY, timeout, Set("a", u, "", "")), timeout, Fetch("a")), timeout, Tick(1)),
                    timeout, Set("b", u, "", ""));
    var s5 := Apply(s4, timeout, Tick(timeout - 1));
    steps := [Set("a", u, "", ""), Fetch("a"), Tick(1), Set("b", u, "", ""), Tick(timeout - 1), Finish("a", u)];
    FirstHasExpired(timeout, u);
    UnrollSix(EMPTY, timeout, steps);
    FinishMakesGhost(s5, timeout, Finish("a", u), "a", u);
  }

  lemma UnrollSix(s: Sys, timeout: int, t: seq<Step>)
    requires |t| == 6
    ensures var s1 := Apply(s, timeout, t[0]);
            var s2 := Apply(s1, timeout, t[1]);
            var s3 := Apply(s2, timeout, t[2]);
            var s4 := Apply(s3, timeout, t[3]);
            var s5 := Apply(s4, timeout, t[4]);
            && After(s, timeout, t) == Apply(s5, timeout, t[5])
            && (Runs(s, timeout, t) <==> Enabled(s, t[0]) && Enabled(s1, t[1]) && Enabled(s2, t[2])
                                         && Enabled(s3, t[3]) && Enabled(s4, t[4]) && Enabled(s5, t[5]))
  {
    var s1 := Apply(s, timeout, t[0]);
    var s2 := Apply(s1, timeout, t[1]);
    var s3 := Apply(s2, timeout, t[2]);
    var s4 := Apply(s3, timeout, t[3]);
    var s5 := Apply(s4, timeout, t[4]);
    var s6 := Apply(s5, timeout, t[5]);
    assert t[1..][1..] == t[2..] && t[2..][1..] == t[3..] && t[3..][1..] == t[4..] && t[4..][1..] == t[5..] && t[5..][1..] == [];
    assert After(s, timeout, t) == After(s1, timeout, t[1..]) == After(s2, timeout, t[2..]) == After(s3, timeout, t[3..]);
    assert After(s3, timeout, t[3..]) == After(s4, timeout, t[4..]) == After(s5, timeout, t[5..]) == After(s6, timeout, []);
    assert Runs(s6, timeout, []);
    assert Runs(s5, timeout, t[5..]) <==> Enabled(s5, t[5]);
    assert Runs(s4, timeout, t[4..]) <==> Enabled(s4, t[4]) && Runs(s5, timeout, t[5..]);
    assert Runs(s3, timeout, t[3..]) <==> Enabled(s3, t[3]) && Runs(s4, timeout, t[4..]);
    assert Runs(s2, timeout, t[2..]) <==> Enabled(s2, t[2]) && Runs(s3, timeout, t[3..]);
    assert Runs(s1, timeout, t[1..]) <==> Enabled(s1, t[1]) && Runs(s2, timeout, t[2..]);
  }

  // ----- The insertion sort -----

  /** `x` bubbles towards the front past every entry seen strictly earlier. */
  function InsertBySeen(s: seq<Info>, x: Info): (r: seq<Info>)
    ensures |r| == |s| + 1
  {
    if s == [] || x.lastSeen <= s[|s| - 1].lastSeen then s + [x]
    else InsertBySeen(s[..|s| - 1], x) + [s[|s| - 1]]
  }

  function SortedBySeen(s: seq<Info>): (r: seq<Info>)
    ensures |r| == |s|
  {
    if s == [] then [] else InsertBySeen(SortedBySeen(s[..|s| - 1]), s[|s| - 1])
  }

  ghost predicate NewestFirst(s: seq<Info>) {
    forall i, j :: 0 <= i < j < |s| ==> s[i].lastSeen >= s[j].lastSeen
  }

  /** The entries last seen at `t`, in order. */
  function SeenAt(s: seq<Info>, t: int): seq<Info> {
    if s == [] then [] else SeenAt(s[..|s| - 1], t) + if s[|s| - 1].lastSeen == t then [s[|s| - 1]] else []
  }

  lemma {:induction false} InsertIsSorted(s: seq<Info>, x: Info)
    requires NewestFirst(s)
    ensures var r := InsertBySeen(s, x);
            NewestFirst(r) && forall i :: 0 <= i < |r| ==> r[i].lastSeen >= if s == [] || x.lastSeen <= s[|s| - 1].lastSeen
                                                                            then x.lastSeen else s[|s| - 1].lastSeen
  {
    if s != [] && x.lastSeen > s[|s| - 1].lastSeen {
      var n := |s| - 1;
      InsertIsSorted(s[..n], x);
      var r := InsertBySeen(s[..n], x);
      assert forall i :: 0 <= i < |r| ==> r[i].lastSeen >= s[n].lastSeen;
      assert InsertBySeen(s, x) == r + [s[n]];
    }
  }

  lemma {:induction false} InsertIsPermutation(s: seq<Info>, x: Info)
    ensures multiset(InsertBySeen(s, x)) == multiset(s) + multiset{x}
  {
    if s != [] && x.lastSeen > s[|s| - 1].lastSeen {
      InsertIsPermutation(s[..|s| - 1], x);
      assert s == s[..|s| - 1] + [s[|s| - 1]];
    }
  }

  lemma SeenAtAppend(s: seq<Info>, x: Info, t: int)
    ensures SeenAt(s + [x], t) == SeenAt(s, t) + if x.lastSeen == t then [x] else []
  {
    assert (s + [x])[..|s|] == s;
  }

  lemma {:induction false} InsertIsStable(s: seq<Info>, x: Info, t: int)
    ensures SeenAt(InsertBySeen(s, x), t) == SeenAt(s, t) + if x.lastSeen == t then [x] else []
  {
    if s == [] || x.lastSeen <= s[|s| - 1].lastSeen {
      SeenAtAppend(s, x, t);
    } else {
      var n := |s| - 1;
      InsertIsStable(s[..n], x, t);
      SeenAtAppend(InsertBySeen(s[..n], x), s[n], t);
    }
  }

  lemma {:induction false} SortIsSorted(s: seq<Info>)
    ensures NewestFirst(SortedBySeen(s)) && multiset(SortedBySeen(s)) == multiset(s)
  {
    if s != [] {
      var n := |s| - 1;
      SortIsSorted(s[..n]);
      InsertIsSorted(SortedBySeen(s[..n]), s[n]);
      InsertIsPermutation(SortedBySeen(s[..n]), s[n]);
      assert s == s[..n] + [s[n]];
    }
  }

  lemma {:induction false} SortKeepsTies(s: seq<Info>, t: int)
    ensures SeenAt(SortedBySeen(s), t) == SeenAt(s, t)
  {
    if s != [] {
      SortKeepsTies(s[..|s| - 1], t);
      InsertIsStable(SortedBySeen(s[..|s| - 1]), s[|s| - 1], t);
    }
  }

  /** The sort is a permutation, newest first, and keeps the order of entries seen at the same time. */
  lemma SortIsStable(s: seq<Info>)
    ensures NewestFirst(SortedBySeen(s)) && multiset(SortedBySeen(s)) == multiset(s)
    ensures forall t :: SeenAt(SortedBySeen(s), t) == SeenAt(s, t)
  {
    SortIsSorted(s);
    forall t ensures SeenAt(SortedBySeen(s), t) == SeenAt(s, t) {
      SortKeepsTies(s, t);
    }
  }

  lemma LastApart(s: seq<Info>, x: Info, j: nat)
    requires j < |s|
    ensures var init := s[..|s| - 1];
            init[..j] + [x] + init[j..] + [s[|s| - 1]] == s[..j] + [x] + s[j..]
  {
  }

  /** Where the entry comes to rest. */
  lemma {:induction false} InsertAt(s: seq<Info>, x: Info, j: nat)
    requires j <= |s| && forall k :: j <= k < |s| ==> x.lastSeen > s[k].lastSeen
    requires j > 0 ==> x.lastSeen <= s[j - 1].lastSeen
    ensures InsertBySeen(s, x) == s[..j] + [x] + s[j..]
  {
    var n := |s| - 1;
    if j < |s| {
      InsertAt(s[..n], x, j);
      LastApart(s, x, j);
    }
  }

  /** The inner loop: `x` has moved from the end of `sorted` to place j; `tail` comes after. */
  ghost predicate Bubbling(s: seq<Info>, sorted: seq<Info>, x: Info, tail: seq<Info>, j: int) {
    && 0 <= j <= |sorted| && s == sorted[..j] + [x] + sorted[j..] + tail
    && forall k :: j <= k < |sorted| ==> x.lastSeen > sorted[k].lastSeen
  }

  function Swapped(s: seq<Info>, j: nat): (r: seq<Info>)
    requires 0 < j < |s|
    ensures |r| == |s|
  {
    s[j := s[j - 1]][j - 1 := s[j]]
  }

  lemma BubbleStep(s: seq<Info>, sorted: seq<Info>, x: Info, tail: seq<Info>, j: int)
    requires Bubbling(s, sorted, x, tail, j) && j > 0 && s[j].lastSeen > s[j - 1].lastSeen
    ensures Bubbling(Swapped(s, j), sorted, x, tail, j - 1)
  {
  }

  lemma BubbleEnds(s: seq<Info>, sorted: seq<Info>, x: Info, tail: seq<Info>, j: int)
    requires Bubbling(s, sorted, x, tail, j) && (j > 0 ==> s[j].lastSeen <= s[j - 1].lastSeen)
    ensures s == InsertBySeen(sorted, x) + tail
  {
    InsertAt(sorted, x, j);
  }

  lemma BubbleBegins(s: seq<Info>, i: nat)
    requires i < |s|
    ensures Bubbling(s, s[..i], s[i], s[i + 1..], i)
  {
  }

  /** Entry i in its place among the entries before it. */
  function Bubbled(s: seq<Info>, i: nat): (r: seq<Info>)
    requires i < |s|
    ensures |r| == |s|
  {
    InsertBySeen(s[..i], s[i]) + s[i + 1..]
  }

  method Bubble(a: array<Info>, i: nat)
    requires i < a.Length
    modifies a
    ensures a[..] == Bubbled(old(a[..]), i)
  {
    ghost var start := a[..];
    ghost var sorted, x, tail := start[..i], start[i], start[i + 1..];
    var j := i;
    BubbleBegins(start, i);
    while j > 0 && a[j].lastSeen > a[j - 1].lastSeen
      invariant 0 <= j <= i && Bubbling(a[..], sorted, x, tail, j)
    {
      ghost var before := a[..];
      BubbleStep(before, sorted, x, tail, j);
      a[j], a[j - 1] := a[j - 1], a[j];
      assert a[..] == Swapped(before, j);
      j := j - 1;
    }
    BubbleEnds(a[..], sorted, x, tail, j);
  }

  /** The outer loop: the first i entries are sorted, the others as they were. */
  ghost predicate Sorting(s: seq<Info>, start: seq<Info>, i: int) {
    0 <= i <= |s| == |start| && s[..i] == SortedBySeen(start[..i]) && s[i..] == start[i..]
  }

  lemma SortStep(s: seq<Info>, start: seq<Info>, i: nat)
    requires Sorting(s, start, i) && i < |s|
    ensures Sorting(Bubbled(s, i), start, i + 1)
  {
    assert s[i] == s[i..][0] == start[i..][0] == start[i];
    assert start[..i + 1][..i] == start[..i];
    assert s[i + 1..] == s[i..][1..] == start[i..][1..] == start[i + 1..];
  }

  lemma SortEnds(s: seq<Info>, start: seq<Info>)
    requires Sorting(s, start, |s|)
    ensures s == SortedBySeen(start)
  {
    assert s[..|s|] == s && start[..|s|] == start;
  }

  method SortByLastSeenDesc(a: array<Info>)
    modifies a
    ensures a[..] == SortedBySeen(old(a[..]))
  {
    ghost var start := a[..];
    var i := 1;
    SortOne(start);
    while i < a.Length
      invariant 1 <= i && (i <= a.Length || a.Length == 0)
      invariant a.Length > 0 ==> Sorting(a[..], start, i)
      invariant a.Length == 0 ==> a[..] == start
    {
      ghost var before := a[..];
      Bubble(a, i);
      SortStep(before, start, i);
      i := i + 1;
    }
    if a.Length > 0 {
      SortEnds(a[..], start);
    }
  }

  lemma SortOne(s: seq<Info>)
    ensures s != [] ==> SortedBySeen(s[..1]) == s[..1]
    ensures s == [] ==> SortedBySeen(s) == s
  {
    if s != [] {
      assert s[..1][..0] == [];
      assert s[..1] == [s[0]];
    }
  }

  // ----- The Go type -----

  const THIRTY_DAYS: int := 30 * 24 * 3600 * SECOND

  /** The entries List returns: one per reported id. */
  ghost predicate ListsExactly(db: Db, u: Uid, current: Sid, out: seq<Info>) {
    && |out| == |Listed(db, u)|
    && (forall i :: 0 <= i < |out| ==> out[i].sid in Listed(db, u) && out[i] == InfoOf(db, out[i].sid, current))
    && (forall sid :: sid in Listed(db, u) ==> InfoOf(db, sid, current) in out)
  }

  /** The page a user is owed: each live session once, newest first. */
  ghost predicate ListsSessions(db: Db, u: Uid, current: Sid, out: seq<Info>) {
    && NewestFirst(out)
    && (forall i, j :: 0 <= i < j < |out| ==> out[i].sid != out[j].sid)
    && (forall i :: 0 <= i < |out| ==> Session(db, out[i].sid, u) && Shows(db, out[i], current))
    && (forall sid :: Session(db, sid, u) ==> exists i :: 0 <= i < |out| && out[i].sid == sid)
  }

  function SidsOf(s: seq<Info>): set<Sid> {
    set e | e in s :: e.sid
  }

  lemma SidsOfMore(s: seq<Info>, x: Info)
    ensures SidsOf(s + [x]) == SidsOf(s) + {x.sid}
    ensures |SidsOf(s + [x])| == |SidsOf(s)| + if x.sid in SidsOf(s) then 0 else 1
  {
    forall sid ensures sid in SidsOf(s + [x]) <==> sid in SidsOf(s) || sid == x.sid {
      assert x in s + [x];
      forall e | e in s ensures e in s + [x] {
      }
    }
    assert SidsOf(s + [x]) == SidsOf(s) + {x.sid};
  }

  /** As many ids as entries: no id twice. */
  lemma {:induction false} SizedIsDistinct(s: seq<Info>)
    ensures |SidsOf(s)| <= |s|
    ensures |SidsOf(s)| == |s| ==> forall i, j :: 0 <= i < j < |s| ==> s[i].sid != s[j].sid
  {
    if s == [] {
      assert SidsOf(s) == {};
    } else {
      var init, last := s[..|s| - 1], s[|s| - 1];
      assert s == init + [last];
      SizedIsDistinct(init);
      SidsOfMore(init, last);
      forall i | 0 <= i < |init| ensures init[i].sid in SidsOf(init) {
      }
    }
  }

  lemma ListedOnce(db: Db, u: Uid, current: Sid, out: seq<Info>)
    requires ListsExactly(db, u, current, out)
    ensures forall i, j :: 0 <= i < j < |out| ==> out[i].sid != out[j].sid
  {
    forall sid ensures sid in SidsOf(out) <==> sid in Listed(db, u) {
      if sid in Listed(db, u) {
        assert InfoOf(db, sid, current) in out;
      }
    }
    assert SidsOf(out) == Listed(db, u);
    SizedIsDistinct(out);
  }

  /** What List returns at the end of a run in which no refresh came late: exactly the user's live sessions,
      each once, newest first. */
  lemma ListIsExactlyTheSessions(steps: seq<Step>, timeout: int, u: Uid, current: Sid, out: seq<Info>)
    requires timeout > 0 && Runs(EMPTY, timeout, steps) && !SomeLateFinish(EMPTY, timeout, steps, u)
    requires NewestFirst(out) && ListsExactly(After(EMPTY, timeout, steps).db, u, current, out)
    ensures ListsSessions(After(EMPTY, timeout, steps).db, u, current, out)
  {
    var s := After(EMPTY, timeout, steps);
    RunKeepsInv(EMPTY, timeout, steps);
    GhostsNeedALateFinish(EMPTY, timeout, steps, u);
    ListIsExactWithoutGhosts(s, timeout, u);
    ListedOnce(s.db, u, current, out);
    ListedShows(s.db, u, current, out);
  }

  lemma ListedShows(db: Db, u: Uid, current: Sid, out: seq<Info>)
    requires ListsExactly(db, u, current, out)
    ensures forall i :: 0 <= i < |out| ==> out[i].sid in Listed(db, u) && Shows(db, out[i], current)
    ensures forall sid :: sid in Listed(db, u) ==> exists i :: 0 <= i < |out| && out[i].sid == sid
  {
    forall i | 0 <= i < |out| ensures Shows(db, out[i], current) {
      InfoShows(db, out[i].sid, current);
    }
    forall sid | sid in Listed(db, u) ensures exists i :: 0 <= i < |out| && out[i].sid == sid {
      InfoShows(db, sid, current);
      var i :| 0 <= i < |out| && out[i] == InfoOf(db, sid, current);
      assert out[i].sid == sid;
    }
  }

  /** In particular at the end of every run of whole Reads. */
  lemma WholeReadsListExactlyTheSessions(steps: seq<Step>, timeout: int, u: Uid, current: Sid, out: seq<Info>)
    requires timeout > 0 && Runs(EMPTY, timeout, steps) && forall step :: step in steps ==> !step.Finish?
    requires NewestFirst(out) && ListsExactly(After(EMPTY, timeout, steps).db, u, current, out)
    ensures ListsSessions(After(EMPTY, timeout, steps).db, u, current, out)
  {
    WholeReadsAreNotLate(EMPTY, timeout, steps, u);
    ListIsExactlyTheSessions(steps, timeout, u, current, out);
  }

  class SessionStore {
    var rows: map<Sid, Row>
    var users: map<Uid, Index>
    var now: int
    const timeout: int

    function View(): Db
      reads this
    {
      Db(rows, users, now)
    }

    constructor (timeout: int)
      ensures View() == Db(map[], map[], 0)
      ensures this.timeout == if timeout == 0 then THIRTY_DAYS else timeout
    {
      rows, users, now := map[], map[], 0;
      this.timeout := if timeout == 0 then THIRTY_DAYS else timeout;
    }

    method HGetUid(sid: Sid) returns (uid: Option<Uid>)
      ensures uid == FetchUid(View(), sid)
    {
      if sid in rows && now < rows[sid].expires {
        return rows[sid].uid;
      }
      return None;
    }

    method SMembers(u: Uid) returns (sids: set<Sid>)
      ensures sids == Members(View(), u)
    {
      if u in users && now < users[u].expires {
        return users[u].sids;
      }
      return {};
    }

    method RemoveMember(u: Uid, sid: Sid)
      modifies this`users
      ensures View() == SRem(old(View()), u, sid)
    {
      var sids := SMembers(u);
      if sids - {sid} == {} {
        users := users - {u};
      } else {
        users := users[u := users[u].(sids := sids - {sid})];
      }
    }

    /** `sid` is the freshly drawn session id. */
    method Set(u: Uid, sid: Sid, ua: string, ip: string)
      modifies this
      ensures View() == SetSession(old(View()), timeout, sid, u, ua, ip)
      ensures sid in rows && rows[sid] == Row(Some(u), ua, ip, Some(Unix(now)), Unix(now), now + timeout)
      ensures u in users && users[u].expires == now + timeout && users[u].sids == Members(old(View()), u) + {sid}
    {
      var seen := Unix(now);
      rows := rows[sid := Row(Some(u), ua, ip, Some(seen), seen, now + timeout)];
      var sids := SMembers(u);
      users := users[u := Index(sids + {sid}, now + timeout)];
    }

    method Touch(sid: Sid, u: Uid)
      modifies this
      ensures View() == Refresh(old(View()), timeout, sid, u)
      ensures RowLive(old(View()), sid) ==> UsedNow(old(View()), View(), timeout, sid)
      ensures IndexLive(old(View()), u) ==>
                u in users && users[u].expires == now + timeout && users[u].sids == old(users)[u].sids
    {
      var row := Row(None, "", "", None, 0, 0);
      if sid in rows && now < rows[sid].expires {
        row := rows[sid];
      }
      rows := rows[sid := row.(seen := Unix(now), expires := now + timeout)];
      if u in users && now < users[u].expires {
        users := users[u := users[u].(expires := now + timeout)];
      }
    }

    method Read(cookie: Option<Sid>) returns (uid: Option<Uid>)
      modifies this
      ensures cookie.None? ==> uid.None? && View() == old(View())
      ensures cookie.Some? ==> (uid, View()) == ReadSession(old(View()), timeout, cookie.value)
      ensures uid.Some? ==> cookie.Some? && RowLive(old(View()), cookie.value) && old(rows)[cookie.value].uid == uid
                            && UsedNow(old(View()), View(), timeout, cookie.value)
      ensures cookie.Some? && cookie.value != "" && RowLive(old(View()), cookie.value) ==> uid == old(rows)[cookie.value].uid
    {
      if cookie.None? || cookie.value == "" {
        return None;
      }
      uid := HGetUid(cookie.value);
      if uid.None? {
        return None;
      }
      Touch(cookie.value, uid.value);
    }

    method Clear(cookie: Option<Sid>)
      modifies this
      ensures View() == if cookie.None? then old(View()) else ClearSession(old(View()), cookie.value)
    {
      if cookie.Some? && cookie.value != "" {
        var sid := cookie.value;
        var uid := HGetUid(sid);
        rows := rows - {sid};
        if uid.Some? {
          RemoveMember(uid.value, sid);
        }
      }
    }

    method ClearAllForUser(u: Uid)
      modifies this
      ensures View() == ClearAll(old(View()), u)
    {
      var sids := SMembers(u);
      if sids == {} {
        users := users - {u};
        assert rows - {} == rows;
        return;
      }
      rows := rows - sids;
      users := users - {u};
    }

    method RevokeSession(u: Uid, sid: Sid)
      modifies this
      ensures View() == Revoke(old(View()), u, sid)
    {
      var uid := HGetUid(sid);
      if uid.None? {
        RemoveMember(u, sid);
        return;
      }
      if uid.value != u {
        return;
      }
      rows := rows - {sid};
      RemoveMember(u, sid);
    }

    /** The loop of List; SMembers leaves the order open. */
    method Gather(u: Uid, current: Sid) returns (infos: seq<Info>)
      modifies this`users
      ensures View() == Pruned(old(View()), u) && ListsExactly(old(View()), u, current, infos)
    {
      ghost var db := View();
      var sids := SMembers(u);
      infos := [];
      var todo := sids;
      ghost var done: set<Sid> := {};
      SoFarStart(db, u);
      assert todo == sids - done;
      while todo != {}
        invariant done <= sids && todo == sids - done
        invariant rows == db.rows && now == db.now
        invariant View() == SoFar(db, u, todo)
        invariant Collected(db, u, current, infos, done)
        decreases todo
      {
        ghost var witnessed := Member(todo);
        var sid :| sid in todo;
        SoFarNext(db, u, todo, sid);
        CollectedNext(db, u, current, infos, done, sid);
        if sid in rows && now < rows[sid].expires {
          var r := rows[sid];
          infos := infos + [Info(sid, r.ua, r.ip, if r.ts.Some? then r.ts.value else 0, r.seen, sid == current)];
        } else {
          RemoveMember(u, sid);
        }
        SetStep(sids, done, sid);
        todo := todo - {sid};
        done := done + {sid};
      }
      assert done == sids;
      SoFarDone(db, u);
      CollectedDone(db, u, current, infos);
    }

    method List(u: Uid, current: Sid) returns (out: seq<Info>)
      modifies this`users
      ensures View() == Pruned(old(View()), u)
      ensures NewestFirst(out) && ListsExactly(old(View()), u, current, out)
      ensures forall i :: 0 <= i < |out| ==> Shows(old(View()), out[i], current)
    {
      ghost var db := View();
      var infos := Gather(u, current);
      var a := new Info[|infos|](i requires 0 <= i < |infos| => infos[i]);
      assert a[..] == infos;
      SortByLastSeenDesc(a);
      SortIsStable(infos);
      out := a[..];
      SameEntries(db, u, current, infos, out);
      ListedShows(db, u, current, out);
    }
  }

  lemma SetStep(all: set<Sid>, done: set<Sid>, sid: Sid)
    requires sid in all
    ensures all - done - {sid} == all - (done + {sid}) && (done <= all ==> done + {sid} <= all)
  {
  }

  lemma SoFarStart(db: Db, u: Uid)
    ensures SoFar(db, u, Members(db, u)) == db
  {
    assert Members(db, u) * (Members(db, u) + Listed(db, u)) == Members(db, u);
  }

  /** The index while List still has `todo` to look at. */
  ghost function SoFar(db: Db, u: Uid, todo: set<Sid>): Db {
    Restricted(db, u, Members(db, u) * (todo + Listed(db, u)))
  }

  lemma SoFarNext(db: Db, u: Uid, todo: set<Sid>, sid: Sid)
    requires sid in todo && todo <= Members(db, u)
    ensures SoFar(db, u, todo - {sid}) == if RowLive(db, sid) then SoFar(db, u, todo) else SRem(SoFar(db, u, todo), u, sid)
  {
    var kept := Members(db, u) * (todo + Listed(db, u));
    var next := Members(db, u) * (todo - {sid} + Listed(db, u));
    if RowLive(db, sid) {
      assert next == kept;
    } else {
      assert next == kept - {sid} && sid in kept && sid in Members(db, u);
      assert Members(SoFar(db, u, todo), u) == kept;
    }
  }

  lemma SoFarDone(db: Db, u: Uid)
    ensures SoFar(db, u, {}) == Pruned(db, u)
  {
    assert Members(db, u) * ({} + Listed(db, u)) == Listed(db, u);
  }

  ghost predicate Collected(db: Db, u: Uid, current: Sid, infos: seq<Info>, done: set<Sid>) {
    var live := set sid | sid in done && RowLive(db, sid);
    && |infos| == |live|
    && (forall i :: 0 <= i < |infos| ==> infos[i].sid in live && infos[i] == InfoOf(db, infos[i].sid, current))
    && (forall sid :: sid in live ==> InfoOf(db, sid, current) in infos)
  }

  lemma CollectedNext(db: Db, u: Uid, current: Sid, infos: seq<Info>, done: set<Sid>, sid: Sid)
    requires Collected(db, u, current, infos, done) && sid !in done
    ensures Collected(db, u, current, if RowLive(db, sid) then infos + [InfoOf(db, sid, current)] else infos, done + {sid})
  {
    var live := set x | x in done && RowLive(db, x);
    var next := set x | x in done + {sid} && RowLive(db, x);
    assert next == if RowLive(db, sid) then live + {sid} else live;
  }

  lemma CollectedDone(db: Db, u: Uid, current: Sid, infos: seq<Info>)
    requires Collected(db, u, current, infos, Members(db, u))
    ensures ListsExactly(db, u, current, infos)
  {
  }

  lemma SameEntries(db: Db, u: Uid, current: Sid, infos: seq<Info>, out: seq<Info>)
    requires ListsExactly(db, u, current, infos) && multiset(infos) == multiset(out)
    ensures ListsExactly(db, u, current, out)
  {
    assert |out| == |multiset(out)| == |infos|;
    forall i | 0 <= i < |out| ensures out[i].sid in Listed(db, u) && out[i] == InfoOf(db, out[i].sid, current) {
      assert out[i] in multiset(out);
      assert out[i] in multiset(infos);
      var j :| 0 <= j < |infos| && infos[j] == out[i];
    }
    forall sid | sid in Listed(db, u) ensures InfoOf(db, sid, current) in out {
      assert InfoOf(db, sid, current) in multiset(infos);
      assert InfoOf(db, sid, current) in multiset(out);
    }
  }
}
