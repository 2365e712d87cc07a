/** The token refresher (internal/auth/oauthrefresh/refresher.go) over the oauth_tokens table and its two
    statements (internal/data/gen/credentials.sql.go).

    Times are milliseconds. What the provider answers for a row, whether its statement went through, and
    which rows the query returns among equal expiries are inputs. */
module Refresher {
  import opened Common
  import opened Text

  type Id = int

  /** A row of oauth_tokens joined with its provider. */
  datatype Token = Token(provider: string, access: string, refresh: Option<string>, expires: int,
                         scopes: seq<string>, tokenType: string, needsReauth: bool, failures: int,
                         lastRefreshed: Option<int>)

  type Table = map<Id, Token>

  /** An oauth2.Token; an empty refresh token was not rotated, a missing expiry is the zero time. */
  datatype Grant = Grant(access: string, refresh: string, expiry: Option<int>, scope: string, tokenType: string)

  datatype OAuthError = Network | Retrieve(code: string, status: Option<int>)

  datatype Outcome = NoProvider | SealBroken | Failed(error: OAuthError) | Granted(grant: Grant)

  /** What happens to one row of a tick: the outcome, when, and whether the statement succeeded. */
  datatype Event = Event(outcome: Outcome, at: int, written: bool)

  type Seal = string -> string

  /** Config after New has put in its defaults. */
  datatype Config = Config(leadTime: int, batchSize: int, reauthAfter: int)

  const HOUR: int := 60 * 60 * 1000

  predicate ValidConfig(c: Config) {
    c.leadTime > 0 && c.batchSize > 0 && c.reauthAfter > 0
  }

  function WithDefaults(c: Config): (r: Config)
    ensures ValidConfig(r)
    ensures r.leadTime == c.leadTime || (c.leadTime <= 0 && r.leadTime == 600_000)
    ensures r.batchSize == c.batchSize || (c.batchSize <= 0 && r.batchSize == 50)
    ensures r.reauthAfter == c.reauthAfter || (c.reauthAfter <= 0 && r.reauthAfter == 5)
  {
    Config(if c.leadTime <= 0 then 10 * 60 * 1000 else c.leadTime,
           if c.batchSize <= 0 then 50 else c.batchSize,
           if c.reauthAfter <= 0 then 5 else c.reauthAfter)
  }

  // ----- One row -----

  predicate IsHard(e: OAuthError) {
    match e
    case Network => false
    case Retrieve(code, status) =>
      || code in ["invalid_grant", "invalid_request", "invalid_client", "unauthorized_client"]
      || (status.Some? && 400 <= status.value < 500 && code == "")
  }

  /** MarkTokenRefreshFailed. */
  function Marked(t: Token, needsReauth: bool): Token {
    t.(failures := t.failures + 1, needsReauth := needsReauth)
  }

  function GrantExpiry(g: Grant, now: int): int {
    if g.expiry.Some? then g.expiry.value else now + HOUR
  }

  /** The update arm of UpsertOAuthToken; COALESCE keeps the stored refresh token. */
  function Upserted(t: Token, g: Grant, seal: Seal, now: int): Token {
    t.(access := seal(g.access),
       refresh := if g.refresh != "" then Some(seal(g.refresh)) else t.refresh,
       expires := GrantExpiry(g, now),
       scopes := Fields(g.scope),
       tokenType := if g.tokenType == "" then "Bearer" else g.tokenType,
       needsReauth := false, failures := 0, lastRefreshed := Some(now))
  }

  /** `row` is what the query read, `t` what is stored when the statement runs. */
  function Refreshed(c: Config, t: Token, row: Token, e: Event, seal: Seal): Token {
    if !e.written then t
    else
      match e.outcome
      case NoProvider => t
      case SealBroken => Marked(t, true)
      case Failed(err) => Marked(t, IsHard(err) || row.failures + 1 >= c.reauthAfter)
      case Granted(g) => Upserted(t, g, seal, e.at)
  }

  /** The provider has said that the refresh token is of no more use: one of the four error codes, or a status from 400
      to 499 without a code. */
  predicate Rejected(e: OAuthError) {
    e.Retrieve?
    && (e.code == "invalid_grant" || e.code == "invalid_request" || e.code == "invalid_client" || e.code == "unauthorized_client"
        || (e.code == "" && e.status.Some? && 400 <= e.status.value <= 499))
  }

  /** `r` is the stored row `t` after one attempt, decided on the row `row` that the query read. */
  ghost predicate AfterAttempt(c: Config, t: Token, row: Token, e: Event, seal: Seal, r: Token) {
    && (!e.written || e.outcome.NoProvider? ==> r == t)
    && (e.written && (e.outcome.SealBroken? || e.outcome.Failed?) ==>
          && r == t.(failures := t.failures + 1, needsReauth := r.needsReauth)
          && (e.outcome.SealBroken? ==> r.needsReauth)
          && (e.outcome.Failed? ==> (r.needsReauth <==> Rejected(e.outcome.error) || row.failures + 1 >= c.reauthAfter)))
    && (e.written && e.outcome.Granted? ==>
          var g := e.outcome.grant;
          && r.provider == t.provider && r.access == seal(g.access)
          && (g.refresh == "" ==> r.refresh == t.refresh) && (g.refresh != "" ==> r.refresh == Some(seal(g.refresh)))
          && (g.expiry.Some? ==> r.expires == g.expiry.value) && (g.expiry.None? ==> r.expires == e.at + 3_600_000)
          && (g.tokenType != "" ==> r.tokenType == g.tokenType) && (g.tokenType == "" ==> r.tokenType == "Bearer")
          && r.scopes == NonEmpty(Split(g.scope, ' '))
          && !r.needsReauth && r.failures == 0 && r.lastRefreshed == Some(e.at))
  }

  lemma AttemptDoes(c: Config, t: Token, row: Token, e: Event, seal: Seal)
    ensures AfterAttempt(c, t, row, e, seal, Refreshed(c, t, row, e, seal))
  {
  }

  predicate IsSoft(e: Event) {
    e.written && e.outcome.Failed? && !IsHard(e.outcome.error)
  }

  /** A row after some attempts in a row, each on what the last one left. */
  ghost function Attempts(c: Config, t: Token, events: seq<Event>, seal: Seal): Token {
    if events == [] then t
    else
      var before := Attempts(c, t, events[..|events| - 1], seal);
      Refreshed(c, before, before, events[|events| - 1], seal)
  }

  /** Soft failures in a row give up exactly at the ReauthAfter-th; a success starts over. */
  lemma {:induction false} SoftFailuresGiveUp(c: Config, t: Token, events: seq<Event>, seal: Seal)
    requires ValidConfig(c) && !t.needsReauth && t.failures == 0
    requires forall i :: 0 <= i < |events| ==> IsSoft(events[i])
    ensures var r := Attempts(c, t, events, seal);
            r == t.(failures := |events|, needsReauth := |events| >= c.reauthAfter)
  {
    if events != [] {
      var earlier, last := events[..|events| - 1], events[|events| - 1];
      SoftFailuresGiveUp(c, t, earlier, seal);
      assert IsSoft(last);
    }
  }

  // ----- Scopes -----

  function NonEmpty(parts: seq<string>): seq<string> {
    if parts == [] then [] else (if parts[0] == "" then [] else [parts[0]]) + NonEmpty(parts[1..])
  }

  /** The space-separated words of a scope string. */
  function Fields(raw: string): seq<string> {
    NonEmpty(Split(raw, ' '))
  }

  lemma {:induction false} NonEmptySplits(a: seq<string>, b: seq<string>)
    ensures NonEmpty(a + b) == NonEmpty(a) + NonEmpty(b)
    decreases |a|
  {
    if a == [] {
      assert a + b == b;
    } else {
      assert (a + b)[1..] == a[1..] + b;
      NonEmptySplits(a[1..], b);
    }
  }

  lemma FieldsStep(word: string, rest: string)
    requires ' ' !in word
    ensures Fields(word + [' '] + rest) == (if word == "" then [] else [word]) + Fields(rest)
  {
    SplitOff(word, rest, ' ');
    NonEmptySplits([word], Split(rest, ' '));
    assert NonEmpty([word]) == (if word == "" then [] else [word]) + NonEmpty([]);
  }

  predicate NoSpace(raw: string, start: nat, end: nat)
    requires end <= |raw|
  {
    forall k :: start <= k < end ==> raw[k] != ' '
  }

  lemma FieldsCut(raw: string, start: nat, i: nat)
    requires start <= i < |raw| && raw[i] == ' ' && NoSpace(raw, start, i)
    ensures Fields(raw[start..]) == (if i == start then [] else [raw[start..i]]) + Fields(raw[i + 1..])
  {
    assert raw[start..] == raw[start..i] + [' '] + raw[i + 1..];
    FieldsStep(raw[start..i], raw[i + 1..]);
  }

  lemma FieldsEnd(raw: string, start: nat)
    requires start <= |raw| && NoSpace(raw, start, |raw|)
    ensures Fields(raw[start..]) == if start == |raw| then [] else [raw[start..]]
  {
    var word := raw[start..];
    SplitOne(word, ' ');
    assert NonEmpty([word]) == (if word == "" then [] else [word]) + NonEmpty([]);
  }

  /** The words from `start` on, none of whose characters before `i` is a space. */
  function WordsFrom(raw: string, start: nat, i: nat): seq<string>
    requires start <= i <= |raw|
    decreases |raw| - i
  {
    if i == |raw| then if start < |raw| then [raw[start..]] else []
    else if raw[i] != ' ' then WordsFrom(raw, start, i + 1)
    else (if i > start then [raw[start..i]] else []) + WordsFrom(raw, i + 1, i + 1)
  }

  lemma {:induction false} WordsAreFields(raw: string, start: nat, i: nat)
    requires start <= i <= |raw| && NoSpace(raw, start, i)
    ensures WordsFrom(raw, start, i) == Fields(raw[start..])
    decreases |raw| - i
  {
    if i == |raw| {
      FieldsEnd(raw, start);
    } else if raw[i] != ' ' {
      WordsAreFields(raw, start, i + 1);
    } else {
      FieldsCut(raw, start, i);
      WordsAreFields(raw, i + 1, i + 1);
    }
  }

  lemma ScopesAreWords(raw: string)
    ensures WordsFrom(raw, 0, 0) == Fields(raw)
  {
    WordsAreFields(raw, 0, 0);
    assert raw[0..] == raw;
  }

  method SplitScopes(raw: string) returns (out: seq<string>)
    ensures out == Fields(raw)
  {
    out := [];
    var start := 0;
    for i := 0 to |raw|
      invariant 0 <= start <= i
      invariant WordsFrom(raw, 0, 0) == out + WordsFrom(raw, start, i)
    {
      if raw[i] == ' ' {
        if i > start {
          out := out + [raw[start..i]];
        }
        start := i + 1;
      }
    }
    if start < |raw| {
      out := out + [raw[start..]];
    }
    ScopesAreWords(raw);
  }

  // ----- A tick -----

  predicate Eligible(t: Token, now: int, lead: int) {
    !t.needsReauth && t.refresh.Some? && t.expires < now + lead
  }

  /** What ListExpiringTokens may return: the soonest to expire, soonest first, as many as fit. */
  ghost predicate IsBatch(c: Config, db: Table, now: int, batch: seq<Id>) {
    && Distinct(batch) && |batch| <= c.batchSize
    && (forall i :: 0 <= i < |batch| ==> batch[i] in db && Eligible(db[batch[i]], now, c.leadTime))
    && (forall i, j :: 0 <= i < j < |batch| ==> db[batch[i]].expires <= db[batch[j]].expires)
    && (forall id :: id in db && id !in batch && Eligible(db[id], now, c.leadTime)
          ==> |batch| == c.batchSize && forall i :: 0 <= i < |batch| ==> db[batch[i]].expires <= db[id].expires)
  }

  /** What a tick attempts: rows with a refresh token and no flag that expire within the lead time; one of those is
      passed over only for a full batch of rows that expire no later. */
  lemma BatchIsDue(c: Config, db: Table, now: int, batch: seq<Id>)
    requires IsBatch(c, db, now, batch)
    ensures (forall id :: id in batch ==>
               id in db && !db[id].needsReauth && db[id].refresh.Some? && db[id].expires - now < c.leadTime)
    ensures (forall id :: id in db && id !in batch && !db[id].needsReauth && db[id].refresh.Some?
                          && db[id].expires - now < c.leadTime ==>
               |batch| == c.batchSize && forall x :: x in batch ==> db[x].expires <= db[id].expires)
  {
    forall id | id in db ensures Eligible(db[id], now, c.leadTime)
                            <==> !db[id].needsReauth && db[id].refresh.Some? && db[id].expires - now < c.leadTime
    {
    }
  }

  /** The table after a tick, every row of the batch handled once. */
  function Ticked(c: Config, db: Table, batch: seq<Id>, events: map<Id, Event>, seal: Seal): Table {
    map id | id in db :: if id in batch && id in events then Refreshed(c, db[id], db[id], events[id], seal) else db[id]
  }

  /** The rows handled one after another, each from the row the query read. */
  function Worked(c: Config, db: Table, rows: Table, order: seq<Id>, events: map<Id, Event>, seal: Seal): Table {
    if order == [] then db
    else
      var before := Worked(c, db, rows, order[..|order| - 1], events, seal);
      var id := order[|order| - 1];
      if id in before && id in rows && id in events
      then before[id := Refreshed(c, before[id], rows[id], events[id], seal)] else before
  }

  /** Whatever order the workers take the rows in, the tick has the same effect. */
  lemma OrderDoesNotMatter(c: Config, db: Table, batch: seq<Id>, order: seq<Id>, events: map<Id, Event>, seal: Seal)
    requires Distinct(order) && forall id :: id in order <==> id in batch
    ensures Worked(c, db, db, order, events, seal) == Ticked(c, db, batch, events, seal)
  {
    WorkedIsTicked(c, db, order, events, seal);
    var t, u := Ticked(c, db, order, events, seal), Ticked(c, db, batch, events, seal);
    forall id | id in db ensures t[id] == u[id] {
      assert id in order <==> id in batch;
    }
    assert t == u;
  }

  lemma {:induction false} WorkedIsTicked(c: Config, db: Table, order: seq<Id>, events: map<Id, Event>, seal: Seal)
    requires Distinct(order)
    ensures Worked(c, db, db, order, events, seal) == Ticked(c, db, order, events, seal)
  {
    if order == [] {
      assert Ticked(c, db, order, events, seal) == db;
    } else {
      var some, last := order[..|order| - 1], order[|order| - 1];
      assert order == some + [last] && last !in some;
      WorkedIsTicked(c, db, some, events, seal);
      OneMoreTicked(c, db, some, last, events, seal);
    }
  }

  lemma OneMoreTicked(c: Config, db: Table, some: seq<Id>, last: Id, events: map<Id, Event>, seal: Seal)
    requires last !in some
    ensures var before := Ticked(c, db, some, events, seal);
            && (last in db ==> before[last] == db[last])
            && Ticked(c, db, some + [last], events, seal)
               == if last in db && last in events
                  then before[last := Refreshed(c, db[last], db[last], events[last], seal)] else before
  {
    forall id ensures id in some + [last] <==> id in some || id == last {
    }
  }

  // ----- Every step -----

  datatype Step =
    | Tick(now: int, batch: seq<Id>, events: map<Id, Event>)
    | Upsert(id: Id, provider: string, grant: Grant, at: int)
    | Insert(id: Id, provider: string, grant: Grant, at: int)
    | Delete(id: Id)

  function NewRow(provider: string, g: Grant, seal: Seal, now: int): Token {
    Upserted(Token(provider, "", None, 0, [], "", false, 0, None), g, seal, now)
  }

  ghost predicate StepOk(c: Config, db: Table, s: Step) {
    s.Tick? ==> IsBatch(c, db, s.now, s.batch)
  }

  /** A tick, a link or re-authorisation elsewhere, a first link (refused when the row exists), an unlink. */
  function Apply(c: Config, db: Table, s: Step, seal: Seal): Table {
    match s
    case Tick(now, batch, events) => Ticked(c, db, batch, events, seal)
    case Upsert(id, provider, g, at) =>
      db[id := if id in db then Upserted(db[id], g, seal, at) else NewRow(provider, g, seal, at)]
    case Insert(id, provider, g, at) =>
      if id in db then db else db[id := NewRow(provider, g, seal, at).(lastRefreshed := None)]
    case Delete(id) => db - {id}
  }

  ghost predicate Counted(c: Config, t: Token) {
    !t.needsReauth ==> 0 <= t.failures < c.reauthAfter
  }

  ghost predicate Inv(c: Config, db: Table) {
    forall id :: id in db ==> Counted(c, db[id])
  }

  ghost predicate RunOk(c: Config, db: Table, steps: seq<Step>, seal: Seal)
    decreases |steps|
  {
    steps == [] || (StepOk(c, db, steps[0]) && RunOk(c, Apply(c, db, steps[0], seal), steps[1..], seal))
  }

  ghost function Run(c: Config, db: Table, steps: seq<Step>, seal: Seal): Table
    decreases |steps|
  {
    if steps == [] then db else Run(c, Apply(c, db, steps[0], seal), steps[1..], seal)
  }

  lemma StepKeepsInv(c: Config, db: Table, s: Step, seal: Seal)
    requires ValidConfig(c) && Inv(c, db) && StepOk(c, db, s)
    ensures Inv(c, Apply(c, db, s, seal))
  {
    var v := Apply(c, db, s, seal);
    forall id | id in v ensures Counted(c, v[id]) {
      assert id in db ==> Counted(c, db[id]);
    }
  }

  /** In every run, a row that does not need re-authorisation has failed fewer than ReauthAfter times. */
  lemma {:induction false} RunKeepsInv(c: Config, db: Table, steps: seq<Step>, seal: Seal)
    requires ValidConfig(c) && Inv(c, db) && RunOk(c, db, steps, seal)
    ensures Inv(c, Run(c, db, steps, seal))
    decreases |steps|
  {
    if steps != [] {
      StepKeepsInv(c, db, steps[0], seal);
      RunKeepsInv(c, Apply(c, db, steps[0], seal), steps[1..], seal);
    }
  }

  /** Nobody links, re-authorises or removes the row. */
  ghost predicate Untouched(steps: seq<Step>, id: Id) {
    forall s :: s in steps ==> !(s.Upsert? && s.id == id) && !(s.Delete? && s.id == id)
  }

  /** A row that needs re-authorisation is never attempted again until its user links anew. */
  lemma {:induction false} FlaggedRowsWait(c: Config, db: Table, steps: seq<Step>, seal: Seal, id: Id)
    requires id in db && db[id].needsReauth && RunOk(c, db, steps, seal) && Untouched(steps, id)
    ensures id in Run(c, db, steps, seal) && Run(c, db, steps, seal)[id] == db[id]
    decreases |steps|
  {
    if steps != [] {
      var s := steps[0];
      assert s in steps;
      if s.Tick? {
        assert id !in s.batch;
      }
      FlaggedRowsWait(c, Apply(c, db, s, seal), steps[1..], seal, id);
    }
  }

  ghost predicate Deletes(steps: seq<Step>, id: Id) {
    exists i :: 0 <= i < |steps| && steps[i] == Delete(id)
  }

  /** A stored refresh token is only ever replaced by another, until the row is deleted. */
  lemma {:induction false} RefreshTokenIsKept(c: Config, db: Table, steps: seq<Step>, seal: Seal, id: Id)
    requires id in db && db[id].refresh.Some? && !Deletes(steps, id)
    ensures var v := Run(c, db, steps, seal);
            && id in v && v[id].refresh.Some?
            && (v[id].refresh == db[id].refresh || exists r :: r != "" && v[id].refresh == Some(seal(r)))
    decreases |steps|
  {
    if steps != [] {
      var next := Apply(c, db, steps[0], seal);
      assert steps[0] != Delete(id);
      assert id in next && next[id].refresh.Some?;
      assert next[id].refresh == db[id].refresh || exists r :: r != "" && next[id].refresh == Some(seal(r));
      forall i | 0 <= i < |steps[1..]| ensures steps[1..][i] != Delete(id) {
        assert steps[1..][i] == steps[i + 1];
      }
      RefreshTokenIsKept(c, next, steps[1..], seal, id);
    }
  }

  // ----- No row starves -----

  /** Row `id` can come before row `x` in the query's order; rows with the same expiry count. */
  ghost predicate Ahead(db: Table, x: Id, id: Id)
    requires x in db
  {
    id != x && id in db && !db[id].needsReauth && db[id].refresh.Some? && db[id].expires <= db[x].expires
  }

  /** A row ahead of `x` whose provider is no longer configured: every tick skips it and leaves it as it is. */
  ghost predicate Skipped(db: Table, removed: set<string>, x: Id, id: Id)
    requires x in db
  {
    Ahead(db, x, id) && db[id].provider in removed
  }

  /** The tries row `id` has left while it is ahead of `x`. */
  ghost function Tries(c: Config, db: Table, removed: set<string>, x: Id, id: Id): int
    requires x in db
  {
    if Ahead(db, x, id) && !Skipped(db, removed, x, id) then c.reauthAfter - db[id].failures else 0
  }

  ghost function TriesOf(c: Config, db: Table, removed: set<string>, x: Id, ids: seq<Id>): int
    requires x in db
  {
    if ids == [] then 0 else Tries(c, db, removed, x, ids[0]) + TriesOf(c, db, removed, x, ids[1..])
  }

  /** Rows of a removed provider are skipped; of every other row handled the statement went through, and a new
      expiry lies beyond the lead time. */
  ghost predicate Healthy(c: Config, db: Table, removed: set<string>, now: int, batch: seq<Id>, events: map<Id, Event>) {
    forall id :: id in batch ==>
      && id in db && id in events && (events[id].outcome.NoProvider? <==> db[id].provider in removed)
      && (db[id].provider !in removed ==> events[id].written)
      && (events[id].outcome.Granted? ==> GrantExpiry(events[id].outcome.grant, events[id].at) >= now + c.leadTime)
  }

  lemma AttemptsUseTries(c: Config, db: Table, removed: set<string>, x: Id, now: int, batch: seq<Id>,
                         events: map<Id, Event>, seal: Seal, id: Id)
    requires ValidConfig(c) && Inv(c, db) && x in db && Eligible(db[x], now, c.leadTime)
    requires IsBatch(c, db, now, batch) && Healthy(c, db, removed, now, batch, events) && x !in batch
    ensures var v := Ticked(c, db, batch, events, seal);
            && v[x] == db[x]
            && 0 <= Tries(c, v, removed, x, id)
                 <= Tries(c, db, removed, x, id) - if id in batch && !Skipped(db, removed, x, id) then 1 else 0
  {
    if id in batch {
      assert Ahead(db, x, id);
      assert Counted(c, db[id]);
    } else if id in db {
      assert Counted(c, db[id]);
    }
  }

  /** How many of `ids` are in `s`. */
  ghost function Hits(ids: seq<Id>, s: set<Id>): nat {
    if ids == [] then 0 else (if ids[0] in s then 1 else 0) + Hits(ids[1..], s)
  }

  lemma {:induction false} FewerHits(ids: seq<Id>, s: set<Id>, t: set<Id>)
    requires s <= t
    ensures Hits(ids, s) <= Hits(ids, t)
  {
    if ids != [] {
      FewerHits(ids[1..], s, t);
    }
  }

  lemma {:induction false} AllAreHit(ids: seq<Id>, s: set<Id>)
    requires forall id :: id in s ==> id in ids
    ensures Hits(ids, s) >= |s|
  {
    if ids == [] {
      assert s == {} by {
        if s != {} {
          var id := Member(s);
        }
      }
    } else {
      var rest := s - {ids[0]};
      AllAreHit(ids[1..], rest);
      FewerHits(ids[1..], rest, s);
      if ids[0] in s {
        assert s == rest + {ids[0]};
      } else {
        assert s == rest;
      }
    }
  }

  function Members(batch: seq<Id>): set<Id> { set id | id in batch }

  lemma {:induction false} MembersCount(batch: seq<Id>)
    requires Distinct(batch)
    ensures |Members(batch)| == |batch|
  {
    if batch == [] {
      assert Members(batch) == {};
    } else {
      MembersCount(batch[1..]);
      assert batch == [batch[0]] + batch[1..] && batch[0] !in batch[1..];
      assert Members(batch) == {batch[0]} + Members(batch[1..]);
    }
  }

  lemma {:induction false} TickUsesTries(c: Config, db: Table, removed: set<string>, x: Id, now: int, batch: seq<Id>,
                                         events: map<Id, Event>, seal: Seal, ids: seq<Id>)
    requires ValidConfig(c) && Inv(c, db) && x in db && Eligible(db[x], now, c.leadTime)
    requires IsBatch(c, db, now, batch) && Healthy(c, db, removed, now, batch, events) && x !in batch
    ensures 0 <= TriesOf(c, Ticked(c, db, batch, events, seal), removed, x, ids)
              <= TriesOf(c, db, removed, x, ids) - Hits(ids, Members(batch) - SkippedOf(db, removed, x))
  {
    if ids != [] {
      AttemptsUseTries(c, db, removed, x, now, batch, events, seal, ids[0]);
      TickUsesTries(c, db, removed, x, now, batch, events, seal, ids[1..]);
    }
  }

  /** What others did between two ticks: no row moved ahead of `x`, none ahead of it changed its provider or
      got tries back. */
  ghost predicate Calm(c: Config, db: Table, x: Id, later: Table)
    requires x in db
  {
    && Inv(c, later) && x in later && later[x] == db[x]
    && forall id :: Ahead(later, x, id) ==>
         Ahead(db, x, id) && later[id].provider == db[id].provider && later[id].failures >= db[id].failures
  }

  lemma {:induction false} CalmKeepsTries(c: Config, db: Table, removed: set<string>, x: Id, later: Table, ids: seq<Id>)
    requires Inv(c, db) && x in db && Calm(c, db, x, later)
    ensures 0 <= TriesOf(c, later, removed, x, ids) <= TriesOf(c, db, removed, x, ids)
  {
    if ids != [] {
      CalmKeepsTries(c, db, removed, x, later, ids[1..]);
      assert Ahead(later, x, ids[0]) ==> Counted(c, later[ids[0]]);
      assert Ahead(db, x, ids[0]) ==> Counted(c, db[ids[0]]);
    }
  }

  /** One tick and the table the next one finds. */
  datatype Round = Round(now: int, batch: seq<Id>, events: map<Id, Event>, later: Table)

  /** A run of ticks that goes well, at least until `x` is attempted. */
  ghost predicate Rounds(c: Config, db: Table, removed: set<string>, x: Id, since: int, rounds: seq<Round>, seal: Seal)
    requires x in db
    decreases |rounds|
  {
    rounds == [] ||
    var r := rounds[0];
    && r.now >= since && IsBatch(c, db, r.now, r.batch) && Healthy(c, db, removed, r.now, r.batch, r.events)
    && (x !in r.batch ==>
          && Calm(c, Ticked(c, db, r.batch, r.events, seal), x, r.later)
          && Rounds(c, r.later, removed, x, r.now, rounds[1..], seal))
  }

  ghost predicate Attempted(x: Id, rounds: seq<Round>) {
    exists i :: 0 <= i < |rounds| && x in rounds[i].batch
  }

  lemma NeverLater(x: Id, rounds: seq<Round>)
    requires rounds != [] && !Attempted(x, rounds)
    ensures !Attempted(x, rounds[1..])
  {
    forall i | 0 <= i < |rounds[1..]| ensures x !in rounds[1..][i].batch {
      assert rounds[1..][i] == rounds[i + 1];
    }
  }

  lemma OneMore(n: int, b: int)
    ensures (n + 1) * b == n * b + b
  {
  }

  /** The rows that can come before `x`. */
  ghost function AheadOf(db: Table, x: Id): set<Id>
    requires x in db
  {
    set id | id in db && Ahead(db, x, id)
  }

  ghost function SkippedOf(db: Table, removed: set<string>, x: Id): set<Id>
    requires x in db
  {
    set id | id in db && Skipped(db, removed, x, id)
  }

  /** The rows ahead that a tick does handle are among `ids`, and at most `s` are skipped. */
  ghost predicate Known(db: Table, removed: set<string>, x: Id, ids: seq<Id>, s: nat)
    requires x in db
  {
    && |SkippedOf(db, removed, x)| <= s
    && forall id :: Ahead(db, x, id) && !Skipped(db, removed, x, id) ==> id in ids
  }

  /** While `x` waits with at most `s` skipped rows ahead of it, every tick uses up BatchSize - s tries. */
  lemma {:induction false} WaitingUsesTries(c: Config, db: Table, removed: set<string>, x: Id, since: int,
                                            rounds: seq<Round>, seal: Seal, ids: seq<Id>, s: nat)
    requires ValidConfig(c) && Inv(c, db) && x in db && Eligible(db[x], since, c.leadTime) && Known(db, removed, x, ids, s)
    requires Rounds(c, db, removed, x, since, rounds, seal) && !Attempted(x, rounds)
    ensures |rounds| * (c.batchSize - s) <= TriesOf(c, db, removed, x, ids)
    decreases |rounds|
  {
    if rounds == [] {
      CalmKeepsTries(c, db, removed, x, db, ids);
    } else {
      var r := rounds[0];
      assert x !in r.batch;
      NeverLater(x, rounds);
      FullBatch(c, db, removed, x, r.now, r.batch, ids, s);
      TickUsesTries(c, db, removed, x, r.now, r.batch, r.events, seal, ids);
      AheadShrinks(c, db, removed, x, r, seal, ids, s);
      WaitingUsesTries(c, r.later, removed, x, r.now, rounds[1..], seal, ids, s);
      OneMore(|rounds[1..]|, c.batchSize - s);
    }
  }

  lemma AheadShrinks(c: Config, db: Table, removed: set<string>, x: Id, r: Round, seal: Seal, ids: seq<Id>, s: nat)
    requires ValidConfig(c) && Inv(c, db) && x in db && Eligible(db[x], r.now, c.leadTime) && Known(db, removed, x, ids, s)
    requires IsBatch(c, db, r.now, r.batch) && Healthy(c, db, removed, r.now, r.batch, r.events) && x !in r.batch
    requires Calm(c, Ticked(c, db, r.batch, r.events, seal), x, r.later)
    ensures Inv(c, r.later) && r.later[x] == db[x] && Known(r.later, removed, x, ids, s)
    ensures TriesOf(c, r.later, removed, x, ids) <= TriesOf(c, Ticked(c, db, r.batch, r.events, seal), removed, x, ids)
  {
    var next := Ticked(c, db, r.batch, r.events, seal);
    StepKeepsInv(c, db, Tick(r.now, r.batch, r.events), seal);
    CalmKeepsTries(c, next, removed, x, r.later, ids);
    forall id | Ahead(r.later, x, id) ensures Ahead(db, x, id) && db[id].provider == r.later[id].provider {
      StaysAhead(c, db, removed, x, r, seal, id);
    }
    SubsetSize(SkippedOf(r.later, removed, x), SkippedOf(db, removed, x));
  }

  lemma StaysAhead(c: Config, db: Table, removed: set<string>, x: Id, r: Round, seal: Seal, id: Id)
    requires x in db && Eligible(db[x], r.now, c.leadTime) && IsBatch(c, db, r.now, r.batch) && x !in r.batch
    requires Healthy(c, db, removed, r.now, r.batch, r.events)
    requires Calm(c, Ticked(c, db, r.batch, r.events, seal), x, r.later) && Ahead(r.later, x, id)
    ensures Ahead(db, x, id) && db[id].provider == r.later[id].provider
  {
    var next := Ticked(c, db, r.batch, r.events, seal);
    assert Ahead(next, x, id);
  }

  lemma SubsetSize<T>(a: set<T>, b: set<T>)
    requires a <= b
    ensures |a| <= |b| && |b - a| == |b| - |a|
  {
    assert b == a + (b - a);
  }

  lemma DifferenceSize<T>(a: set<T>, b: set<T>)
    ensures |a - b| >= |a| - |b|
  {
    SubsetSize(a * b, b);
    SubsetSize(a * b, a);
    assert a - b == a - a * b;
  }

  lemma FullBatch(c: Config, db: Table, removed: set<string>, x: Id, now: int, batch: seq<Id>, ids: seq<Id>, s: nat)
    requires x in db && Eligible(db[x], now, c.leadTime) && IsBatch(c, db, now, batch) && x !in batch
    requires Known(db, removed, x, ids, s)
    ensures Hits(ids, Members(batch) - SkippedOf(db, removed, x)) >= c.batchSize - s
  {
    var skipped := SkippedOf(db, removed, x);
    forall id | id in Members(batch) - skipped ensures id in ids {
      var i :| 0 <= i < |batch| && batch[i] == id;
      assert Eligible(db[batch[i]], now, c.leadTime) && db[batch[i]].expires <= db[x].expires;
      assert Ahead(db, x, id);
    }
    AllAreHit(ids, Members(batch) - skipped);
    MembersCount(batch);
    DifferenceSize(Members(batch), skipped);
  }

  lemma TriesAtMost(c: Config, db: Table, removed: set<string>, x: Id, id: Id)
    requires ValidConfig(c) && Inv(c, db) && x in db
    ensures Tries(c, db, removed, x, id) <= c.reauthAfter
  {
    assert id in db ==> Counted(c, db[id]);
  }

  lemma {:induction false} TriesAreBounded(c: Config, db: Table, removed: set<string>, x: Id, ids: seq<Id>)
    requires ValidConfig(c) && Inv(c, db) && x in db
    ensures TriesOf(c, db, removed, x, ids) <= |ids| * c.reauthAfter
  {
    if ids != [] {
      TriesAreBounded(c, db, removed, x, ids[1..]);
      TriesAtMost(c, db, removed, x, ids[0]);
      OneMore(|ids[1..]|, c.reauthAfter);
    }
  }

  lemma {:induction false} Enumerate(s: set<Id>) returns (ids: seq<Id>)
    ensures |ids| == |s| && forall id :: id in s ==> id in ids
    decreases |s|
  {
    if s == {} {
      ids := [];
    } else {
      var id := Member(s);
      var rest := Enumerate(s - {id});
      ids := [id] + rest;
    }
  }

  lemma Floor(n: int, total: int, b: int)
    requires 0 < b && n * b <= total
    ensures n <= total / b
  {
    OneMore(total / b, b);
    MulGrows(total / b + 1, n, b);
  }

  lemma MulGrows(m: int, n: int, b: int)
    requires 0 < b
    ensures m <= n ==> m * b <= n * b
  {
    if m <= n {
      assert (n - m) * b >= 0;
    }
  }

  /** The ticks within which a row is attempted that has k rows ahead of it, s of them skipped. */
  function TickBound(c: Config, k: nat, s: nat): int
    requires ValidConfig(c) && s < c.batchSize
  {
    (k - s) * c.reauthAfter / (c.batchSize - s) + 1
  }

  lemma WaitIsBounded(c: Config, db: Table, removed: set<string>, x: Id, now: int, rounds: seq<Round>, seal: Seal)
    requires ValidConfig(c) && Inv(c, db) && x in db && Eligible(db[x], now, c.leadTime)
    requires Rounds(c, db, removed, x, now, rounds, seal) && !Attempted(x, rounds)
    ensures var (k, s) := (|AheadOf(db, x)|, |SkippedOf(db, removed, x)|);
            s <= k && |rounds| * (c.batchSize - s) <= (k - s) * c.reauthAfter
  {
    var skipped := SkippedOf(db, removed, x);
    var ids := Enumerate(AheadOf(db, x) - skipped);
    SubsetSize(skipped, AheadOf(db, x));
    WaitingUsesTries(c, db, removed, x, now, rounds, seal, ids, |skipped|);
    TriesAreBounded(c, db, removed, x, ids);
  }

  /** An eligible row with k rows ahead of it, s < BatchSize of them of removed providers, is attempted within
      (k - s) * ReauthAfter / (BatchSize - s) + 1 ticks. */
  lemma NoRowStarves(c: Config, db: Table, removed: set<string>, x: Id, now: int, rounds: seq<Round>, seal: Seal)
    requires ValidConfig(c) && Inv(c, db) && x in db && Eligible(db[x], now, c.leadTime)
    requires Rounds(c, db, removed, x, now, rounds, seal) && |SkippedOf(db, removed, x)| < c.batchSize
    requires |rounds| >= TickBound(c, |AheadOf(db, x)|, |SkippedOf(db, removed, x)|)
    ensures Attempted(x, rounds)
  {
    var k, s := |AheadOf(db, x)|, |SkippedOf(db, removed, x)|;
    if !Attempted(x, rounds) {
      WaitIsBounded(c, db, removed, x, now, rounds, seal);
      Floor(|rounds|, (k - s) * c.reauthAfter, c.batchSize - s);
    }
  }

  // ----- A row that starves -----

  /** The rows of removed providers that come before `x` whatever the query does with equal expiries. */
  ghost function Blockers(db: Table, removed: set<string>, x: Id): set<Id>
    requires x in db
  {
    set id | id in db && Skipped(db, removed, x, id) && db[id].expires < db[x].expires
  }

  lemma BlockersComeFirst(c: Config, db: Table, removed: set<string>, x: Id, now: int, batch: seq<Id>)
    requires x in db && IsBatch(c, db, now, batch) && x in batch
    ensures |Blockers(db, removed, x)| + 1 <= |batch|
  {
    var blockers := Blockers(db, removed, x);
    var i :| 0 <= i < |batch| && batch[i] == x;
    forall id | id in blockers ensures id in Members(batch) {
      assert Eligible(db[batch[i]], now, c.leadTime) && Eligible(db[id], now, c.leadTime);
    }
    MembersCount(batch);
    SubsetSize(blockers + {x}, Members(batch));
    assert x !in blockers;
    assert |blockers + {x}| == |blockers| + 1;
  }

  lemma BlockersFillTheBatch(c: Config, db: Table, removed: set<string>, x: Id, now: int, batch: seq<Id>)
    requires x in db && IsBatch(c, db, now, batch) && |Blockers(db, removed, x)| >= c.batchSize
    ensures x !in batch
  {
    if x in batch {
      BlockersComeFirst(c, db, removed, x, now, batch);
    }
  }

  /** A run of ticks in which removed providers' rows are skipped and nobody else touches them or `x`; what happens
      to all other rows, in ticks and in between, is left open. */
  ghost predicate LeftAlone(c: Config, db: Table, removed: set<string>, x: Id, rounds: seq<Round>, seal: Seal)
    requires x in db
    decreases |rounds|
  {
    rounds == [] ||
    var r := rounds[0];
    && IsBatch(c, db, r.now, r.batch)
    && (forall id :: id in r.batch && id in r.events && id in db && db[id].provider in removed ==>
          r.events[id].outcome.NoProvider?)
    && x in r.later
    && (x !in r.batch ==> r.later[x] == db[x])
    && (forall id :: id in Blockers(db, removed, x) ==>
          id in r.later && r.later[id] == Ticked(c, db, r.batch, r.events, seal)[id])
    && LeftAlone(c, r.later, removed, x, rounds[1..], seal)
  }

  /** With BatchSize or more rows of removed providers strictly ahead of it, a row is in no batch of any run. */
  lemma {:induction false} BlockedRowStarves(c: Config, db: Table, removed: set<string>, x: Id, rounds: seq<Round>, seal: Seal)
    requires x in db && |Blockers(db, removed, x)| >= c.batchSize && LeftAlone(c, db, removed, x, rounds, seal)
    ensures !Attempted(x, rounds)
    decreases |rounds|
  {
    if rounds != [] {
      var r := rounds[0];
      BlockersFillTheBatch(c, db, removed, x, r.now, r.batch);
      forall id | id in Blockers(db, removed, x) ensures id in Blockers(r.later, removed, x) {
        assert Ticked(c, db, r.batch, r.events, seal)[id] == db[id];
      }
      SubsetSize(Blockers(db, removed, x), Blockers(r.later, removed, x));
      BlockedRowStarves(c, r.later, removed, x, rounds[1..], seal);
      forall i | 0 <= i < |rounds| ensures x !in rounds[i].batch {
        assert i > 0 ==> rounds[i] == rounds[1..][i - 1];
      }
    }
  }

  /** The same tick n times: the one row it has room for is skipped again. */
  function SkippingRounds(db: Table, n: nat): seq<Round> {
    if n == 0 then [] else [Round(0, [1], map[1 := Event(NoProvider, 0, false)], db)] + SkippingRounds(db, n - 1)
  }

  /** A batch size of one, and a row of a removed provider that expires before another. */
  ghost predicate TwoRows(db: Table) {
    && db.Keys == {1, 2} && db[1].provider == "removed" && db[1].expires < db[2].expires < 10
    && Eligible(db[1], 0, 10) && Eligible(db[2], 0, 10)
  }

  lemma SkippedAgain(db: Table, r: Round, seal: Seal)
    requires TwoRows(db) && r == Round(0, [1], map[1 := Event(NoProvider, 0, false)], db)
    ensures IsBatch(Config(10, 1, 5), db, r.now, r.batch)
    ensures Ticked(Config(10, 1, 5), db, r.batch, r.events, seal) == db
  {
  }

  lemma OneMoreSkip(db: Table, r: Round, rest: seq<Round>, seal: Seal)
    requires TwoRows(db) && r == Round(0, [1], map[1 := Event(NoProvider, 0, false)], db)
    requires LeftAlone(Config(10, 1, 5), db, {"removed"}, 2, rest, seal)
    ensures LeftAlone(Config(10, 1, 5), db, {"removed"}, 2, [r] + rest, seal)
  {
    SkippedAgain(db, r, seal);
    assert ([r] + rest)[1..] == rest;
  }

  lemma {:induction false} SameRound(db: Table, n: nat, i: nat)
    requires i < n
    ensures |SkippingRounds(db, n)| == n && SkippingRounds(db, n)[i].batch == [1]
  {
    if i > 0 {
      SameRound(db, n - 1, i - 1);
    } else if n > 1 {
      SameRound(db, n - 1, 0);
    }
  }

  /** Such runs, of any length. */
  lemma {:induction false} AWaitWithoutEnd(db: Table, n: nat, seal: Seal)
    requires TwoRows(db)
    ensures LeftAlone(Config(10, 1, 5), db, {"removed"}, 2, SkippingRounds(db, n), seal)
    ensures |SkippingRounds(db, n)| == n && !Attempted(2, SkippingRounds(db, n))
  {
    if n > 0 {
      AWaitWithoutEnd(db, n - 1, seal);
      OneMoreSkip(db, SkippingRounds(db, n)[0], SkippingRounds(db, n - 1), seal);
    }
    forall i | 0 <= i < n ensures |SkippingRounds(db, n)| == n && 2 !in SkippingRounds(db, n)[i].batch {
      SameRound(db, n, i);
    }
  }

  // ----- The service -----

  class Refresher {
    const cfg: Config
    const seal: Seal
    var tokens: Table

    constructor (c: Config, f: Seal, db: Table)
      ensures ValidConfig(cfg) && cfg == WithDefaults(c) && seal == f && tokens == db
    {
      cfg, seal, tokens := WithDefaults(c), f, db;
    }

    /** The jobs are handed out in the order of the batch; OrderDoesNotMatter covers the other orders. */
    method Tick(now: int, batch: seq<Id>, events: map<Id, Event>)
      requires IsBatch(cfg, tokens, now, batch)
      requires forall id :: id in batch ==> id in events
      modifies this
      ensures tokens == Ticked(cfg, old(tokens), batch, events, seal)
    {
      ghost var before := tokens;
      if |batch| == 0 {
        assert tokens == Ticked(cfg, before, batch, events, seal);
        return;
      }
      var rows := map id | id in batch :: tokens[id];
      assert batch[..0] == [];
      for i := 0 to |batch|
        invariant tokens == Worked(cfg, before, before, batch[..i], events, seal)
        invariant tokens.Keys == before.Keys
      {
        assert batch[..i + 1][..i] == batch[..i];
        RefreshOne(batch[i], rows[batch[i]], events[batch[i]]);
      }
      assert batch[..|batch|] == batch;
      OrderDoesNotMatter(cfg, before, batch, batch, events, seal);
    }

    method RefreshOne(id: Id, row: Token, e: Event)
      requires id in tokens
      modifies this
      ensures tokens == old(tokens)[id := Refreshed(cfg, old(tokens)[id], row, e, seal)]
      ensures AfterAttempt(cfg, old(tokens)[id], row, e, seal, tokens[id])
    {
      AttemptDoes(cfg, tokens[id], row, e, seal);
      assert tokens[id := tokens[id]] == tokens;
      if e.outcome.NoProvider? {
        return;
      }
      if e.outcome.SealBroken? {
        MarkTokenRefreshFailed(id, true, e.written);
        return;
      }
      if e.outcome.Failed? {
        if IsHard(e.outcome.error) {
          MarkTokenRefreshFailed(id, true, e.written);
          return;
        }
        var needsReauth := row.failures + 1 >= cfg.reauthAfter;
        MarkTokenRefreshFailed(id, needsReauth, e.written);
        return;
      }
      PersistRefreshed(id, e.outcome.grant, e.at, e.written);
    }

    method MarkTokenRefreshFailed(id: Id, needsReauth: bool, written: bool)
      requires id in tokens
      modifies this
      ensures tokens == if written then old(tokens)[id := Marked(old(tokens)[id], needsReauth)] else old(tokens)
    {
      if written {
        var t := tokens[id];
        tokens := tokens[id := t.(failures := t.failures + 1, needsReauth := needsReauth)];
      }
    }

    method PersistRefreshed(id: Id, g: Grant, now: int, written: bool)
      requires id in tokens
      modifies this
      ensures tokens == if written then old(tokens)[id := Upserted(old(tokens)[id], g, seal, now)] else old(tokens)
    {
      var sealedAccess, sealedRefresh := seal(g.access), None;
      if g.refresh != "" {
        sealedRefresh := Some(seal(g.refresh));
      }
      var exp := if g.expiry.None? then now + HOUR else g.expiry.value;
      var scopes := SplitScopes(g.scope);
      var tokenType := if g.tokenType == "" then "Bearer" else g.tokenType;
      if written {
        var t := tokens[id];
        tokens := tokens[id := Token(t.provider, sealedAccess,
                                     if sealedRefresh.Some? then sealedRefresh else t.refresh, exp, scopes, tokenType,
                                     false, 0, Some(now))];
      }
    }
  }
}
