/** The device authorization flow (internal/auth/devicecode/devicecode.go, RFC 8628) over its three Redis
    maps: flow states, the flow each (user, provider) has, and a counter of recent starts.

    Times are milliseconds. Begin and Poll are steps; each may take time, spent waiting for the provider. */
module DeviceCode {
  import opened Common
  import opened Text

  type FlowId = string

  type Provider = string

  datatype Slot = Slot(user: int, provider: Provider)

  /** flowState; `lastPollAt` is None before the first poll. */
  datatype Flow = Flow(slot: Slot, deviceCode: string, intervalSeconds: int, expiresAt: int, lastPollAt: Option<int>)

  /** A Redis value with the time it goes away, if it has one. */
  datatype Entry<T> = Entry(value: T, expires: Option<int>)

  datatype Db = Db(flows: map<FlowId, Entry<Flow>>, users: map<Slot, Entry<FlowId>>, begins: map<int, Entry<int>>)

  /** The device endpoint's answer. */
  datatype DeviceResponse = DeviceResponse(deviceCode: string, expiresIn: int, interval: int)

  datatype Commit = Failed | Duplicate | Linked

  /** The token endpoint's answer; Tokens carries what became of the link. */
  datatype Reply = Failure | AuthorizationPending | SlowDown | AccessDenied | ExpiredToken | OtherCode
                 | Tokens(commit: Commit)

  datatype Result = ResultPending(next: int) | ResultSlowDown(next: int) | ResultApproved | ResultDenied
                  | ResultExpired | ResultDuplicate | ResultError

  datatype Started = Unavailable | RateLimited | RequestFailed | Begun(id: FlowId)

  const SECOND: int := 1000
  const BEGIN_RATE_LIMIT: int := 6
  const BEGIN_RATE_TTL: int := 60 * SECOND
  const DEFAULT_INTERVAL: int := 5

  // ----- Redis -----

  predicate Kept<T>(e: Entry<T>, now: int) {
    e.expires.None? || now < e.expires.value
  }

  predicate Live<K, T>(m: map<K, Entry<T>>, k: K, now: int) {
    k in m && Kept(m[k], now)
  }

  /** SET with a TTL; a TTL that is not positive sets no expiry. */
  function Lasting<T>(v: T, now: int, ttl: int): Entry<T> {
    Entry(v, if ttl > 0 then Some(now + ttl) else None)
  }

  // ----- Begin -----

  function CountBegin(db: Db, user: int, now: int): Db {
    var live := Live(db.begins, user, now);
    var count := if live then db.begins[user].value + 1 else 1;
    var expires := if count == 1 then Some(now + BEGIN_RATE_TTL) else db.begins[user].expires;
    db.(begins := db.begins[user := Entry(count, expires)])
  }

  /** Deletes a flow and the user's key. */
  function Cleanup(db: Db, id: FlowId, slot: Slot): Db {
    db.(flows := db.flows - {id}, users := db.users - {slot})
  }

  function DropOld(db: Db, slot: Slot, now: int): Db {
    if Live(db.users, slot, now) && db.users[slot].value != "" then Cleanup(db, db.users[slot].value, slot) else db
  }

  function Interval(r: DeviceResponse): int {
    if r.interval == 0 then DEFAULT_INTERVAL else r.interval
  }

  function NewFlow(slot: Slot, r: DeviceResponse, now: int): Flow {
    Flow(slot, r.deviceCode, Interval(r), now + r.expiresIn * SECOND, None)
  }

  function Store(db: Db, id: FlowId, slot: Slot, r: DeviceResponse, now: int): Db {
    db.(flows := db.flows[id := Lasting(NewFlow(slot, r, now), now, r.expiresIn * SECOND)],
        users := db.users[slot := Lasting(id, now, r.expiresIn * SECOND)])
  }

  predicate Admitted(db: Db, user: int, now: int) {
    CountBegin(db, user, now).begins[user].value <= BEGIN_RATE_LIMIT
  }

  predicate Stores(db: Db, slot: Slot, configured: bool, r: Option<DeviceResponse>, now: int) {
    configured && Admitted(db, slot.user, now) && r.Some?
  }

  function Begin(db: Db, slot: Slot, configured: bool, r: Option<DeviceResponse>, id: FlowId, now: int, after: int): Db {
    if !configured then db
    else if !Admitted(db, slot.user, now) then CountBegin(db, slot.user, now)
    else
      var dropped := DropOld(CountBegin(db, slot.user, now), slot, now);
      if r.None? then dropped else Store(dropped, id, slot, r.value, after)
  }

  // ----- Poll -----

  /** The interval in force: five seconds where the provider gave no positive one. */
  function InForce(intervalSeconds: int): int {
    if intervalSeconds <= 0 then DEFAULT_INTERVAL * SECOND else intervalSeconds * SECOND
  }

  function Persist(db: Db, id: FlowId, f: Flow, now: int): Db {
    if f.expiresAt - now <= 0 then Cleanup(db, id, f.slot)
    else db.(flows := db.flows[id := Lasting(f, now, f.expiresAt - now)])
  }

  /** What is left to wait before the token endpoint may be asked again. */
  function Remaining(f: Flow, now: int): int {
    if f.lastPollAt.None? then 0 else f.lastPollAt.value + InForce(f.intervalSeconds) - now
  }

  predicate Asks(f: Flow, configured: bool, now: int) {
    configured && now <= f.expiresAt && Remaining(f, now) <= 0
  }

  /** What follows the answer to a request for flow state `f`. */
  function Resolve(db: Db, id: FlowId, f: Flow, reply: Reply, after: int): Db {
    match reply
    case Failure => db
    case AuthorizationPending => Persist(db, id, f.(lastPollAt := Some(after)), after)
    case SlowDown =>
      Persist(db, id, f.(lastPollAt := Some(after), intervalSeconds := f.intervalSeconds + 5), after)
    case Tokens(Failed) => db
    case _ => Cleanup(db, id, f.slot)
  }

  function ResultOf(f: Flow, reply: Reply): Result {
    match reply
    case Failure => ResultError
    case AuthorizationPending => ResultPending(InForce(f.intervalSeconds))
    case SlowDown => ResultSlowDown((f.intervalSeconds + 5) * SECOND)
    case AccessDenied => ResultDenied
    case ExpiredToken => ResultExpired
    case OtherCode => ResultDenied
    case Tokens(Failed) => ResultError
    case Tokens(Duplicate) => ResultDuplicate
    case Tokens(Linked) => ResultApproved
  }

  function Poll(db: Db, id: FlowId, configured: bool, reply: Reply, now: int, after: int): Db {
    if !Live(db.flows, id, now) then db
    else
      var f := db.flows[id].value;
      if !configured || now > f.expiresAt then Cleanup(db, id, f.slot)
      else if Remaining(f, now) > 0 then db
      else Resolve(db, id, f, reply, after)
  }

  function PollResult(db: Db, id: FlowId, configured: bool, reply: Reply, now: int): Result {
    if !Live(db.flows, id, now) then ResultExpired
    else
      var f := db.flows[id].value;
      if !configured || now > f.expiresAt then ResultExpired
      else if Remaining(f, now) > 0 then ResultPending(Remaining(f, now))
      else ResultOf(f, reply)
  }

  predicate Terminal(r: Result) {
    r.ResultApproved? || r.ResultDenied? || r.ResultExpired? || r.ResultDuplicate?
  }

  // ----- Runs -----

  /** One request to the token endpoint. */
  datatype Contact = Contact(id: FlowId, sent: int, answered: int, reply: Reply)

  /** The database, the clock, every flow id ever minted or polled, the interval each flow began with, and
      the log of requests. */
  datatype World = World(db: Db, now: int, seen: set<FlowId>, begun: map<FlowId, int>, contacts: seq<Contact>)

  datatype Step =
    | Wait(time: nat)
    | DoBegin(slot: Slot, configured: bool, response: Option<DeviceResponse>, id: FlowId, took: nat)
    | DoPoll(id: FlowId, configured: bool, reply: Reply, took: nat)

  /** Minted flow ids are 22 random characters, never met before. */
  predicate Fresh(w: World, s: Step) {
    s.DoBegin? ==> s.id != "" && s.id !in w.seen
  }

  predicate Contacts(w: World, s: Step) {
    s.DoPoll? && Live(w.db.flows, s.id, w.now) && Asks(w.db.flows[s.id].value, s.configured, w.now)
  }

  function Apply(w: World, s: Step): World {
    match s
    case Wait(t) => w.(now := w.now + t)
    case DoBegin(slot, configured, r, id, took) =>
      World(Begin(w.db, slot, configured, r, id, w.now, w.now + took), w.now + took, w.seen + {id},
            if Stores(w.db, slot, configured, r, w.now) then w.begun[id := Interval(r.value)] else w.begun, w.contacts)
    case DoPoll(id, configured, reply, took) =>
      World(Poll(w.db, id, configured, reply, w.now, w.now + took), w.now + took, w.seen + {id}, w.begun,
            if Contacts(w, s) then w.contacts + [Contact(id, w.now, w.now + took, reply)] else w.contacts)
  }

  ghost predicate RunOk(w: World, steps: seq<Step>)
    decreases |steps|
  {
    steps == [] || (Fresh(w, steps[0]) && RunOk(Apply(w, steps[0]), steps[1..]))
  }

  ghost function Run(w: World, steps: seq<Step>): World
    decreases |steps|
  {
    if steps == [] then w else Run(Apply(w, steps[0]), steps[1..])
  }

  /** How often the provider has said slow_down to this flow. */
  function SlowDowns(contacts: seq<Contact>, id: FlowId): nat {
    if contacts == [] then 0
    else
      var last := contacts[|contacts| - 1];
      SlowDowns(contacts[..|contacts| - 1], id) + if last.id == id && last.reply == SlowDown then 1 else 0
  }

  predicate AsksToWait(r: Reply) {
    r == AuthorizationPending || r == SlowDown
  }

  /** The interval section 3.5 of RFC 8628 puts in force after contact k: what the flow began with plus
      five seconds for every slow_down so far. */
  function WaitAfter(w: World, k: nat): int
    requires k < |w.contacts| && w.contacts[k].id in w.begun
  {
    InForce(w.begun[w.contacts[k].id] + 5 * SlowDowns(w.contacts[..k + 1], w.contacts[k].id))
  }

  // ----- One live flow per user and provider -----

  ghost predicate FlowOk(w: World, id: FlowId)
    requires id in w.db.flows
  {
    var e := w.db.flows[id];
    var slot := e.value.slot;
    && id in w.begun
    && e.value.intervalSeconds == w.begun[id] + 5 * SlowDowns(w.contacts, id)
    && (match e.expires case Some(t) => t == e.value.expiresAt case None => e.value.expiresAt <= w.now)
    && slot in w.db.users && w.db.users[slot] == Entry(id, e.expires)
  }

  /** Every live flow is the one its user's key names, and that key lives as long. */
  ghost predicate Named(w: World) {
    forall id :: Live(w.db.flows, id, w.now) ==> FlowOk(w, id)
  }

  ghost predicate Logged(w: World) {
    && w.begun.Keys <= w.seen && w.db.flows.Keys <= w.seen && "" !in w.db.flows
    && forall k :: 0 <= k < |w.contacts| ==> w.contacts[k].id in w.begun && w.contacts[k].answered <= w.now
  }

  /** A live flow's next request waits for every earlier reply that asked to wait. */
  ghost predicate Holding(w: World, k: nat)
    requires Logged(w) && k < |w.contacts|
  {
    var c := w.contacts[k];
    AsksToWait(c.reply) && Live(w.db.flows, c.id, w.now)
    ==> var f := w.db.flows[c.id].value;
        f.lastPollAt.Some? && f.lastPollAt.value + InForce(f.intervalSeconds) >= c.answered + WaitAfter(w, k)
  }

  ghost predicate Spaced(w: World, j: nat, k: nat)
    requires Logged(w) && j < k < |w.contacts|
  {
    w.contacts[j].id == w.contacts[k].id && AsksToWait(w.contacts[j].reply)
    ==> w.contacts[k].sent >= w.contacts[j].answered + WaitAfter(w, j)
  }

  ghost predicate Inv(w: World) {
    && Named(w) && Logged(w)
    && (forall k: nat :: k < |w.contacts| ==> Holding(w, k))
    && (forall j: nat, k: nat :: j < k < |w.contacts| ==> Spaced(w, j, k))
  }

  // ----- Every step keeps the invariant -----

  lemma OneMoreContact(contacts: seq<Contact>, c: Contact, id: FlowId)
    ensures SlowDowns(contacts + [c], id) == SlowDowns(contacts, id) + if c.id == id && c.reply == SlowDown then 1 else 0
  {
    assert (contacts + [c])[..|contacts|] == contacts;
  }

  /** More log and more flows do not change the wait after an earlier contact. */
  lemma WaitStays(w: World, v: World, k: nat)
    requires k < |w.contacts| && w.contacts <= v.contacts
    requires w.contacts[k].id in w.begun && w.contacts[k].id in v.begun
    requires w.begun[w.contacts[k].id] == v.begun[w.contacts[k].id]
    ensures WaitAfter(w, k) == WaitAfter(v, k)
  {
    assert w.contacts[..k + 1] == v.contacts[..k + 1];
  }

  lemma WaitingKeepsInv(w: World, t: nat)
    requires Inv(w)
    ensures Inv(Apply(w, Wait(t)))
  {
    var v := Apply(w, Wait(t));
    forall id | Live(v.db.flows, id, v.now) ensures FlowOk(v, id) {
      assert Live(w.db.flows, id, w.now) && FlowOk(w, id);
    }
    forall k: nat | k < |v.contacts| ensures Holding(v, k) {
      assert Holding(w, k);
      WaitStays(w, v, k);
    }
    forall j: nat, k: nat | j < k < |v.contacts| ensures Spaced(v, j, k) {
      assert Spaced(w, j, k);
      WaitStays(w, v, j);
    }
  }

  /** The flows other than the new one come from before, and only where their slot is another one. */
  lemma FlowsAfterBegin(w: World, s: Step, id: FlowId)
    requires Inv(w) && s.DoBegin? && Fresh(w, s)
    requires var v := Apply(w, s); Live(v.db.flows, id, v.now)
    ensures var v := Apply(w, s);
            if id == s.id then
              && Stores(w.db, s.slot, s.configured, s.response, w.now)
              && v.db.flows[id].value == NewFlow(s.slot, s.response.value, v.now)
              && v.db.users[s.slot] == Entry(id, v.db.flows[id].expires)
            else
              && Live(w.db.flows, id, w.now) && v.db.flows[id] == w.db.flows[id]
              && (v.db.users == w.db.users || w.db.flows[id].value.slot != s.slot)
  {
    var slot, v := s.slot, Apply(w, s);
    assert s.id !in w.db.flows.Keys && s.id !in w.db.flows;
    if !Stores(w.db, slot, s.configured, s.response, w.now) {
      assert v.db.flows.Keys <= w.db.flows.Keys;
    }
    if id != s.id && id in w.db.flows {
      assert Live(w.db.flows, id, w.now);
      assert FlowOk(w, id);
      if w.db.flows[id].value.slot == slot {
        assert w.db.users[slot] == Entry(id, w.db.flows[id].expires);
        assert Live(w.db.users, slot, w.now);
      }
    }
  }

  lemma SlotsAfterBegin(w: World, s: Step, slot: Slot)
    requires s.DoBegin? && slot != s.slot && slot in w.db.users
    ensures slot in Apply(w, s).db.users && Apply(w, s).db.users[slot] == w.db.users[slot]
  {
  }

  lemma BeginKeepsNamed(w: World, s: Step)
    requires Inv(w) && s.DoBegin? && Fresh(w, s)
    ensures Named(Apply(w, s))
  {
    var v := Apply(w, s);
    forall id | Live(v.db.flows, id, v.now) ensures FlowOk(v, id) {
      FlowsAfterBegin(w, s, id);
      if id == s.id {
        NoContactsYet(w.contacts, id, w);
      } else {
        assert FlowOk(w, id);
        if w.db.flows[id].value.slot != s.slot {
          SlotsAfterBegin(w, s, w.db.flows[id].value.slot);
        }
      }
    }
  }

  lemma {:induction false} NoContactsYet(contacts: seq<Contact>, id: FlowId, w: World)
    requires Logged(w) && contacts <= w.contacts && id !in w.seen
    ensures SlowDowns(contacts, id) == 0
  {
    if contacts != [] {
      var k := |contacts| - 1;
      assert contacts[k] == w.contacts[k];
      NoContactsYet(contacts[..k], id, w);
    }
  }

  lemma BeginKeepsInv(w: World, s: Step)
    requires Inv(w) && s.DoBegin? && Fresh(w, s)
    ensures Inv(Apply(w, s))
  {
    var v := Apply(w, s);
    BeginKeepsNamed(w, s);
    assert v.db.flows.Keys <= w.db.flows.Keys + {s.id};
    forall k: nat | k < |v.contacts| ensures Holding(v, k) {
      assert Holding(w, k);
      WaitStays(w, v, k);
      var id := w.contacts[k].id;
      if Live(v.db.flows, id, v.now) {
        FlowsAfterBegin(w, s, id);
      }
    }
    forall j: nat, k: nat | j < k < |v.contacts| ensures Spaced(v, j, k) {
      assert Spaced(w, j, k);
      WaitStays(w, v, j);
    }
  }

  /** A poll touches its own flow only, and keeps the user's key while it keeps the flow. */
  lemma FlowsAfterPoll(w: World, s: Step, id: FlowId)
    requires Inv(w) && s.DoPoll?
    requires var v := Apply(w, s); Live(v.db.flows, id, v.now)
    ensures Live(w.db.flows, id, w.now)
    ensures var v, f := Apply(w, s), w.db.flows[id].value;
            && f.slot in v.db.users && v.db.users[f.slot] == w.db.users[f.slot]
            && (v.db.flows[id].expires == w.db.flows[id].expires)
            && v.db.flows[id].value
               == if !(id == s.id && Contacts(w, s) && AsksToWait(s.reply)) then f
                  else f.(lastPollAt := Some(v.now),
                          intervalSeconds := f.intervalSeconds + if s.reply == SlowDown then 5 else 0)
  {
    var v := Apply(w, s);
    if id != s.id {
      assert Live(w.db.flows, id, w.now);
      assert FlowOk(w, id);
      if Live(w.db.flows, s.id, w.now) { assert FlowOk(w, s.id); }
    } else {
      assert FlowOk(w, id);
    }
  }

  lemma LogAfterPoll(w: World, s: Step, id: FlowId)
    requires s.DoPoll?
    ensures SlowDowns(Apply(w, s).contacts, id)
         == SlowDowns(w.contacts, id) + if id == s.id && Contacts(w, s) && s.reply == SlowDown then 1 else 0
  {
    if Contacts(w, s) {
      OneMoreContact(w.contacts, Contact(s.id, w.now, w.now + s.took, s.reply), id);
    }
  }

  lemma PollKeepsNamed(w: World, s: Step)
    requires Inv(w) && s.DoPoll?
    ensures Named(Apply(w, s)) && Logged(Apply(w, s))
  {
    var v := Apply(w, s);
    forall id | Live(v.db.flows, id, v.now) ensures FlowOk(v, id) {
      FlowsAfterPoll(w, s, id);
      LogAfterPoll(w, s, id);
      assert FlowOk(w, id);
    }
    if Contacts(w, s) {
      assert FlowOk(w, s.id);
    }
    assert v.db.flows.Keys <= w.db.flows.Keys + {s.id};
  }

  /** The next poll of a flow waits for the earlier replies and for the new one. */
  lemma PollKeepsHolding(w: World, s: Step, k: nat)
    requires Inv(w) && s.DoPoll? && k < |Apply(w, s).contacts|
    requires Logged(Apply(w, s))
    ensures Holding(Apply(w, s), k)
  {
    var v := Apply(w, s);
    var id := v.contacts[k].id;
    if Live(v.db.flows, id, v.now) {
      FlowsAfterPoll(w, s, id);
      if k < |w.contacts| {
        assert Holding(w, k);
        WaitStays(w, v, k);
      } else {
        LogAfterPoll(w, s, id);
        assert FlowOk(w, id);
        assert v.contacts[..k + 1] == v.contacts;
      }
    }
  }

  lemma PollKeepsSpacing(w: World, s: Step, j: nat, k: nat)
    requires Inv(w) && s.DoPoll? && j < k < |Apply(w, s).contacts|
    requires Logged(Apply(w, s))
    ensures Spaced(Apply(w, s), j, k)
  {
    WaitStays(w, Apply(w, s), j);
    if k < |w.contacts| {
      assert Spaced(w, j, k);
    } else {
      assert Holding(w, j);
    }
  }

  lemma StepKeepsInv(w: World, s: Step)
    requires Inv(w) && Fresh(w, s)
    ensures Inv(Apply(w, s))
  {
    match s
    case Wait(t) => WaitingKeepsInv(w, t);
    case DoBegin(_, _, _, _, _) => BeginKeepsInv(w, s);
    case DoPoll(_, _, _, _) =>
      var v := Apply(w, s);
      PollKeepsNamed(w, s);
      forall k: nat | k < |v.contacts| ensures Holding(v, k) { PollKeepsHolding(w, s, k); }
      forall j: nat, k: nat | j < k < |v.contacts| ensures Spaced(v, j, k) { PollKeepsSpacing(w, s, j, k); }
  }

  lemma {:induction false} RunKeepsInv(w: World, steps: seq<Step>)
    requires Inv(w) && RunOk(w, steps)
    ensures Inv(Run(w, steps))
    decreases |steps|
  {
    if steps != [] {
      StepKeepsInv(w, steps[0]);
      RunKeepsInv(Apply(w, steps[0]), steps[1..]);
    }
  }

  function Start(now: int): World {
    World(Db(map[], map[], map[]), now, {}, map[], [])
  }

  /** At any point of any run, two live flows of one user and provider are the same flow, and it is the one
      the user's key names. */
  lemma OneLiveFlow(start: int, steps: seq<Step>, a: FlowId, b: FlowId)
    requires RunOk(Start(start), steps)
    requires var w := Run(Start(start), steps);
             && Live(w.db.flows, a, w.now) && Live(w.db.flows, b, w.now)
             && w.db.flows[a].value.slot == w.db.flows[b].value.slot
    ensures a == b
    ensures var w := Run(Start(start), steps);
            var slot := w.db.flows[a].value.slot;
            Live(w.db.users, slot, w.now) && w.db.users[slot].value == a
  {
    RunKeepsInv(Start(start), steps);
    var w := Run(Start(start), steps);
    assert FlowOk(w, a) && FlowOk(w, b);
  }

  /** In any run, once the provider has answered "pending" or "slow down", every later request for that
      flow comes at least the interval then in force after the answer. */
  lemma RequestsAreSpaced(start: int, steps: seq<Step>, j: nat, k: nat)
    requires RunOk(Start(start), steps)
    requires var c := Run(Start(start), steps).contacts;
             j < k < |c| && c[j].id == c[k].id && AsksToWait(c[j].reply)
    ensures var w := Run(Start(start), steps);
            w.contacts[j].id in w.begun && w.contacts[k].sent >= w.contacts[j].answered + WaitAfter(w, j)
  {
    RunKeepsInv(Start(start), steps);
    assert Spaced(Run(Start(start), steps), j, k);
  }

  /** A slow_down answer lengthens the wait in force by the five seconds asked for exactly when the stored
      interval was positive: below that the default of five seconds stands in for it, before or after. It
      even shortens the wait exactly when the stored interval was between -4 and -1 seconds. */
  lemma SlowDownAddsFiveSeconds(db: Db, id: FlowId, now: int, after: int)
    requires Live(db.flows, id, now) && Asks(db.flows[id].value, true, now) && after < db.flows[id].value.expiresAt
    ensures var (f, next) := (db.flows[id].value, Poll(db, id, true, SlowDown, now, after));
            && Live(next.flows, id, after)
            && var wait := InForce(next.flows[id].value.intervalSeconds);
               && (wait == InForce(f.intervalSeconds) + 5 * SECOND <==> f.intervalSeconds > 0)
               && (wait < InForce(f.intervalSeconds) <==> -5 < f.intervalSeconds < 0)
  {
  }

  /** A provider that names an interval of -2 seconds: five seconds are in force, a slow_down comes, and the
      next request goes out three seconds after it. */
  lemma SlowDownCanSpeedUp(slot: Slot, id: FlowId) returns (begin: Step, poll: Step, again: Step)
    requires id != ""
    ensures begin.DoBegin? && poll == DoPoll(id, true, SlowDown, 0) && again == DoPoll(id, true, AuthorizationPending, 0)
    ensures var begun := Apply(Start(0), begin);
            var c := Apply(Apply(Apply(begun, poll), Wait(3000)), again).contacts;
            && Fresh(Start(0), begin) && Live(begun.db.flows, id, 0)
            && InForce(begun.db.flows[id].value.intervalSeconds) == 5 * SECOND
            && |c| == 2 && c[0].reply == SlowDown && c[1].sent == c[0].answered + 3 * SECOND
  {
    var r := DeviceResponse("code", 900, -2);
    begin := DoBegin(slot, true, Some(r), id, 0);
    poll, again := DoPoll(id, true, SlowDown, 0), DoPoll(id, true, AuthorizationPending, 0);
    FirstBegin(begin, slot, r, id);
    var begun := Apply(Start(0), begin);
    PollOnce(begun, id, SlowDown);
    PollOnce(Apply(Apply(begun, poll), Wait(3000)), id, AuthorizationPending);
  }

  /** An admitted and answered Begin leaves its flow live and named. */
  lemma BegunIsLive(db: Db, slot: Slot, r: DeviceResponse, id: FlowId, now: int)
    requires Admitted(db, slot.user, now) && r.expiresIn > 0
    ensures var v := Begin(db, slot, true, Some(r), id, now, now);
            && LiveFlow(v, id, slot, now) && v.flows[id].value == NewFlow(slot, r, now)
            && slot in v.users && v.users[slot].value == id
  {
  }

  lemma FirstBegin(first: Step, slot: Slot, r: DeviceResponse, a: FlowId)
    requires first == DoBegin(slot, true, Some(r), a, 0) && a != "" && r.expiresIn > 0
    ensures Fresh(Start(0), first)
    ensures var w := Apply(Start(0), first);
            && w.now == 0 && w.seen == {a} && LiveFlow(w.db, a, slot, 0) && w.db.flows[a].value == NewFlow(slot, r, 0)
            && Admitted(w.db, slot.user, 0)
  {
    BegunIsLive(Start(0).db, slot, r, a, 0);
  }

  lemma PollOnce(w: World, id: FlowId, reply: Reply)
    requires Live(w.db.flows, id, w.now) && Asks(w.db.flows[id].value, true, w.now) && AsksToWait(reply)
    requires w.now < w.db.flows[id].value.expiresAt
    ensures var (v, f) := (Apply(w, DoPoll(id, true, reply, 0)), w.db.flows[id].value);
            && v.now == w.now && v.contacts == w.contacts + [Contact(id, w.now, w.now, reply)]
            && v.db.flows[id] == Entry(f.(lastPollAt := Some(w.now),
                                          intervalSeconds := f.intervalSeconds + if reply == SlowDown then 5 else 0),
                                       Some(f.expiresAt))
  {
  }

  // ----- What a poll reports -----

  /** The flow may be asked about now: its provider is there, its deadline has not passed, and it has never been asked
      about or its interval (five seconds where none is positive) has gone by. */
  predicate Due(f: Flow, configured: bool, now: int) {
    && configured && now <= f.expiresAt
    && (f.lastPollAt.Some? ==>
          f.lastPollAt.value + (if f.intervalSeconds > 0 then f.intervalSeconds else 5) * 1000 <= now)
  }

  /** What the user is told for each answer of the provider. */
  predicate Tells(r: Result, reply: Reply) {
    && (r.ResultApproved? <==> reply == Tokens(Linked))
    && (r.ResultDuplicate? <==> reply == Tokens(Duplicate))
    && (r.ResultDenied? <==> reply == AccessDenied || reply == OtherCode)
    && (r.ResultExpired? <==> reply == ExpiredToken)
    && (r.ResultError? <==> reply == Failure || reply == Tokens(Failed))
    && (r.ResultPending? <==> reply == AuthorizationPending)
    && (r.ResultSlowDown? <==> reply == SlowDown)
  }

  /** An answer that ends the flow. */
  predicate Decides(reply: Reply) {
    reply == Tokens(Linked) || reply == Tokens(Duplicate) || reply == AccessDenied || reply == OtherCode || reply == ExpiredToken
  }

  /** The poll of a live flow that is due reports the provider's answer, drops the flow exactly when that decides it,
      and otherwise keeps it, for every poll that ends before the deadline. */
  lemma PollReportsTheAnswer(db: Db, id: FlowId, configured: bool, reply: Reply, now: int, after: int)
    requires Live(db.flows, id, now) && Due(db.flows[id].value, configured, now)
    ensures Tells(PollResult(db, id, configured, reply, now), reply)
    ensures var (f, next) := (db.flows[id].value, Poll(db, id, configured, reply, now, after));
            && (Decides(reply) ==> id !in next.flows && f.slot !in next.users)
            && (!Decides(reply) && after < f.expiresAt ==>
                  && id in next.flows && next.users == db.users
                  && next.flows[id].value.(lastPollAt := f.lastPollAt, intervalSeconds := f.intervalSeconds) == f)
  {
  }

  /** Any other poll does not ask: a flow that is missing, past its deadline or without a provider is reported expired
      (and dropped), one that is too early is pending for exactly the time that is left. */
  lemma PollWithoutAsking(db: Db, id: FlowId, configured: bool, reply: Reply, now: int, after: int)
    ensures var (next, r) := (Poll(db, id, configured, reply, now, after), PollResult(db, id, configured, reply, now));
            && (!Live(db.flows, id, now) ==> r == ResultExpired && next == db)
            && (Live(db.flows, id, now) && (!configured || now > db.flows[id].value.expiresAt) ==>
                  r == ResultExpired && id !in next.flows)
            && (Live(db.flows, id, now) && configured && now <= db.flows[id].value.expiresAt
                && !Due(db.flows[id].value, configured, now) ==>
                  && next == db && r.ResultPending? && r.next > 0
                  && Due(db.flows[id].value.(expiresAt := now + r.next), true, now + r.next)
                  && !Due(db.flows[id].value.(expiresAt := now + r.next), true, now + r.next - 1))
  {
  }

  /** Over runs: after a poll that asked and ended before the deadline the flow is gone for good exactly when the answer
      decided it, and until then it is live. */
  lemma AnswerDecidesTheFlow(w: World, s: Step, steps: seq<Step>, configured: bool, reply: Reply)
    requires Inv(w) && s.DoPoll? && Live(w.db.flows, s.id, w.now) && Due(w.db.flows[s.id].value, s.configured, w.now)
    requires Apply(w, s).now < w.db.flows[s.id].value.expiresAt && RunOk(Apply(w, s), steps)
    ensures Live(Apply(w, s).db.flows, s.id, Apply(w, s).now) <==> !Decides(s.reply)
    ensures var v := Run(Apply(w, s), steps);
            Decides(s.reply) ==> PollResult(v.db, s.id, configured, reply, v.now) == ResultExpired
  {
    PollReportsTheAnswer(w.db, s.id, s.configured, s.reply, w.now, w.now + s.took);
    assert FlowOk(w, s.id);
    if Decides(s.reply) {
      TerminalIsFinal(w, s, steps, configured, reply);
    }
  }

  /** What Begin leaves of an admitted and answered start: the provider's code and interval (five seconds for none), the
      deadline it named, and no poll yet. */
  lemma BeginKeepsTheAnswer(db: Db, slot: Slot, r: DeviceResponse, id: FlowId, now: int, after: int)
    requires Admitted(db, slot.user, now)
    ensures var v := Begin(db, slot, true, Some(r), id, now, after);
            && id in v.flows && slot in v.users && v.users[slot].value == id
            && v.flows[id].value == Flow(slot, r.deviceCode, if r.interval == 0 then 5 else r.interval,
                                         after + 1000 * r.expiresIn, None)
            && (r.expiresIn > 0 ==> v.flows[id].expires == v.users[slot].expires == Some(after + 1000 * r.expiresIn))
  {
  }

  // ----- The end of a flow -----

  ghost predicate Gone(w: World, id: FlowId) {
    id in w.seen && !Live(w.db.flows, id, w.now)
  }

  lemma GoneStaysGone(w: World, s: Step, id: FlowId)
    requires Inv(w) && Fresh(w, s) && Gone(w, id)
    ensures Gone(Apply(w, s), id)
  {
    var v := Apply(w, s);
    if Live(v.db.flows, id, v.now) {
      match s
      case Wait(_) => assert false;
      case DoBegin(_, _, _, _, _) =>
        FlowsAfterBegin(w, s, id);
        assert false;
      case DoPoll(_, _, _, _) =>
        FlowsAfterPoll(w, s, id);
        assert false;
    }
  }

  lemma {:induction false} GoneForGood(w: World, steps: seq<Step>, id: FlowId)
    requires Inv(w) && RunOk(w, steps) && Gone(w, id)
    ensures Gone(Run(w, steps), id)
    decreases |steps|
  {
    if steps != [] {
      StepKeepsInv(w, steps[0]);
      GoneStaysGone(w, steps[0], id);
      GoneForGood(Apply(w, steps[0]), steps[1..], id);
    }
  }

  /** After a final result every later poll of the flow says it has expired. */
  lemma TerminalIsFinal(w: World, s: Step, steps: seq<Step>, configured: bool, reply: Reply)
    requires Inv(w) && s.DoPoll? && Terminal(PollResult(w.db, s.id, s.configured, s.reply, w.now))
    requires RunOk(Apply(w, s), steps)
    ensures var v := Run(Apply(w, s), steps);
            PollResult(v.db, s.id, configured, reply, v.now) == ResultExpired
  {
    StepKeepsInv(w, s);
    assert Gone(Apply(w, s), s.id);
    GoneForGood(Apply(w, s), steps, s.id);
  }

  /** A second Begin ends the flow it replaces, whether or not the provider then answers it. */
  lemma SupersededIsFinal(w: World, s: Step, steps: seq<Step>, earlier: FlowId, configured: bool, reply: Reply)
    requires Inv(w) && s.DoBegin? && Fresh(w, s) && s.configured && Admitted(w.db, s.slot.user, w.now)
    requires Live(w.db.flows, earlier, w.now) && w.db.flows[earlier].value.slot == s.slot
    requires RunOk(Apply(w, s), steps)
    ensures var v := Run(Apply(w, s), steps);
            PollResult(v.db, earlier, configured, reply, v.now) == ResultExpired
  {
    StepKeepsInv(w, s);
    assert FlowOk(w, earlier);
    assert Gone(Apply(w, s), earlier);
    GoneForGood(Apply(w, s), steps, earlier);
  }

  /** Polling again when the result says to is exactly what the flow is waiting for, unless a slow_down
      left an interval that is still not positive. */
  lemma AdvisedDelayIsExact(db: Db, id: FlowId, reply: Reply, now: int, after: int)
    requires Live(db.flows, id, now) && Asks(db.flows[id].value, true, now) && AsksToWait(reply)
    requires after < db.flows[id].value.expiresAt
    ensures var next := Poll(db, id, true, reply, now, after);
            var r := PollResult(db, id, true, reply, now);
            && Live(next.flows, id, after) && (r.ResultPending? || r.ResultSlowDown?)
            && (r.next == Remaining(next.flows[id].value, after)
                <==> reply == AuthorizationPending || db.flows[id].value.intervalSeconds > -5)
  {
  }

  // ----- Polls that overlap other steps -----

  ghost predicate LiveFlow(db: Db, id: FlowId, slot: Slot, now: int) {
    Live(db.flows, id, now) && db.flows[id].value.slot == slot
  }

  ghost predicate TwoFlows(db: Db, slot: Slot, now: int) {
    exists a, b :: a != b && LiveFlow(db, a, slot, now) && LiveFlow(db, b, slot, now)
  }

  /** The user's key names a live flow of the slot other than `a`. */
  predicate Replaced(db: Db, a: FlowId, slot: Slot, now: int) {
    && slot in db.users
    && var b := db.users[slot].value;
       b != a && Live(db.flows, b, now) && db.flows[b].value.slot == slot
  }

  ghost predicate KeysName(db: Db, slot: Slot, now: int) {
    forall id :: LiveFlow(db, id, slot, now) ==> slot in db.users && db.users[slot].value == id
  }

  /** A poll that finds its answer when the database is `db`, whatever has happened since it read its flow
      `f`, leaves the user two live flows exactly when the answer asks to wait, the flow has not expired,
      and another flow has taken its place. */
  lemma AnswerLeavesTwoFlows(db: Db, a: FlowId, f: Flow, reply: Reply, after: int)
    requires KeysName(db, f.slot, after)
    requires Live(db.flows, a, after) ==> db.flows[a].value.slot == f.slot
    ensures TwoFlows(Resolve(db, a, f, reply, after), f.slot, after)
            <==> AsksToWait(reply) && after < f.expiresAt && Replaced(db, a, f.slot, after)
  {
    var v := Resolve(db, a, f, reply, after);
    if AsksToWait(reply) && after < f.expiresAt {
      assert LiveFlow(v, a, f.slot, after);
      if Replaced(db, a, f.slot, after) {
        assert LiveFlow(v, db.users[f.slot].value, f.slot, after);
      }
    }
    forall x, y | x != y && LiveFlow(v, x, f.slot, after) && LiveFlow(v, y, f.slot, after)
      ensures AsksToWait(reply) && after < f.expiresAt && Replaced(db, a, f.slot, after)
    {
      assert x != a ==> LiveFlow(db, x, f.slot, after);
      assert y != a ==> LiveFlow(db, y, f.slot, after);
      assert !(LiveFlow(db, x, f.slot, after) && LiveFlow(db, y, f.slot, after));
    }
  }

  /** A flow keeps its slot for as long as it is live. */
  lemma SlotStays(w: World, s: Step, id: FlowId)
    requires Inv(w) && Fresh(w, s) && id in w.seen && Live(Apply(w, s).db.flows, id, Apply(w, s).now)
    ensures Live(w.db.flows, id, w.now) && Apply(w, s).db.flows[id].value.slot == w.db.flows[id].value.slot
  {
    match s
    case Wait(_) =>
    case DoBegin(_, _, _, _, _) => FlowsAfterBegin(w, s, id);
    case DoPoll(_, _, _, _) => FlowsAfterPoll(w, s, id);
  }

  lemma {:induction false} SlotStaysInRuns(w: World, steps: seq<Step>, id: FlowId)
    requires Inv(w) && RunOk(w, steps) && id in w.seen && Live(Run(w, steps).db.flows, id, Run(w, steps).now)
    ensures Live(w.db.flows, id, w.now) && Run(w, steps).db.flows[id].value.slot == w.db.flows[id].value.slot
    decreases |steps|
  {
    if steps != [] {
      StepKeepsInv(w, steps[0]);
      SlotStaysInRuns(Apply(w, steps[0]), steps[1..], id);
      SlotStays(w, steps[0], id);
    }
  }

  /** Begin and Poll overlap: after any run a poll reads the live flow `a`; while it waits for its answer any
      further steps run; then the answer is dealt with. "One live flow per user and provider" fails exactly
      when the answer asks to wait, the deadline has not passed, and those steps left another flow live. */
  lemma OverlapLeavesTwoFlows(start: int, before: seq<Step>, during: seq<Step>, a: FlowId, reply: Reply)
    requires RunOk(Start(start), before) && RunOk(Run(Start(start), before), during)
    requires Live(Run(Start(start), before).db.flows, a, Run(Start(start), before).now)
    ensures var w := Run(Start(start), before);
            var (f, v) := (w.db.flows[a].value, Run(w, during));
            TwoFlows(Resolve(v.db, a, f, reply, v.now), f.slot, v.now)
            <==> AsksToWait(reply) && v.now < f.expiresAt && Replaced(v.db, a, f.slot, v.now)
  {
    var w := Run(Start(start), before);
    var f, v := w.db.flows[a].value, Run(w, during);
    RunKeepsInv(Start(start), before);
    RunKeepsInv(w, during);
    assert FlowOk(w, a);
    if Live(v.db.flows, a, v.now) {
      SlotStaysInRuns(w, during, a);
    }
    forall id | LiveFlow(v.db, id, f.slot, v.now) ensures f.slot in v.db.users && v.db.users[f.slot].value == id {
      assert FlowOk(v, id);
    }
    AnswerLeavesTwoFlows(v.db, a, f, reply, v.now);
  }

  lemma SecondBegin(w: World, second: Step, slot: Slot, r: DeviceResponse, a: FlowId, b: FlowId)
    requires second == DoBegin(slot, true, Some(r), b, 0) && a != b && r.expiresIn > 0
    requires w.now == 0 && Admitted(w.db, slot.user, 0)
    ensures var v := Apply(w, second); v.now == 0 && Replaced(v.db, a, slot, 0)
  {
    BegunIsLive(w.db, slot, r, b, 0);
  }

  /** Such runs: a Begin lands while a Poll waits, and the poll writes its flow back. */
  lemma TwoFlowsAppear(slot: Slot, r: DeviceResponse, a: FlowId, b: FlowId)
    requires a != "" && b != "" && a != b && r.expiresIn > 0
    ensures var (first, second) := (DoBegin(slot, true, Some(r), a, 0), DoBegin(slot, true, Some(r), b, 0));
            && RunOk(Start(0), [first]) && RunOk(Run(Start(0), [first]), [second])
            && var w := Run(Start(0), [first]);
               var v := Run(w, [second]);
               && Live(w.db.flows, a, w.now) && Asks(w.db.flows[a].value, true, w.now)
               && TwoFlows(Resolve(v.db, a, w.db.flows[a].value, AuthorizationPending, v.now), slot, v.now)
  {
    var first, second := DoBegin(slot, true, Some(r), a, 0), DoBegin(slot, true, Some(r), b, 0);
    FirstBegin(first, slot, r, a);
    OneStep(Start(0), first);
    var w := Run(Start(0), [first]);
    assert Fresh(w, second);
    OneStep(w, second);
    SecondBegin(w, second, slot, r, a, b);
    OverlapLeavesTwoFlows(0, [first], [second], a, AuthorizationPending);
  }

  lemma OneStep(w: World, s: Step)
    requires Fresh(w, s)
    ensures RunOk(w, [s]) && Run(w, [s]) == Apply(w, s)
  {
    assert [s][1..] == [];
    assert RunOk(Apply(w, s), []);
  }

  // ----- Starts per minute -----

  /** The counter after starts at the given times. */
  ghost function Counted(db: Db, user: int, times: seq<int>): Db {
    if times == [] then db else CountBegin(Counted(db, user, times[..|times| - 1]), user, times[|times| - 1])
  }

  lemma {:induction false} CountedInMinute(db: Db, user: int, times: seq<int>)
    requires times != [] && !Live(db.begins, user, times[0])
    requires forall i :: 0 <= i < |times| ==> times[i] < times[0] + BEGIN_RATE_TTL
    ensures var b := Counted(db, user, times).begins;
            user in b && b[user] == Entry(|times|, Some(times[0] + BEGIN_RATE_TTL))
  {
    var earlier := times[..|times| - 1];
    if earlier == [] {
      assert Counted(db, user, earlier) == db;
    } else {
      CountedInMinute(db, user, earlier);
    }
  }

  /** Of the starts in the minute that the first of them opens, exactly the first six are admitted. */
  lemma SixStartsPerMinute(db: Db, user: int, times: seq<int>, at: int)
    requires times != [] && !Live(db.begins, user, times[0])
    requires forall i :: 0 <= i < |times| ==> times[i] < times[0] + 60_000
    requires at < times[0] + 60_000
    ensures Admitted(Counted(db, user, times), user, at) <==> |times| < 6
  {
    CountedInMinute(db, user, times);
  }

  // ----- The service -----

  class Service {
    var flows: map<FlowId, Entry<Flow>>
    var users: map<Slot, Entry<FlowId>>
    var begins: map<int, Entry<int>>

    constructor ()
      ensures View() == Db(map[], map[], map[])
    {
      flows, users, begins := map[], map[], map[];
    }

    ghost function View(): Db
      reads this
    {
      Db(flows, users, begins)
    }

    method EnforceBeginRate(user: int, now: int) returns (ok: bool)
      modifies this`begins
      ensures View() == CountBegin(old(View()), user, now)
      ensures ok == Admitted(old(View()), user, now)
    {
      var live := user in begins && (begins[user].expires.None? || now < begins[user].expires.value);
      var count := if live then begins[user].value + 1 else 1;
      begins := begins[user := Entry(count, if live then begins[user].expires else None)];
      if count == 1 {
        begins := begins[user := Entry(count, Some(now + BEGIN_RATE_TTL))];
      }
      return count <= BEGIN_RATE_LIMIT;
    }

    method CleanupFlow(id: FlowId, f: Flow)
      modifies this`flows, this`users
      ensures View() == Cleanup(old(View()), id, f.slot)
    {
      flows, users := flows - {id}, users - {f.slot};
    }

    method PersistFlow(id: FlowId, f: Flow, now: int)
      modifies this`flows, this`users
      ensures View() == Persist(old(View()), id, f, now)
    {
      var ttl := f.expiresAt - now;
      if ttl <= 0 {
        CleanupFlow(id, f);
        return;
      }
      flows := flows[id := Entry(f, Some(now + ttl))];
    }

    method Start(user: int, provider: Provider, configured: bool, response: Option<DeviceResponse>, id: FlowId,
                 now: int, after: int) returns (r: Started)
      modifies this
      ensures View() == Begin(old(View()), Slot(user, provider), configured, response, id, now, after)
      ensures r == (if !configured then Unavailable
                    else if !Admitted(old(View()), user, now) then RateLimited
                    else if response.None? then RequestFailed else Begun(id))
      ensures r.Begun? ==>
                && id in flows && Slot(user, provider) in users && users[Slot(user, provider)].value == id
                && flows[id].value == Flow(Slot(user, provider), response.value.deviceCode,
                                           if response.value.interval == 0 then 5 else response.value.interval,
                                           after + 1000 * response.value.expiresIn, None)
    {
      if !configured {
        return Unavailable;
      }
      var ok := EnforceBeginRate(user, now);
      if !ok {
        return RateLimited;
      }
      var slot := Slot(user, provider);
      if slot in users && (users[slot].expires.None? || now < users[slot].expires.value) && users[slot].value != "" {
        flows, users := flows - {users[slot].value}, users - {slot};
      }
      if response.None? {
        return RequestFailed;
      }
      var resp := response.value;
      var interval := if resp.interval == 0 then DEFAULT_INTERVAL else resp.interval;
      var state := Flow(slot, resp.deviceCode, interval, after + resp.expiresIn * SECOND, None);
      var ttl := resp.expiresIn * SECOND;
      flows := flows[id := Lasting(state, after, ttl)];
      users := users[slot := Lasting(id, after, ttl)];
      return Begun(id);
    }

    method PollFlow(id: FlowId, configured: bool, reply: Reply, now: int, after: int) returns (r: Result)
      modifies this`flows, this`users
      ensures View() == Poll(old(View()), id, configured, reply, now, after)
      ensures r == PollResult(old(View()), id, configured, reply, now)
      ensures Live(old(flows), id, now) && Due(old(flows)[id].value, configured, now) ==>
                Tells(r, reply) && (Decides(reply) ==> id !in flows)
    {
      ghost var before := View();
      if Live(flows, id, now) && Due(flows[id].value, configured, now) {
        PollReportsTheAnswer(before, id, configured, reply, now, after);
      }
      if !(id in flows && (flows[id].expires.None? || now < flows[id].expires.value)) {
        return ResultExpired;
      }
      var state := flows[id].value;
      if !configured {
        CleanupFlow(id, state);
        return ResultExpired;
      }
      if now > state.expiresAt {
        CleanupFlow(id, state);
        return ResultExpired;
      }
      var interval := state.intervalSeconds * SECOND;
      if interval <= 0 {
        interval := DEFAULT_INTERVAL * SECOND;
      }
      if state.lastPollAt.Some? {
        var remain := state.lastPollAt.value + interval - now;
        if remain > 0 {
          return ResultPending(remain);
        }
      }
      r := Answer(id, state, interval, reply, after);
    }

    /** The rest of a poll, from the provider's answer on. */
    method Answer(id: FlowId, f: Flow, interval: int, reply: Reply, after: int) returns (r: Result)
      requires interval == InForce(f.intervalSeconds)
      modifies this`flows, this`users
      ensures View() == Resolve(old(View()), id, f, reply, after)
      ensures r == ResultOf(f, reply) && Tells(r, reply)
      ensures Decides(reply) ==> id !in flows && f.slot !in users
    {
      var state := f.(lastPollAt := Some(after));
      match reply {
        case Failure =>
          return ResultError;
        case AuthorizationPending =>
          PersistFlow(id, state, after);
          return ResultPending(interval);
        case SlowDown =>
          state := state.(intervalSeconds := state.intervalSeconds + 5);
          PersistFlow(id, state, after);
          return ResultSlowDown(state.intervalSeconds * SECOND);
        case AccessDenied =>
          CleanupFlow(id, state);
          return ResultDenied;
        case ExpiredToken =>
          CleanupFlow(id, state);
          return ResultExpired;
        case OtherCode =>
          CleanupFlow(id, state);
          return ResultDenied;
        case Tokens(commit) =>
          if commit == Failed {
            return ResultError;
          }
          CleanupFlow(id, state);
          return if commit == Duplicate then ResultDuplicate else ResultApproved;
      }
    }
  }
}
