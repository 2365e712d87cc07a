/** The failure limiter of internal/auth/ratelimit_redis.go: sliding failure counters, lockouts and an
    exponential backoff kept in a second counter.

    Redis is a map from keys to integers with an expiry; a key whose expiry has passed is missing. Every
    key the limiter writes carries a TTL. */
module RateLimit {
  import opened Common

  /** HandleThreshold, IPThreshold, ... with all durations in milliseconds. */
  datatype Params = Params(handleThreshold: int, ipThreshold: int, window: int, lockDuration: int,
                           backoffMax: int, lockcountWindow: int)

  /** The runtime settings that can override three of the parameters; zero means "not set". */
  datatype Snapshot = Snapshot(handleThreshold: int, ipThreshold: int, windowSeconds: int)

  datatype Kind = Fail | Lock | Lockcount

  datatype Scope = Handle | IP

  datatype Key = Key(kind: Kind, scope: Scope, id: string)

  datatype Entry = Entry(value: int, expires: int)

  type Db = map<Key, Entry>

  const DAY_MS: int := 24 * 60 * 60 * 1000

  predicate ValidParams(p: Params) {
    p.window > 0 && p.lockDuration > 0 && p.backoffMax >= 0
  }

  // ----- Redis -----

  predicate Live(db: Db, k: Key, now: int) {
    k in db && now < db[k].expires
  }

  function Counter(db: Db, k: Key, now: int): int {
    if Live(db, k, now) then db[k].value else 0
  }

  function Del(db: Db, k: Key): (r: Db)
    ensures k !in r && forall j :: j != k ==> (j in r <==> j in db) && (j in db ==> r[j] == db[j])
  {
    map j | j in db && j != k :: db[j]
  }

  // ----- The limiter -----

  function Effective(p: Params, s: Snapshot): (r: Params)
    ensures r.lockDuration == p.lockDuration && r.backoffMax == p.backoffMax && r.lockcountWindow == p.lockcountWindow
    ensures (s.handleThreshold > 0 ==> r.handleThreshold == s.handleThreshold)
            && (s.handleThreshold <= 0 ==> r.handleThreshold == p.handleThreshold)
    ensures (s.ipThreshold > 0 ==> r.ipThreshold == s.ipThreshold) && (s.ipThreshold <= 0 ==> r.ipThreshold == p.ipThreshold)
    ensures (s.windowSeconds > 0 ==> r.window == 1000 * s.windowSeconds) && (s.windowSeconds <= 0 ==> r.window == p.window)
  {
    p.(handleThreshold := if s.handleThreshold > 0 then s.handleThreshold else p.handleThreshold,
       ipThreshold := if s.ipThreshold > 0 then s.ipThreshold else p.ipThreshold,
       window := if s.windowSeconds > 0 then s.windowSeconds * 1000 else p.window)
  }

  function Threshold(p: Params, s: Scope): int {
    if s == Handle then p.handleThreshold else p.ipThreshold
  }

  function CountWindow(p: Params): (r: int)
    ensures (p.lockcountWindow > 0 ==> r == p.lockcountWindow) && (p.lockcountWindow <= 0 ==> r == 86_400_000)
  {
    if p.lockcountWindow > 0 then p.lockcountWindow else DAY_MS
  }

  /** LockDuration << min(lockcount - 1, BackoffMax). */
  function LockFor(p: Params, lockcount: int): int
    requires p.backoffMax >= 0
  {
    if lockcount < 1 then p.lockDuration
    else p.lockDuration * Pow2(if lockcount - 1 > p.backoffMax then p.backoffMax else lockcount - 1)
  }

  function IncrWithExpire(db: Db, k: Key, now: int, window: int): Db {
    db[k := Entry(Counter(db, k, now) + 1, now + window)]
  }

  /** One failure counted for one handle or one address. */
  function Count(db: Db, p: Params, now: int, scope: Scope, id: string): Db
    requires p.backoffMax >= 0
  {
    var fail, count := Key(Fail, scope, id), Key(Lockcount, scope, id);
    var counted := IncrWithExpire(db, fail, now, p.window);
    if counted[fail].value >= Threshold(p, scope) then
      var c := IncrWithExpire(counted, count, now, CountWindow(p));
      Del(c[Key(Lock, scope, id) := Entry(1, now + LockFor(p, c[count].value))], fail)
    else counted
  }

  function Failure(db: Db, p: Params, now: int, handle: string, ip: string): Db
    requires p.backoffMax >= 0
  {
    var afterHandle := if handle != "" then Count(db, p, now, Handle, handle) else db;
    if ip != "" then Count(afterHandle, p, now, IP, ip) else afterHandle
  }

  function Cleared(db: Db, handle: string): Db {
    if handle == "" then db else Del(Del(db, Key(Fail, Handle, handle)), Key(Lock, Handle, handle))
  }

  // ----- The backoff -----

  lemma {:induction false} Pow2Grows(m: nat, n: nat)
    requires m <= n
    ensures 1 <= Pow2(m) <= Pow2(n)
    decreases n
  {
    if m < n {
      Pow2Grows(m, n - 1);
    } else if n > 0 {
      Pow2Grows(n - 1, n - 1);
    }
  }

  /** Later lockouts are never shorter, and none is longer than the cap. */
  lemma LockForGrows(p: Params, c: int, d: int)
    requires ValidParams(p) && c <= d
    ensures 0 < LockFor(p, c) <= LockFor(p, d) <= p.lockDuration * Pow2(p.backoffMax)
  {
    var m := if c < 1 then 0 else if c - 1 > p.backoffMax then p.backoffMax else c - 1;
    var n := if d < 1 then 0 else if d - 1 > p.backoffMax then p.backoffMax else d - 1;
    Pow2Grows(m, n);
    Pow2Grows(n, p.backoffMax);
    MulMonotone(p.lockDuration, 1, Pow2(m));
    MulMonotone(p.lockDuration, Pow2(m), Pow2(n));
    MulMonotone(p.lockDuration, Pow2(n), Pow2(p.backoffMax));
    assert LockFor(p, c) == p.lockDuration * Pow2(m);
    assert LockFor(p, d) == p.lockDuration * Pow2(n);
  }

  // ----- What holds after every operation -----

  /** When the backoff counter is forgotten, a base lock from then on still outlasts the longest one. */
  predicate LongMemory(p: Params) {
    ValidParams(p) && CountWindow(p) + p.lockDuration >= p.lockDuration * Pow2(p.backoffMax)
  }

  /** A lock in force is explained by the lockcount written with it. */
  ghost predicate LockExplained(db: Db, p: Params, now: int, scope: Scope, id: string)
    requires p.backoffMax >= 0
  {
    var lock, count := Key(Lock, scope, id), Key(Lockcount, scope, id);
    && (count in db ==> db[count].value >= 1)
    && (Live(db, lock, now) ==>
          && count in db && db[lock].expires <= db[count].expires + p.lockDuration
          && db[lock].expires <= now + LockFor(p, db[count].value))
  }

  ghost predicate BelowThreshold(db: Db, p: Params, now: int, scope: Scope, id: string) {
    Live(db, Key(Fail, scope, id), now) ==> db[Key(Fail, scope, id)].value < Threshold(p, scope)
  }

  ghost predicate Inv(db: Db, p: Params, now: int)
    requires p.backoffMax >= 0
  {
    forall scope, id :: LockExplained(db, p, now, scope, id) && BelowThreshold(db, p, now, scope, id)
  }

  /** No lock that is in force is shortened or lifted. */
  ghost predicate LocksStand(db: Db, after: Db, now: int) {
    forall k: Key :: k.kind == Lock && Live(db, k, now) ==> k in after && after[k].expires >= db[k].expires
  }

  lemma TimeKeepsInv(db: Db, p: Params, now: int, later: int)
    requires p.backoffMax >= 0 && now <= later && Inv(db, p, now)
    ensures Inv(db, p, later)
  {
    forall scope, id ensures LockExplained(db, p, later, scope, id) && BelowThreshold(db, p, later, scope, id) {
      assert LockExplained(db, p, now, scope, id) && BelowThreshold(db, p, now, scope, id);
    }
  }

  lemma CountTouchesOnlyItsOwn(db: Db, p: Params, now: int, scope: Scope, id: string, k: Key)
    requires p.backoffMax >= 0 && (k.scope != scope || k.id != id)
    ensures var r := Count(db, p, now, scope, id);
            (k in r <==> k in db) && (k in db ==> r[k] == db[k])
  {
  }

  /** The counting step on its own keys. */
  lemma CountOwn(db: Db, p: Params, now: int, scope: Scope, id: string)
    requires LongMemory(p)
    requires LockExplained(db, p, now, scope, id) && BelowThreshold(db, p, now, scope, id)
    ensures var r := Count(db, p, now, scope, id);
            && LockExplained(r, p, now, scope, id) && BelowThreshold(r, p, now, scope, id)
            && (Live(db, Key(Lock, scope, id), now) ==>
                  Key(Lock, scope, id) in r && r[Key(Lock, scope, id)].expires >= db[Key(Lock, scope, id)].expires)
  {
    var lock, count := Key(Lock, scope, id), Key(Lockcount, scope, id);
    var c := Counter(db, count, now);
    LockForGrows(p, c, c + 1);
    LockForGrows(p, c + 1, c + 1);
    if Live(db, lock, now) && Live(db, count, now) {
      assert c == db[count].value;
    } else if Live(db, lock, now) {
      assert c == 0 && LockFor(p, 1) == p.lockDuration;
    }
  }

  lemma CountKeepsInv(db: Db, p: Params, now: int, scope: Scope, id: string)
    requires LongMemory(p) && Inv(db, p, now)
    ensures Inv(Count(db, p, now, scope, id), p, now)
    ensures LocksStand(db, Count(db, p, now, scope, id), now)
  {
    var r := Count(db, p, now, scope, id);
    assert LockExplained(db, p, now, scope, id) && BelowThreshold(db, p, now, scope, id);
    CountOwn(db, p, now, scope, id);
    forall s, i ensures LockExplained(r, p, now, s, i) && BelowThreshold(r, p, now, s, i) {
      if s != scope || i != id {
        assert LockExplained(db, p, now, s, i) && BelowThreshold(db, p, now, s, i);
        CountTouchesOnlyItsOwn(db, p, now, scope, id, Key(Fail, s, i));
        CountTouchesOnlyItsOwn(db, p, now, scope, id, Key(Lock, s, i));
        CountTouchesOnlyItsOwn(db, p, now, scope, id, Key(Lockcount, s, i));
      }
    }
    forall k: Key | k.kind == Lock && Live(db, k, now) ensures k in r && r[k].expires >= db[k].expires {
      if k.scope != scope || k.id != id {
        CountTouchesOnlyItsOwn(db, p, now, scope, id, k);
      }
    }
  }

  /** Recording a failure never moves a lock's expiry earlier, for any handle or address, and leaves
      every failure counter below its threshold. */
  lemma FailureKeepsLocks(db: Db, p: Params, now: int, handle: string, ip: string)
    requires LongMemory(p) && Inv(db, p, now)
    ensures var r := Failure(db, p, now, handle, ip);
            Inv(r, p, now) && LocksStand(db, r, now)
  {
    var mid := if handle != "" then Count(db, p, now, Handle, handle) else db;
    if handle != "" {
      CountKeepsInv(db, p, now, Handle, handle);
    }
    if ip != "" {
      CountKeepsInv(mid, p, now, IP, ip);
    }
  }

  lemma ClearKeepsInv(db: Db, p: Params, now: int, handle: string)
    requires p.backoffMax >= 0 && Inv(db, p, now)
    ensures Inv(Cleared(db, handle), p, now)
  {
    var r := Cleared(db, handle);
    forall s, i ensures LockExplained(r, p, now, s, i) && BelowThreshold(r, p, now, s, i) {
      assert LockExplained(db, p, now, s, i) && BelowThreshold(db, p, now, s, i);
    }
  }

  // ----- Locks over whole runs -----

  datatype Event = Failed(at: int, handle: string, ip: string) | Succeeded(at: int, handle: string)

  function After(db: Db, p: Params, e: Event): Db
    requires p.backoffMax >= 0
  {
    match e
    case Failed(at, handle, ip) => Failure(db, p, at, handle, ip)
    case Succeeded(at, handle) => Cleared(db, handle)
  }

  function Run(db: Db, p: Params, events: seq<Event>): Db
    requires p.backoffMax >= 0
  {
    if events == [] then db else After(Run(db, p, events[..|events| - 1]), p, events[|events| - 1])
  }

  /** Events in the order of their times. */
  ghost predicate InOrder(events: seq<Event>) {
    forall i, j :: 0 <= i < j < |events| ==> events[i].at <= events[j].at
  }

  /** After `events` from an empty Redis, the failure `e` moves the expiry of the lock on `id` earlier
      (or lifts it) while the lock is in force. */
  ghost predicate Shortens(p: Params, events: seq<Event>, e: Event, scope: Scope, id: string)
    requires p.backoffMax >= 0
  {
    var (before, lock) := (Run(map[], p, events), Key(Lock, scope, id));
    && InOrder(events + [e]) && e.Failed?
    && Live(before, lock, e.at)
    && !(lock in After(before, p, e) && After(before, p, e)[lock].expires >= before[lock].expires)
  }

  lemma {:induction false} RunKeepsInv(p: Params, events: seq<Event>, now: int)
    requires LongMemory(p) && InOrder(events) && (events != [] ==> events[|events| - 1].at <= now)
    ensures Inv(Run(map[], p, events), p, now)
  {
    if events != [] {
      var rest, e := events[..|events| - 1], events[|events| - 1];
      RunKeepsInv(p, rest, e.at);
      if e.Failed? {
        FailureKeepsLocks(Run(map[], p, rest), p, e.at, e.handle, e.ip);
      } else {
        ClearKeepsInv(Run(map[], p, rest), p, e.at, e.handle);
      }
      TimeKeepsInv(Run(map[], p, events), p, e.at, now);
    }
  }

  // ----- Many failures of one handle or address at one time -----

  /** A failure of one handle or one address alone. */
  function FailureOf(scope: Scope, id: string, at: int): Event {
    if scope == Handle then Failed(at, id, "") else Failed(at, "", id)
  }

  function Repeat(e: Event, k: nat): seq<Event> {
    if k == 0 then [] else Repeat(e, k - 1) + [e]
  }

  /** k times n failures. */
  function Rounds(e: Event, n: nat, k: nat): seq<Event> {
    if k == 0 then [] else Rounds(e, n, k - 1) + Repeat(e, n)
  }

  /** The failures that lock: the threshold, or one when it is not positive. */
  function Needed(p: Params, scope: Scope): nat {
    if Threshold(p, scope) > 1 then Threshold(p, scope) else 1
  }

  lemma {:induction false} RunAppends(db: Db, p: Params, a: seq<Event>, b: seq<Event>)
    requires p.backoffMax >= 0
    ensures Run(db, p, a + b) == Run(Run(db, p, a), p, b)
  {
    if b == [] {
      assert a + b == a;
    } else {
      assert (a + b)[..|a + b| - 1] == a + b[..|b| - 1];
      RunAppends(db, p, a, b[..|b| - 1]);
    }
  }

  lemma {:induction false} RepeatIsConstant(e: Event, k: nat)
    ensures |Repeat(e, k)| == k && forall x :: x in Repeat(e, k) ==> x == e
  {
    if k > 0 {
      RepeatIsConstant(e, k - 1);
    }
  }

  lemma {:induction false} RoundsAreConstant(e: Event, n: nat, k: nat)
    ensures forall x :: x in Rounds(e, n, k) ==> x == e
  {
    if k > 0 {
      RoundsAreConstant(e, n, k - 1);
      RepeatIsConstant(e, n);
    }
  }

  lemma RepeatStep(db: Db, p: Params, at: int, scope: Scope, id: string, k: nat)
    requires p.backoffMax >= 0 && id != "" && k > 0
    ensures var e := FailureOf(scope, id, at);
            Run(db, p, Repeat(e, k)) == Count(Run(db, p, Repeat(e, k - 1)), p, at, scope, id)
  {
    var e := FailureOf(scope, id, at);
    assert Repeat(e, k)[..|Repeat(e, k)| - 1] == Repeat(e, k - 1);
  }

  /** The key is as it was. */
  ghost predicate SameAt(db: Db, r: Db, k: Key) {
    (k in r <==> k in db) && (k in db ==> r[k] == db[k])
  }

  /** `j` failures counted and nothing else changed. */
  ghost predicate Counted(db: Db, r: Db, at: int, scope: Scope, id: string, j: nat) {
    && Counter(r, Key(Fail, scope, id), at) == j
    && SameAt(db, r, Key(Lock, scope, id)) && SameAt(db, r, Key(Lockcount, scope, id))
  }

  /** The state just after the c-th lockout. */
  ghost predicate Locked(r: Db, p: Params, at: int, scope: Scope, id: string, c: int)
    requires p.backoffMax >= 0
  {
    && Key(Fail, scope, id) !in r
    && Key(Lockcount, scope, id) in r && r[Key(Lockcount, scope, id)] == Entry(c, at + CountWindow(p))
    && Key(Lock, scope, id) in r && r[Key(Lock, scope, id)] == Entry(1, at + LockFor(p, c))
  }

  lemma CountBelow(db: Db, r: Db, p: Params, at: int, scope: Scope, id: string, j: nat)
    requires ValidParams(p) && j + 1 < Needed(p, scope) && Counted(db, r, at, scope, id, j)
    ensures Counted(db, Count(r, p, at, scope, id), at, scope, id, j + 1)
  {
  }

  lemma CountFull(db: Db, r: Db, after: Db, p: Params, at: int, scope: Scope, id: string)
    requires ValidParams(p) && Counted(db, r, at, scope, id, Needed(p, scope) - 1)
    requires after == Count(r, p, at, scope, id)
    ensures Locked(after, p, at, scope, id, Counter(db, Key(Lockcount, scope, id), at) + 1)
  {
    var count := Key(Lockcount, scope, id);
    assert Counter(r, count, at) == Counter(db, count, at);
  }

  /** Fewer failures than lock are counted and change nothing else of this handle or address. */
  lemma {:induction false} CountUp(db: Db, p: Params, at: int, scope: Scope, id: string, j: nat)
    requires ValidParams(p) && id != "" && j < Needed(p, scope) && Counter(db, Key(Fail, scope, id), at) == 0
    ensures Counted(db, Run(db, p, Repeat(FailureOf(scope, id, at), j)), at, scope, id, j)
  {
    if j > 0 {
      CountUp(db, p, at, scope, id, j - 1);
      RepeatStep(db, p, at, scope, id, j);
      CountBelow(db, Run(db, p, Repeat(FailureOf(scope, id, at), j - 1)), p, at, scope, id, j - 1);
    }
  }

  /** As many failures as lock: the lock and its lockcount are written and the counter starts again. */
  lemma Round(db: Db, p: Params, at: int, scope: Scope, id: string)
    requires ValidParams(p) && id != "" && Counter(db, Key(Fail, scope, id), at) == 0
    ensures Locked(Run(db, p, Repeat(FailureOf(scope, id, at), Needed(p, scope))), p, at, scope, id,
                   Counter(db, Key(Lockcount, scope, id), at) + 1)
  {
    var e, n := FailureOf(scope, id, at), Needed(p, scope);
    var near, full := Run(db, p, Repeat(e, n - 1)), Run(db, p, Repeat(e, n));
    assert Counted(db, near, at, scope, id, n - 1) by {
      CountUp(db, p, at, scope, id, n - 1);
    }
    assert full == Count(near, p, at, scope, id) by {
      RepeatStep(db, p, at, scope, id, n);
    }
    CountFull(db, near, full, p, at, scope, id);
  }

  lemma {:induction false} ManyRounds(p: Params, at: int, scope: Scope, id: string, k: nat)
    requires ValidParams(p) && id != "" && k > 0
    ensures Locked(Run(map[], p, Rounds(FailureOf(scope, id, at), Needed(p, scope), k)), p, at, scope, id, k)
  {
    var e, n := FailureOf(scope, id, at), Needed(p, scope);
    var before := Run(map[], p, Rounds(e, n, k - 1));
    if k > 1 {
      ManyRounds(p, at, scope, id, k - 1);
    }
    RunAppends(map[], p, Rounds(e, n, k - 1), Repeat(e, n));
    Round(before, p, at, scope, id);
  }

  /** The longest lock is in force when its lockcount expires, and the next lockout ends before it. */
  lemma LateLockIsShorter(longest: Db, p: Params, scope: Scope, id: string)
    requires ValidParams(p) && !LongMemory(p) && id != ""
    requires Locked(longest, p, 0, scope, id, p.backoffMax + 1)
    ensures var (at, lock) := (CountWindow(p), Key(Lock, scope, id));
            var before := Run(longest, p, Repeat(FailureOf(scope, id, at), Needed(p, scope) - 1));
            var after := Count(before, p, at, scope, id);
            Live(before, lock, at) && lock in after && after[lock].expires < before[lock].expires
  {
    var at, n := CountWindow(p), Needed(p, scope);
    CountUp(longest, p, at, scope, id, n - 1);
    var before := Run(longest, p, Repeat(FailureOf(scope, id, at), n - 1));
    CountFull(longest, before, Count(before, p, at, scope, id), p, at, scope, id);
    LockoutDuration(p, p.backoffMax + 1);
    assert Counter(longest, Key(Lockcount, scope, id), at) == 0;
  }

  /** When the memory is short: enough failures at time 0 for the longest lock, then enough for one more
      just when the lockcount expires; the new lock ends before the one in force. */
  lemma ShortMemoryForgets(p: Params, scope: Scope, id: string) returns (events: seq<Event>, e: Event)
    requires ValidParams(p) && !LongMemory(p) && id != ""
    ensures Shortens(p, events, e, scope, id)
  {
    var n, first, late := Needed(p, scope), FailureOf(scope, id, 0), FailureOf(scope, id, CountWindow(p));
    var filling := Rounds(first, n, p.backoffMax + 1);
    events, e := filling + Repeat(late, n - 1), late;
    ManyRounds(p, 0, scope, id, p.backoffMax + 1);
    LateLockIsShorter(Run(map[], p, filling), p, scope, id);
    RunAppends(map[], p, filling, Repeat(late, n - 1));
    AfterOne(Run(map[], p, events), p, scope, id, CountWindow(p));
    RoundsAreConstant(first, n, p.backoffMax + 1);
    RepeatIsConstant(late, n - 1);
    FirstThenLate(filling, Repeat(late, n - 1), first, late);
  }

  lemma AfterOne(db: Db, p: Params, scope: Scope, id: string, at: int)
    requires p.backoffMax >= 0 && id != ""
    ensures After(db, p, FailureOf(scope, id, at)) == Count(db, p, at, scope, id)
  {
  }

  lemma FirstThenLate(a: seq<Event>, b: seq<Event>, first: Event, late: Event)
    requires (forall x :: x in a ==> x == first) && (forall x :: x in b ==> x == late) && first.at <= late.at
    ensures InOrder(a + b + [late])
  {
    var all := a + b + [late];
    forall i | 0 <= i < |all| ensures all[i] == if i < |a| then first else late {
      if i < |a| {
        assert all[i] == a[i] && a[i] in a;
      } else if i < |a| + |b| {
        assert all[i] == b[i - |a|] && b[i - |a|] in b;
      }
    }
  }

  /** Whatever the thresholds: no run of failures and logins from an empty Redis ever shortens or lifts
      the lock of a given handle or address by a failure, if and only if the memory is long. */
  lemma LocksStandExactlyWithLongMemory(p: Params, scope: Scope, id: string)
    requires ValidParams(p) && id != ""
    ensures LongMemory(p) <==> forall events, e :: !Shortens(p, events, e, scope, id)
  {
    if LongMemory(p) {
      forall events, e ensures !Shortens(p, events, e, scope, id) {
        if InOrder(events + [e]) && e.Failed? {
          var all := events + [e];
          assert forall i, j :: 0 <= i < j < |events| ==> all[i].at <= all[j].at && all[i] == events[i] && all[j] == events[j];
          if events != [] {
            assert all[|events| - 1].at <= all[|events|].at;
          }
          RunKeepsInv(p, events, e.at);
          FailureKeepsLocks(Run(map[], p, events), p, e.at, e.handle, e.ip);
          assert Key(Lock, scope, id).kind == Lock;
        }
      }
    } else {
      var events, e := ShortMemoryForgets(p, scope, id);
    }
  }

  // ----- The lockout schedule of an address -----

  /** When address `ip` failed. */
  function Times(events: seq<Event>, ip: string): seq<int> {
    if events == [] then []
    else
      var last := events[|events| - 1];
      Times(events[..|events| - 1], ip) + if last.Failed? && last.ip == ip then [last.at] else []
  }

  /** Failures close enough together: each inside the failure window of the one before, and each
      lockout inside the lockcount window of the previous one. */
  ghost predicate Spaced(p: Params, times: seq<int>)
    requires p.ipThreshold > 0
  {
    && (forall i :: 0 <= i < |times| - 1 ==> times[i + 1] < times[i] + p.window)
    && (forall i :: 0 <= i && i + p.ipThreshold < |times| ==> times[i + p.ipThreshold] < times[i] + CountWindow(p))
  }

  ghost predicate FreshFor(db: Db, ip: string) {
    Key(Fail, IP, ip) !in db && Key(Lockcount, IP, ip) !in db && Key(Lock, IP, ip) !in db
  }

  /** The counters after failures at `times`. */
  ghost predicate OnSchedule(db: Db, p: Params, ip: string, times: seq<int>)
    requires p.ipThreshold > 0 && p.backoffMax >= 0
  {
    var m, n := |times|, p.ipThreshold;
    var fail, count, lock := Key(Fail, IP, ip), Key(Lockcount, IP, ip), Key(Lock, IP, ip);
    var locked := m - m % n;
    && (m % n == 0 ==> fail !in db)
    && (m % n != 0 ==> fail in db && m > 0 && db[fail] == Entry(m % n, times[m - 1] + p.window))
    && (locked == 0 ==> count !in db && lock !in db)
    && (0 < locked <= m ==>
          && count in db && db[count] == Entry(m / n, times[locked - 1] + CountWindow(p))
          && lock in db && db[lock] == Entry(1, times[locked - 1] + LockFor(p, m / n)))
  }

  lemma CountStep(m: nat, n: int)
    requires n > 0
    ensures (m + 1) % n == (if m % n == n - 1 then 0 else m % n + 1)
    ensures (m + 1) / n == (if m % n == n - 1 then m / n + 1 else m / n)
    ensures 0 <= m % n < n && m - m % n <= m
    ensures m / n > 0 <==> m - m % n > 0
    ensures m - m % n == 0 || m - m % n >= n
  {
    NextDivMod(m, n, m / n, m % n);
    WholeTurns(m, n, m / n, m % n);
  }

  lemma NextDivMod(m: nat, n: int, q: int, r: int)
    requires n > 0 && m == n * q + r && 0 <= r < n
    ensures (m + 1) % n == (if r == n - 1 then 0 else r + 1)
    ensures (m + 1) / n == (if r == n - 1 then q + 1 else q)
  {
    if r == n - 1 {
      assert n * (q + 1) == n * q + n;
      DivModUnique(m + 1, n, q + 1, 0);
    } else {
      DivModUnique(m + 1, n, q, r + 1);
    }
  }

  lemma WholeTurns(m: nat, n: int, q: int, r: int)
    requires n > 0 && m == n * q + r && 0 <= r < n
    ensures q > 0 <==> m - r > 0
    ensures m - r == 0 || m - r >= n
  {
    if q > 0 {
      MulMonotone(n, 1, q);
    } else {
      MulMonotone(n, q, 0);
    }
  }

  /** The next failure of a scheduled address: it locks exactly when it completes a full threshold. */
  lemma ScheduleStep(db: Db, p: Params, ip: string, times: seq<int>, at: int)
    requires ValidParams(p) && p.ipThreshold > 0 && ip != ""
    requires OnSchedule(db, p, ip, times) && Spaced(p, times + [at])
    ensures OnSchedule(Count(db, p, at, IP, ip), p, ip, times + [at])
    ensures var m := |times| + 1;
            var lock := Key(Lock, IP, ip);
            var r := Count(db, p, at, IP, ip);
            && (m % p.ipThreshold == 0 ==> lock in r && r[lock] == Entry(1, at + LockFor(p, m / p.ipThreshold)))
            && (m % p.ipThreshold != 0 ==> (lock in r <==> lock in db) && (lock in r ==> r[lock] == db[lock]))
  {
    var m, n, all := |times|, p.ipThreshold, times + [at];
    CountStep(m, n);
    if m % n != 0 {
      assert all[m] < all[m - 1] + p.window;
    }
    if m % n == n - 1 && m - m % n > 0 {
      assert all[m - n + n] < all[m - n] + CountWindow(p);
    }
  }

  lemma OtherFailuresDoNotMatter(db: Db, p: Params, ip: string, times: seq<int>, now: int, scope: Scope, id: string)
    requires ValidParams(p) && p.ipThreshold > 0 && OnSchedule(db, p, ip, times) && (scope != IP || id != ip)
    ensures OnSchedule(Count(db, p, now, scope, id), p, ip, times)
  {
    CountTouchesOnlyItsOwn(db, p, now, scope, id, Key(Fail, IP, ip));
    CountTouchesOnlyItsOwn(db, p, now, scope, id, Key(Lock, IP, ip));
    CountTouchesOnlyItsOwn(db, p, now, scope, id, Key(Lockcount, IP, ip));
  }

  lemma SpacedPrefix(p: Params, times: seq<int>, at: int)
    requires p.ipThreshold > 0 && Spaced(p, times + [at])
    ensures Spaced(p, times)
  {
    var all := times + [at];
    forall i | 0 <= i < |times| - 1 ensures times[i + 1] < times[i] + p.window {
      assert all[i + 1] < all[i] + p.window;
    }
    forall i | 0 <= i && i + p.ipThreshold < |times| ensures times[i + p.ipThreshold] < times[i] + CountWindow(p) {
      assert all[i + p.ipThreshold] < all[i] + CountWindow(p);
    }
  }

  /** A handle's counting step inside Failure. */
  function AfterHandle(db: Db, p: Params, at: int, handle: string): Db
    requires p.backoffMax >= 0
  {
    if handle != "" then Count(db, p, at, Handle, handle) else db
  }

  lemma HandleStepKeepsSchedule(db: Db, p: Params, ip: string, times: seq<int>, at: int, handle: string)
    requires ValidParams(p) && p.ipThreshold > 0 && OnSchedule(db, p, ip, times)
    ensures OnSchedule(AfterHandle(db, p, at, handle), p, ip, times)
    ensures var (lock, r) := (Key(Lock, IP, ip), AfterHandle(db, p, at, handle));
            (lock in r <==> lock in db) && (lock in r ==> r[lock] == db[lock])
  {
    if handle != "" {
      OtherFailuresDoNotMatter(db, p, ip, times, at, Handle, handle);
      CountTouchesOnlyItsOwn(db, p, at, Handle, handle, Key(Lock, IP, ip));
    }
  }

  lemma FailureSplits(db: Db, p: Params, at: int, handle: string, ip: string)
    requires p.backoffMax >= 0
    ensures Failure(db, p, at, handle, ip)
            == if ip != "" then Count(AfterHandle(db, p, at, handle), p, at, IP, ip) else AfterHandle(db, p, at, handle)
  {
  }

  lemma ClearKeepsSchedule(db: Db, p: Params, ip: string, times: seq<int>, handle: string)
    requires p.ipThreshold > 0 && p.backoffMax >= 0 && OnSchedule(db, p, ip, times)
    ensures OnSchedule(Cleared(db, handle), p, ip, times)
  {
  }

  lemma EventStep(db: Db, p: Params, e: Event, ip: string, times: seq<int>)
    requires ValidParams(p) && p.ipThreshold > 0 && ip != "" && OnSchedule(db, p, ip, times)
    requires e.Failed? && e.ip == ip ==> Spaced(p, times + [e.at])
    ensures OnSchedule(After(db, p, e), p, ip, if e.Failed? && e.ip == ip then times + [e.at] else times)
  {
    if e.Succeeded? {
      ClearKeepsSchedule(db, p, ip, times, e.handle);
    } else {
      FailureSplits(db, p, e.at, e.handle, e.ip);
      HandleStepKeepsSchedule(db, p, ip, times, e.at, e.handle);
      var mid := AfterHandle(db, p, e.at, e.handle);
      if e.ip == ip {
        ScheduleStep(mid, p, ip, times, e.at);
      } else if e.ip != "" {
        OtherFailuresDoNotMatter(mid, p, ip, times, e.at, IP, e.ip);
      }
    }
  }

  lemma {:induction false} RunIsOnSchedule(db: Db, p: Params, events: seq<Event>, ip: string)
    requires ValidParams(p) && p.ipThreshold > 0 && ip != "" && FreshFor(db, ip)
    requires Spaced(p, Times(events, ip))
    ensures OnSchedule(Run(db, p, events), p, ip, Times(events, ip))
  {
    if events == [] {
      CountStep(0, p.ipThreshold);
    } else {
      var rest, last := events[..|events| - 1], events[|events| - 1];
      var times := Times(rest, ip);
      if last.Failed? && last.ip == ip {
        SpacedPrefix(p, times, last.at);
      } else {
        assert times + [] == times;
      }
      RunIsOnSchedule(db, p, rest, ip);
      EventStep(Run(db, p, rest), p, last, ip, times);
    }
  }

  /** The m-th failure locks the address exactly when the threshold divides m, for the duration of the
      (m / threshold)-th lockout (see LockoutDuration); otherwise the lock is as it was. */
  ghost predicate LocksWhenDue(before: Db, after: Db, p: Params, at: int, ip: string, m: nat)
    requires p.ipThreshold > 0 && p.backoffMax >= 0
  {
    var n, lock := p.ipThreshold, Key(Lock, IP, ip);
    && (m % n == 0 ==> lock in after && after[lock].expires == at + LockFor(p, m / n))
    && (m % n != 0 ==> (lock in after <==> lock in before) && (lock in after ==> after[lock] == before[lock]))
  }

  lemma LockoutStep(before: Db, p: Params, times: seq<int>, at: int, handle: string, ip: string)
    requires ValidParams(p) && p.ipThreshold > 0 && ip != "" && OnSchedule(before, p, ip, times) && Spaced(p, times + [at])
    ensures LocksWhenDue(before, Failure(before, p, at, handle, ip), p, at, ip, |times| + 1)
  {
    FailureSplits(before, p, at, handle, ip);
    HandleStepKeepsSchedule(before, p, ip, times, at, handle);
    ScheduleStep(AfterHandle(before, p, at, handle), p, ip, times, at);
  }

  /** From a fresh address, whatever else happens in between, spaced failures of the address lock it on schedule. */
  lemma LockoutSchedule(db: Db, p: Params, events: seq<Event>, at: int, handle: string, ip: string)
    requires ValidParams(p) && p.ipThreshold > 0 && ip != "" && FreshFor(db, ip)
    requires Spaced(p, Times(events, ip) + [at])
    ensures var before := Run(db, p, events);
            LocksWhenDue(before, Failure(before, p, at, handle, ip), p, at, ip, |Times(events, ip)| + 1)
  {
    SpacedPrefix(p, Times(events, ip), at);
    RunIsOnSchedule(db, p, events, ip);
    LockoutStep(Run(db, p, events), p, Times(events, ip), at, handle, ip);
  }

  /** The k-th lockout lasts LockDuration times two to the min(k - 1, BackoffMax): each one doubles the
      one before until the cap. */
  lemma LockoutDuration(p: Params, k: int)
    requires ValidParams(p) && k >= 1
    ensures LockFor(p, 1) == p.lockDuration
    ensures LockFor(p, k + 1) == if k <= p.backoffMax then 2 * LockFor(p, k) else LockFor(p, k)
    ensures k > p.backoffMax ==> LockFor(p, k) == p.lockDuration * Pow2(p.backoffMax)
  {
    assert Pow2(0) == 1;
    if k <= p.backoffMax {
      assert Pow2(k) == 2 * Pow2(k - 1);
      assert p.lockDuration * (2 * Pow2(k - 1)) == 2 * (p.lockDuration * Pow2(k - 1));
    }
  }

  // ----- After a login -----

  /** A login forgets the handle's failures and lifts its lock; the lockout count, every other handle and every address
      stay as they are. */
  ghost predicate Forgiven(before: Db, after: Db, handle: string) {
    && Key(Fail, Handle, handle) !in after && Key(Lock, Handle, handle) !in after
    && forall k: Key :: k != Key(Fail, Handle, handle) && k != Key(Lock, Handle, handle) ==> SameAt(before, after, k)
  }

  lemma LoginForgives(db: Db, p: Params, at: int, handle: string)
    requires p.backoffMax >= 0 && handle != ""
    ensures Forgiven(db, After(db, p, Succeeded(at, handle)), handle)
  {
  }

  /** When the handle failed. */
  function HandleTimes(events: seq<Event>, handle: string): seq<int> {
    if events == [] then []
    else
      var last := events[|events| - 1];
      HandleTimes(events[..|events| - 1], handle) + if last.Failed? && last.handle == handle then [last.at] else []
  }

  /** The failures that lock a handle. */
  function HandleNeeds(p: Params): nat {
    if p.handleThreshold > 1 then p.handleThreshold else 1
  }

  /** Each failure comes inside the window of the one before. */
  ghost predicate Close(p: Params, times: seq<int>) {
    forall i :: 0 <= i < |times| - 1 ==> times[i + 1] < times[i] + p.window
  }

  /** The handle is not locked, and its counter is at most the failures since; it is exact while they come closely. */
  ghost predicate Open(db: Db, p: Params, handle: string, times: seq<int>) {
    var fail := Key(Fail, Handle, handle);
    && Key(Lock, Handle, handle) !in db
    && (times == [] ==> fail !in db)
    && (fail in db ==> 0 < db[fail].value <= |times|)
    && (times != [] && Close(p, times) ==> fail in db && db[fail] == Entry(|times|, times[|times| - 1] + p.window))
  }

  lemma CloseInit(p: Params, times: seq<int>, at: int)
    requires Close(p, times + [at])
    ensures Close(p, times) && (times != [] ==> at < times[|times| - 1] + p.window)
  {
    var all := times + [at];
    forall i | 0 <= i < |times| - 1 ensures times[i + 1] < times[i] + p.window {
      assert all[i + 1] < all[i] + p.window;
    }
    if times != [] {
      assert all[|times| - 1 + 1] < all[|times| - 1] + p.window;
    }
  }

  lemma FailureOpens(db: Db, p: Params, handle: string, times: seq<int>, at: int)
    requires ValidParams(p) && Open(db, p, handle, times)
    ensures var r := Count(db, p, at, Handle, handle);
            && (|times| + 1 < HandleNeeds(p) ==> Open(r, p, handle, times + [at]))
            && (|times| + 1 == HandleNeeds(p) && Close(p, times + [at]) ==> Live(r, Key(Lock, Handle, handle), at))
  {
    if Close(p, times + [at]) {
      CloseInit(p, times, at);
    }
    LockForGrows(p, Counter(db, Key(Lockcount, Handle, handle), at) + 1, Counter(db, Key(Lockcount, Handle, handle), at) + 1);
  }

  lemma OthersKeepOpen(db: Db, p: Params, handle: string, times: seq<int>, now: int, scope: Scope, id: string)
    requires p.backoffMax >= 0 && Open(db, p, handle, times) && (scope != Handle || id != handle)
    ensures Open(Count(db, p, now, scope, id), p, handle, times)
  {
    CountTouchesOnlyItsOwn(db, p, now, scope, id, Key(Fail, Handle, handle));
    CountTouchesOnlyItsOwn(db, p, now, scope, id, Key(Lock, Handle, handle));
  }

  lemma OtherEventsKeepOpen(db: Db, p: Params, handle: string, times: seq<int>, e: Event)
    requires p.backoffMax >= 0 && handle != "" && Open(db, p, handle, times) && e.handle != handle
    ensures Open(After(db, p, e), p, handle, times)
  {
    if e.Failed? {
      FailureSplits(db, p, e.at, e.handle, e.ip);
      if e.handle != "" {
        OthersKeepOpen(db, p, handle, times, e.at, Handle, e.handle);
      }
      if e.ip != "" {
        OthersKeepOpen(AfterHandle(db, p, e.at, e.handle), p, handle, times, e.at, IP, e.ip);
      }
    }
  }

  lemma AddressKeepsLock(db: Db, p: Params, handle: string, at: int, ip: string)
    requires p.backoffMax >= 0
    ensures SameAt(db, Count(db, p, at, IP, ip), Key(Lock, Handle, handle))
  {
    CountTouchesOnlyItsOwn(db, p, at, IP, ip, Key(Lock, Handle, handle));
  }

  /** Fewer failures than the threshold after a login never lock, whatever else happens and however they are spaced. */
  lemma {:induction false} StaysOpen(db: Db, p: Params, handle: string, events: seq<Event>)
    requires ValidParams(p) && handle != "" && Open(db, p, handle, [])
    requires forall e :: e in events ==> !(e.Succeeded? && e.handle == handle)
    requires |HandleTimes(events, handle)| < HandleNeeds(p)
    ensures Open(Run(db, p, events), p, handle, HandleTimes(events, handle))
  {
    if events != [] {
      var rest, e := events[..|events| - 1], events[|events| - 1];
      var mid, times := Run(db, p, rest), HandleTimes(rest, handle);
      StaysOpen(db, p, handle, rest);
      assert e in events;
      if e.handle == handle {
        FailureOpens(mid, p, handle, times, e.at);
        FailureSplits(mid, p, e.at, e.handle, e.ip);
        if e.ip != "" {
          OthersKeepOpen(AfterHandle(mid, p, e.at, handle), p, handle, times + [e.at], e.at, IP, e.ip);
        }
      } else {
        assert times + [] == times;
        OtherEventsKeepOpen(mid, p, handle, times, e);
      }
    }
  }

  /** After a login the handle is open, and closely spaced failures lock it again exactly when the handle threshold is
      reached, whatever other handles and addresses do in between. */
  lemma LoginStartsOver(db: Db, p: Params, at: int, handle: string, events: seq<Event>, e: Event)
    requires ValidParams(p) && handle != "" && e.Failed? && e.handle == handle
    requires forall x :: x in events ==> !(x.Succeeded? && x.handle == handle)
    requires Close(p, HandleTimes(events, handle) + [e.at]) && |HandleTimes(events, handle)| < HandleNeeds(p)
    ensures var start := After(db, p, Succeeded(at, handle));
            var (lock, n) := (Key(Lock, Handle, handle), |HandleTimes(events, handle)| + 1);
            && lock !in start && lock !in Run(start, p, events)
            && (Live(After(Run(start, p, events), p, e), lock, e.at) <==> n == HandleNeeds(p))
  {
    var start := After(db, p, Succeeded(at, handle));
    LoginForgives(db, p, at, handle);
    StaysOpen(start, p, handle, events);
    LastFailure(Run(start, p, events), p, handle, HandleTimes(events, handle), e);
  }

  lemma LastFailure(db: Db, p: Params, handle: string, times: seq<int>, e: Event)
    requires ValidParams(p) && handle != "" && e.Failed? && e.handle == handle
    requires Open(db, p, handle, times) && Close(p, times + [e.at]) && |times| < HandleNeeds(p)
    ensures Live(After(db, p, e), Key(Lock, Handle, handle), e.at) <==> |times| + 1 == HandleNeeds(p)
  {
    FailureOpens(db, p, handle, times, e.at);
    FailureSplits(db, p, e.at, handle, e.ip);
    if e.ip != "" {
      AddressKeepsLock(AfterHandle(db, p, e.at, handle), p, handle, e.at, e.ip);
    }
  }

  // ----- The Go type -----

  datatype Check = Check(lockedOut: bool, retryAfter: int)

  /** Redis TTL: whole seconds, rounded to the nearest. */
  function TtlSeconds(remaining: int): int { (remaining + 500) / 1000 }

  class RedisRateLimiter {
    var db: Db
    const params: Params

    constructor (params: Params)
      ensures this.params == params && db == map[]
    {
      this.params := params;
      db := map[];
    }

    method LockTtl(k: Key, now: int) returns (d: int, locked: bool)
      ensures locked <==> Live(db, k, now)
      ensures d == if locked then TtlSeconds(db[k].expires - now) * 1000 else 0
    {
      if k in db && now < db[k].expires {
        return TtlSeconds(db[k].expires - now) * 1000, true;
      }
      return 0, false;
    }

    /** Locked out exactly when a lock on the handle or the address is in force, and then for how long,
        to the nearest second. */
    method IsLocked(handle: string, ip: string, now: int) returns (r: Check)
      ensures r.lockedOut <==> Live(db, Key(Lock, Handle, handle), now) || (ip != "" && Live(db, Key(Lock, IP, ip), now))
      ensures r.lockedOut ==>
                var k := if Live(db, Key(Lock, Handle, handle), now) then Key(Lock, Handle, handle) else Key(Lock, IP, ip);
                -500 <= r.retryAfter - (db[k].expires - now) <= 500
    {
      var d, locked := LockTtl(Key(Lock, Handle, handle), now);
      if locked {
        return Check(true, d);
      }
      if ip != "" {
        d, locked := LockTtl(Key(Lock, IP, ip), now);
        if locked {
          return Check(true, d);
        }
      }
      return Check(false, 0);
    }

    method IncrementAndExpire(k: Key, now: int, window: int) returns (n: int)
      modifies this
      ensures db == IncrWithExpire(old(db), k, now, window) && n == db[k].value
    {
      n := (if k in db && now < db[k].expires then db[k].value else 0) + 1;
      db := db[k := Entry(n, now + window)];
    }

    method ComputeLockDuration(lockcount: int) returns (d: int)
      requires params.backoffMax >= 0
      ensures d == LockFor(params, lockcount)
    {
      if lockcount < 1 {
        return params.lockDuration;
      }
      var shift := lockcount - 1;
      if shift > params.backoffMax {
        shift := params.backoffMax;
      }
      d := params.lockDuration * Pow2(shift);
    }

    method CountOne(eff: Params, now: int, scope: Scope, id: string)
      requires params.backoffMax >= 0
      requires eff == params.(handleThreshold := eff.handleThreshold, ipThreshold := eff.ipThreshold, window := eff.window)
      modifies this
      ensures db == Count(old(db), eff, now, scope, id)
    {
      var n := IncrementAndExpire(Key(Fail, scope, id), now, eff.window);
      if n >= Threshold(eff, scope) {
        var lockcount := IncrementAndExpire(Key(Lockcount, scope, id), now, CountWindow(params));
        var dur := ComputeLockDuration(lockcount);
        db := db[Key(Lock, scope, id) := Entry(1, now + dur)];
        db := Del(db, Key(Fail, scope, id));
      }
    }

    /** The settings in force may override thresholds and window, never the lock durations. */
    method RecordFailure(settings: Snapshot, now: int, handle: string, ip: string)
      requires params.backoffMax >= 0
      modifies this
      ensures db == Failure(old(db), Effective(params, settings), now, handle, ip)
    {
      var eff := Effective(params, settings);
      if handle != "" {
        CountOne(eff, now, Handle, handle);
      }
      if ip != "" {
        CountOne(eff, now, IP, ip);
      }
    }

    method Clear(handle: string)
      modifies this
      ensures db == Cleared(old(db), handle)
      ensures if handle == "" then db == old(db) else Forgiven(old(db), db, handle)
    {
      if handle == "" {
        return;
      }
      db := Del(Del(db, Key(Fail, Handle, handle)), Key(Lock, Handle, handle));
    }
  }
}
