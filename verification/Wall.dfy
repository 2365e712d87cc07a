/** Wall broadcasts (internal/realtime/wall.go): one dispatcher, a bounded channel per subscriber,
    non-blocking sends and eviction of subscribers that keep missing messages.

    A `World` is the dispatcher's state together with what an observer writes down: the log of all
    broadcasts and, per subscriber, which of them its channel accepted. */
module Wall {
  import opened Common

  type Message = string

  const EVICT_AFTER_DROPS: nat := 4
  const BUFFER_SIZE: nat := 16

  /** A subscriber's channel: what is buffered, what was already received, whether it is closed; the
      log length when it subscribed and the log positions of the messages it accepted. */
  datatype Channel = Channel(buffer: seq<Message>, received: seq<Message>, closed: bool, since: nat, taken: seq<nat>)

  /** `subs` maps each registered id to its consecutive drops. */
  datatype World = World(subs: map<int, nat>, channels: map<int, Channel>, next: int, log: seq<Message>)

  datatype Step = Subscribe | Cancel(id: int) | Receive(id: int) | Broadcast(message: Message)

  // ----- The operations -----

  function Full(c: Channel): bool { |c.buffer| >= BUFFER_SIZE }

  function Accept(c: Channel, m: Message, at: nat): Channel {
    c.(buffer := c.buffer + [m], taken := c.taken + [at])
  }

  /** What one broadcast does to a registered channel. */
  function Offer(c: Channel, drops: nat, m: Message, at: nat): Channel {
    if !Full(c) then Accept(c, m, at) else if drops + 1 >= EVICT_AFTER_DROPS then c.(closed := true) else c
  }

  predicate Stays(c: Channel, drops: nat) {
    !Full(c) || drops + 1 < EVICT_AFTER_DROPS
  }

  ghost predicate Registered(w: World) {
    w.subs.Keys <= w.channels.Keys
  }

  ghost function Fanout(w: World, m: Message): World
    requires Registered(w)
  {
    World(map id | id in w.subs && Stays(w.channels[id], w.subs[id])
              :: if Full(w.channels[id]) then w.subs[id] + 1 else 0,
          map id | id in w.channels
              :: if id in w.subs then Offer(w.channels[id], w.subs[id], m, |w.log|) else w.channels[id],
          w.next, w.log + [m])
  }

  ghost function Take(c: Channel): Channel {
    if c.buffer == [] then c else c.(buffer := c.buffer[1..], received := c.received + c.buffer[..1])
  }

  ghost function Apply(w: World, s: Step): World
    requires Registered(w)
  {
    match s
    case Subscribe =>
      var id := w.next + 1;
      w.(next := id, subs := w.subs[id := 0], channels := w.channels[id := Channel([], [], false, |w.log|, [])])
    case Cancel(id) => w.(subs := w.subs - {id})
    case Receive(id) => if id in w.channels then w.(channels := w.channels[id := Take(w.channels[id])]) else w
    case Broadcast(m) => Fanout(w, m)
  }

  // ----- What holds in every reachable state -----

  /** The log position right after the i-th accepted message, or where the subscription began. */
  function Upto(since: nat, taken: seq<nat>, i: nat): nat
    requires i <= |taken|
  {
    if i == 0 then since else taken[i - 1] + 1
  }

  /** The accepted messages are broadcasts made since subscribing, in order, and at most three
      consecutive broadcasts are missing before each of them. */
  ghost predicate InOrder(since: nat, taken: seq<nat>, n: nat) {
    forall i :: 0 <= i < |taken|
      ==> Upto(since, taken, i) <= taken[i] < n && taken[i] - Upto(since, taken, i) < EVICT_AFTER_DROPS
  }

  /** `got` is exactly the accepted messages. */
  ghost predicate Delivers(got: seq<Message>, taken: seq<nat>, log: seq<Message>) {
    |got| == |taken| && forall i :: 0 <= i < |taken| ==> taken[i] < |log| && got[i] == log[taken[i]]
  }

  /** Received, then buffered. */
  function Got(c: Channel): seq<Message> { c.received + c.buffer }

  ghost predicate Faithful(c: Channel, log: seq<Message>) {
    && InOrder(c.since, c.taken, |log|) && Delivers(Got(c), c.taken, log) && |c.buffer| <= BUFFER_SIZE
  }

  /** A registered channel is open, and its drop count is the number of broadcasts since the last one it
      accepted (or since it subscribed), always below four. */
  ghost predicate Live(c: Channel, drops: nat, log: seq<Message>) {
    && !c.closed && drops < EVICT_AFTER_DROPS
    && c.since <= |log| && drops == |log| - Upto(c.since, c.taken, |c.taken|)
  }

  ghost predicate Inv(w: World) {
    && Registered(w)
    && (forall id :: id in w.channels ==> id <= w.next)
    && (forall id :: id in w.channels ==> Faithful(w.channels[id], w.log))
    && (forall id :: id in w.subs ==> Live(w.channels[id], w.subs[id], w.log))
  }

  ghost function Empty(): World { World(map[], map[], 0, []) }

  lemma LogGrows(c: Channel, log: seq<Message>, m: Message)
    requires Faithful(c, log)
    ensures Faithful(c, log + [m])
  {
  }

  lemma InOrderNext(since: nat, taken: seq<nat>, n: nat)
    requires InOrder(since, taken, n) && since <= n && n - Upto(since, taken, |taken|) < EVICT_AFTER_DROPS
    requires Upto(since, taken, |taken|) <= n
    ensures InOrder(since, taken + [n], n + 1)
  {
    var r := taken + [n];
    forall i | 0 <= i < |r|
      ensures Upto(since, r, i) <= r[i] < n + 1 && r[i] - Upto(since, r, i) < EVICT_AFTER_DROPS
    {
      assert Upto(since, r, i) == Upto(since, taken, i);
      if i < |taken| {
        assert r[i] == taken[i];
      }
    }
  }

  lemma AcceptKeeps(c: Channel, drops: nat, log: seq<Message>, m: Message)
    requires Faithful(c, log) && Live(c, drops, log) && !Full(c)
    ensures var r := Accept(c, m, |log|);
            Faithful(r, log + [m]) && Live(r, 0, log + [m])
  {
    var r := Accept(c, m, |log|);
    assert Got(r) == Got(c) + [m];
    InOrderNext(c.since, c.taken, |log|);
  }

  lemma OfferKeeps(c: Channel, drops: nat, log: seq<Message>, m: Message)
    requires Faithful(c, log) && Live(c, drops, log)
    ensures var r := Offer(c, drops, m, |log|);
            && Faithful(r, log + [m])
            && (Stays(c, drops) ==> Live(r, if Full(c) then drops + 1 else 0, log + [m]))
            && (!Stays(c, drops) ==> r.closed)
  {
    LogGrows(c, log, m);
    if !Full(c) {
      AcceptKeeps(c, drops, log, m);
    }
  }

  lemma TakeKeeps(c: Channel, log: seq<Message>)
    requires Faithful(c, log)
    ensures Faithful(Take(c), log)
    ensures Take(c) == c.(buffer := Take(c).buffer, received := Take(c).received)
  {
    if c.buffer != [] {
      assert c.buffer == c.buffer[..1] + c.buffer[1..];
      assert Got(Take(c)) == Got(c);
    }
  }

  lemma ApplyKeepsInv(w: World, s: Step)
    requires Inv(w)
    ensures Inv(Apply(w, s))
  {
    var r := Apply(w, s);
    match s
    case Subscribe =>
    case Cancel(id) =>
    case Receive(id) =>
      if id in w.channels {
        TakeKeeps(w.channels[id], w.log);
      }
    case Broadcast(m) =>
      forall id | id in w.channels
        ensures Faithful(r.channels[id], r.log)
        ensures id in r.subs ==> Live(r.channels[id], r.subs[id], r.log)
      {
        LogGrows(w.channels[id], w.log, m);
        if id in w.subs {
          OfferKeeps(w.channels[id], w.subs[id], w.log, m);
        }
      }
  }

  ghost function Run(w: World, steps: seq<Step>): (r: World)
    requires Inv(w)
    ensures Inv(r)
    decreases |steps|
  {
    if steps == [] then w
    else
      ApplyKeepsInv(w, steps[0]);
      Run(Apply(w, steps[0]), steps[1..])
  }

  /** In every run from the start: what a subscriber has received and still has buffered is a
      subsequence of the broadcasts since it subscribed, in order, with at most three consecutive
      broadcasts missing before each message; and while it is registered it has missed at most the last
      three. */
  lemma DeliveryIsOrderedAndNearlyComplete(steps: seq<Step>, id: int)
    ensures var w := Run(Empty(), steps);
            id in w.channels ==>
              var c := w.channels[id];
              && Faithful(c, w.log)
              && (id in w.subs ==> !c.closed && |w.log| - Upto(c.since, c.taken, |c.taken|) <= 3)
  {
  }

  /** A registered subscriber is dropped by a broadcast exactly when its buffer is full and it has
      already missed the three before; then, and only then, its channel is closed. */
  lemma EvictionOnTheFourthMiss(w: World, m: Message, id: int)
    requires Inv(w) && id in w.subs
    ensures var (c, r) := (w.channels[id], Fanout(w, m));
            && (id !in r.subs <==> |c.buffer| >= 16 && |w.log| - Upto(c.since, c.taken, |c.taken|) == 3)
            && (r.channels[id].closed <==> id !in r.subs)
            && (r.channels[id].taken == c.taken + [|w.log|] <==> |c.buffer| < 16)
            && r.channels[id].buffer == if |c.buffer| < 16 then c.buffer + [m] else c.buffer
  {
  }

  /** After a cancellation nothing is ever sent to the channel or closes it; the other subscriptions stay. */
  lemma CancelIsFinal(w: World, id: int, steps: seq<Step>)
    requires Inv(w) && id in w.channels
    ensures Inv(Apply(w, Cancel(id))) && Apply(w, Cancel(id)).subs == w.subs - {id}
    ensures var r := Run(Apply(w, Cancel(id)), steps);
            && id in r.channels && id !in r.subs
            && r.channels[id].taken == w.channels[id].taken && r.channels[id].closed == w.channels[id].closed
  {
    ApplyKeepsInv(w, Cancel(id));
    UnregisteredIsFinal(Apply(w, Cancel(id)), steps, id);
  }

  /** A receive takes the oldest waiting message, if there is one, and leaves everybody else alone. */
  lemma ReceiveTakesTheOldest(w: World, id: int)
    requires Registered(w) && id in w.channels
    ensures var (c, r) := (w.channels[id], Apply(w, Step.Receive(id)));
            && r.subs == w.subs && r.log == w.log && r.channels.Keys == w.channels.Keys
            && (forall x :: x in w.channels && x != id ==> r.channels[x] == w.channels[x])
            && r.channels[id].closed == c.closed
            && (if c.buffer == [] then r.channels[id] == c
                else r.channels[id].received == c.received + [c.buffer[0]] && r.channels[id].buffer == c.buffer[1..])
  {
    if w.channels[id].buffer != [] {
      assert w.channels[id].buffer[..1] == [w.channels[id].buffer[0]];
    }
  }

  /** The run never cancels the subscription, and every broadcast finds fewer than sixteen messages waiting. */
  ghost predicate KeepsUp(w: World, steps: seq<Step>, id: int)
    requires Inv(w)
    decreases |steps|
  {
    steps == []
    || (steps[0] != Cancel(id)
        && (steps[0].Broadcast? ==> id in w.channels && |w.channels[id].buffer| < 16)
        && (ApplyKeepsInv(w, steps[0]); KeepsUp(Apply(w, steps[0]), steps[1..], id)))
  }

  /** Every broadcast since the subscription has been accepted. */
  ghost predicate TookAll(c: Channel, log: seq<Message>) {
    c.since <= |log| && |c.taken| == |log| - c.since && forall i :: 0 <= i < |c.taken| ==> c.taken[i] == c.since + i
  }

  lemma StepTakesAll(w: World, s: Step, id: int)
    requires Inv(w) && id in w.subs && TookAll(w.channels[id], w.log) && s != Cancel(id)
    requires s.Broadcast? ==> |w.channels[id].buffer| < 16
    ensures var r := Apply(w, s);
            id in r.subs && id in r.channels && TookAll(r.channels[id], r.log) && r.channels[id].since == w.channels[id].since
  {
    if s == Receive(id) {
      TakeKeeps(w.channels[id], w.log);
    }
  }

  lemma {:induction false} RunTakesAll(w: World, steps: seq<Step>, id: int)
    requires Inv(w) && id in w.subs && TookAll(w.channels[id], w.log) && KeepsUp(w, steps, id)
    ensures var r := Run(w, steps);
            id in r.channels && TookAll(r.channels[id], r.log) && r.channels[id].since == w.channels[id].since
    decreases |steps|
  {
    if steps != [] {
      ApplyKeepsInv(w, steps[0]);
      StepTakesAll(w, steps[0], id);
      RunTakesAll(Apply(w, steps[0]), steps[1..], id);
    }
  }

  /** A new subscriber that keeps up misses nothing: what it has received and what waits for it are all the broadcasts
      since it subscribed, in order. */
  lemma KeepingUpMissesNothing(w: World, steps: seq<Step>)
    requires Inv(w) && (ApplyKeepsInv(w, Step.Subscribe); KeepsUp(Apply(w, Step.Subscribe), steps, w.next + 1))
    ensures var r := (ApplyKeepsInv(w, Step.Subscribe); Run(Apply(w, Step.Subscribe), steps));
            && w.next + 1 in r.channels && |w.log| <= |r.log|
            && r.channels[w.next + 1].received + r.channels[w.next + 1].buffer == r.log[|w.log|..]
  {
    ApplyKeepsInv(w, Step.Subscribe);
    var id, start := w.next + 1, Apply(w, Step.Subscribe);
    RunTakesAll(start, steps, id);
    var r := Run(start, steps);
    AllIsGot(r.channels[id], r.log);
  }

  lemma AllIsGot(c: Channel, log: seq<Message>)
    requires Faithful(c, log) && TookAll(c, log)
    ensures Got(c) == log[c.since..]
  {
    forall i | 0 <= i < |c.taken| ensures Got(c)[i] == log[c.since..][i] {
      assert c.taken[i] == c.since + i;
    }
  }

  /** Once a channel is closed, or cancelled, nothing is ever sent to it or closes it again. */
  lemma {:induction false} UnregisteredIsFinal(w: World, steps: seq<Step>, id: int)
    requires Inv(w) && id in w.channels && id !in w.subs
    ensures var r := Run(w, steps);
            && id in r.channels && id !in r.subs
            && r.channels[id].taken == w.channels[id].taken && r.channels[id].closed == w.channels[id].closed
    decreases |steps|
  {
    if steps != [] {
      ApplyKeepsInv(w, steps[0]);
      var r := Apply(w, steps[0]);
      if steps[0] == Receive(id) {
        TakeKeeps(w.channels[id], w.log);
      }
      assert id in r.channels && id !in r.subs;
      UnregisteredIsFinal(r, steps[1..], id);
    }
  }

  // ----- The Go struct -----

  /** Subscriber `id` of `w` has been offered `m`, and only that. */
  ghost predicate Served(w: World, id: int, m: Message, subs: map<int, nat>, channels: map<int, Channel>)
    requires id in w.subs && id in w.channels && id in channels
  {
    && channels[id] == Offer(w.channels[id], w.subs[id], m, |w.log|)
    && (id in subs <==> Stays(w.channels[id], w.subs[id]))
    && (id in subs ==> subs[id] == if Full(w.channels[id]) then w.subs[id] + 1 else 0)
  }

  lemma AllServed(w: World, m: Message, subs: map<int, nat>, channels: map<int, Channel>)
    requires Registered(w) && channels.Keys == w.channels.Keys && subs.Keys <= w.subs.Keys
    requires forall id :: id in w.subs ==> Served(w, id, m, subs, channels)
    requires forall id :: id in w.channels && id !in w.subs ==> channels[id] == w.channels[id]
    ensures World(subs, channels, w.next, w.log + [m]) == Fanout(w, m)
  {
    var r := Fanout(w, m);
    forall id ensures id in subs <==> id in r.subs {
      if id in w.subs {
        assert Served(w, id, m, subs, channels);
      }
    }
    forall id | id in subs ensures subs[id] == r.subs[id] {
      assert Served(w, id, m, subs, channels);
    }
    forall id | id in channels ensures channels[id] == r.channels[id] {
      if id in w.subs {
        assert Served(w, id, m, subs, channels);
      }
    }
    assert channels.Keys == r.channels.Keys;
    assert subs == r.subs && channels == r.channels;
  }

  /** The dispatcher.  `subs` and `next` are its own state; the channels outlive their registration in
      the hands of the sessions, and `log` is what the observer writes down. */
  class WallDispatcher {
    var subs: map<int, nat>
    var next: int
    var channels: map<int, Channel>
    var log: seq<Message>

    ghost function View(): World
      reads this
    {
      World(subs, channels, next, log)
    }

    constructor ()
      ensures View() == Empty()
    {
      subs, next, channels, log := map[], 0, map[], [];
    }

    /** A channel send: the channel must be open and have room. */
    method Send(id: int, m: Message)
      requires id in channels && !channels[id].closed && !Full(channels[id])
      modifies this`channels
      ensures channels == old(channels)[id := Accept(old(channels)[id], m, |log|)]
    {
      channels := channels[id := Accept(channels[id], m, |log|)];
    }

    /** Closing a channel: it must not be closed already. */
    method Close(id: int)
      requires id in channels && !channels[id].closed
      modifies this`channels
      ensures channels == old(channels)[id := old(channels)[id].(closed := true)]
    {
      channels := channels[id := channels[id].(closed := true)];
    }

    /** The select on one subscriber. */
    method TrySend(id: int, m: Message)
      requires id in subs && id in channels && !channels[id].closed
      modifies this`subs, this`channels
      ensures channels == old(channels)[id := Offer(old(channels)[id], old(subs)[id], m, |log|)]
      ensures subs == if Stays(old(channels)[id], old(subs)[id])
                      then old(subs)[id := if Full(old(channels)[id]) then old(subs)[id] + 1 else 0]
                      else old(subs) - {id}
    {
      if |channels[id].buffer| < BUFFER_SIZE {
        Send(id, m);
        subs := subs[id := 0];
      } else {
        subs := subs[id := subs[id] + 1];
        if subs[id] >= EVICT_AFTER_DROPS {
          Close(id);
          subs := subs - {id};
        }
      }
    }

    /** The loop over the subscribers, in any order; every send and close meets an open channel. */
    method OfferAll(m: Message)
      requires Registered(View()) && forall id :: id in subs ==> !channels[id].closed
      modifies this`subs, this`channels
      ensures World(subs, channels, next, log + [m]) == Fanout(old(View()), m)
    {
      ghost var w := View();
      var todo := subs.Keys;
      while todo != {}
        invariant channels.Keys == w.channels.Keys && next == w.next && log == w.log
        invariant todo <= subs.Keys <= w.subs.Keys
        invariant forall id :: id in w.channels && (id in todo || id !in w.subs) ==> channels[id] == w.channels[id]
        invariant forall id :: id in todo ==> subs[id] == w.subs[id]
        invariant forall id :: id in w.subs && id !in todo ==> Served(w, id, m, subs, channels)
        decreases todo
      {
        ghost var witnessed := Member(todo);
        var id :| id in todo;
        TrySend(id, m);
        todo := todo - {id};
      }
      AllServed(w, m, subs, channels);
    }

    method Broadcast(m: Message)
      requires Inv(View())
      modifies this
      ensures View() == Fanout(old(View()), m) && Inv(View())
    {
      ghost var w := View();
      ApplyKeepsInv(w, Step.Broadcast(m));
      assert forall id :: id in subs ==> Live(channels[id], subs[id], log);
      OfferAll(m);
      log := log + [m];
      assert View() == Fanout(w, m);
    }

    method Subscribe() returns (id: int)
      requires Inv(View())
      modifies this
      ensures View() == Apply(old(View()), Step.Subscribe) && Inv(View())
      ensures id == old(next) + 1 && id !in old(channels)
    {
      ghost var w := View();
      next := next + 1;
      id := next;
      subs := subs[id := 0];
      channels := channels[id := Channel([], [], false, |log|, [])];
      ApplyKeepsInv(w, Step.Subscribe);
    }

    method Cancel(id: int)
      requires Inv(View())
      modifies this`subs
      ensures View() == Apply(old(View()), Step.Cancel(id)) && Inv(View())
    {
      ghost var w := View();
      if id in subs {
        subs := subs - {id};
      }
      assert subs == w.subs - {id};
      ApplyKeepsInv(w, Step.Cancel(id));
    }

    /** The session takes the next buffered message, if there is one. */
    method Receive(id: int) returns (m: seq<Message>)
      requires Inv(View())
      modifies this`channels
      ensures View() == Apply(old(View()), Step.Receive(id)) && Inv(View())
      ensures m == if id in old(channels) && old(channels)[id].buffer != [] then old(channels)[id].buffer[..1] else []
    {
      ghost var w := View();
      m := [];
      if id in channels && channels[id].buffer != [] {
        var c := channels[id];
        m := c.buffer[..1];
        channels := channels[id := c.(buffer := c.buffer[1..], received := c.received + m)];
      }
      assert channels == Apply(w, Step.Receive(id)).channels;
      ApplyKeepsInv(w, Step.Receive(id));
    }
  }
}
