/**
 * The mixnet room (src/simple.rs): a registry of participants keyed by
 * username, a bounded history, message and broadcast counters, the dispatch
 * of inbound messages, the liveness sweep, and the outbound delivery queue
 * with its single worker.
 *
 * Every task body runs as one atomic step under the room's mutex; wall-clock
 * and monotonic times are whole seconds passed in as `now`. A serialized
 * payload is modelled by the message it encodes.
 */
module Simple {

  import opened Wrappers
  import opened Common
  import opened History
  import opened Enumeration

  /** Participants silent for this many seconds or more are pruned. */
  const PARTICIPANT_TIMEOUT_SECS: nat := 300

  /** Capacity of the outbound channel. */
  const MAX_QUEUE_SIZE: nat := 1000

  /** A queued message older than this many seconds at dequeue time is skipped. */
  const STALE_AFTER_SECS: nat := 30

  /** The mixnet's single-use reply handle for one client; opaque to the room. */
  datatype SenderTag = SenderTag(id: nat)

  /** Carried by every queued message; the worker never looks at it. */
  datatype Priority = High | Medium | Low

  datatype Participant = Participant(username: string, senderTag: SenderTag, lastActive: nat)

  /** What one spawned send task puts on the channel, before it is stamped with the enqueue time. */
  datatype Delivery = Delivery(message: ChatMessage, recipient: SenderTag, priority: Priority)

  datatype QueuedMessage = QueuedMessage(message: ChatMessage, recipient: SenderTag, priority: Priority, timestamp: nat)

  // ---------------------------------------------------------------------------
  // Liveness

  /**
   * The `retain` test of `prune_inactive_participants`: a participant stays
   * while less than the timeout has passed since it was last active; a
   * `last_active` later than `now` makes `duration_since` fail, and such a
   * participant is kept.
   */
  function IsActive(p: Participant, now: nat): (active: bool)
    ensures active <==> now < p.lastActive + PARTICIPANT_TIMEOUT_SECS
  {
    if now >= p.lastActive then now - p.lastActive < PARTICIPANT_TIMEOUT_SECS else true
  }

  /** The registry after a sweep at `now`. */
  function Survivors(ps: map<string, Participant>, now: nat): map<string, Participant>
  {
    map u | u in ps && IsActive(ps[u], now) :: ps[u]
  }

  /** The usernames a sweep at `now` removes. */
  function Expired(ps: map<string, Participant>, now: nat): set<string>
  {
    set u | u in ps && !IsActive(ps[u], now)
  }

  /**
   * A sweep removes exactly the participants idle for 300 seconds or more
   * (300 included), keeps those whose last activity lies after `now`, and
   * leaves every surviving entry as it was.
   */
  lemma SweepExact(ps: map<string, Participant>, now: nat, u: string)
    requires u in ps
    ensures u in Expired(ps, now) <==> ps[u].lastActive + PARTICIPANT_TIMEOUT_SECS <= now
    ensures u in Survivors(ps, now) <==> u !in Expired(ps, now)
    ensures ps[u].lastActive > now ==> u in Survivors(ps, now)
    ensures u in Survivors(ps, now) ==> Survivors(ps, now)[u] == ps[u]
  {
  }

  /** The sweep partitions the registry: survivors and expired usernames together are all of it. */
  lemma SweepPartitions(ps: map<string, Participant>, now: nat)
    ensures Survivors(ps, now).Keys !! Expired(ps, now)
    ensures Survivors(ps, now).Keys + Expired(ps, now) == ps.Keys
  {
  }

  /** The timeout boundary: 299 idle seconds are kept, 300 are pruned. */
  lemma SweepBoundary(name: string, tag: SenderTag, t: nat)
    ensures name in Survivors(map[name := Participant(name, tag, t)], t + 299)
    ensures Expired(map[name := Participant(name, tag, t)], t + 300) == {name}
  {
    var ps := map[name := Participant(name, tag, t)];
    assert name in Expired(ps, t + 300);
  }

  // ---------------------------------------------------------------------------
  // Fan-out

  /** The participants `broadcast_to_participants(.., skip, ..)` sends to: every one whose username is not `skip`. */
  function Recipients(ps: map<string, Participant>, skip: string): (r: set<string>)
    ensures r <= ps.Keys
    ensures (forall u :: u in ps ==> ps[u].username == u) ==> r == ps.Keys - {skip}
  {
    set u | u in ps && ps[u].username != skip
  }

  /**
   * The deliveries of one message to each participant named in `users`, one
   * per username, addressed to that participant's sender tag. Spawned send
   * tasks run in no fixed order, so fan-outs are compared as multisets.
   */
  ghost function Fanout(ps: map<string, Participant>, users: set<string>, msg: ChatMessage, prio: Priority): multiset<Delivery>
    requires users <= ps.Keys
    decreases users
  {
    if users == {} then multiset{}
    else
      var u :| u in users;
      multiset{Delivery(msg, ps[u].senderTag, prio)} + Fanout(ps, users - {u}, msg, prio)
  }

  /** The usernames in `users` whose participant has sender tag `tag`. */
  ghost function HoldersOf(ps: map<string, Participant>, users: set<string>, tag: SenderTag): set<string>
    requires users <= ps.Keys
  {
    set u | u in users && ps[u].senderTag == tag
  }

  /** A fan-out may be taken apart at any of its usernames, whichever one its definition picked. */
  lemma {:induction false} FanoutRemove(ps: map<string, Participant>, users: set<string>, u: string, msg: ChatMessage, prio: Priority)
    requires users <= ps.Keys && u in users
    ensures Fanout(ps, users, msg, prio) == multiset{Delivery(msg, ps[u].senderTag, prio)} + Fanout(ps, users - {u}, msg, prio)
    decreases users
  {
    var v :| v in users && Fanout(ps, users, msg, prio) == multiset{Delivery(msg, ps[v].senderTag, prio)} + Fanout(ps, users - {v}, msg, prio);
    if v != u {
      FanoutRemove(ps, users - {v}, u, msg, prio);
      FanoutRemove(ps, users - {u}, v, msg, prio);
      assert users - {v} - {u} == users - {u} - {v};
    }
  }

  /** Taking one username out of `users` takes it out of the holders of its own tag only. */
  lemma HoldersRemove(ps: map<string, Participant>, users: set<string>, u: string, tag: SenderTag)
    requires users <= ps.Keys && u in users
    ensures |HoldersOf(ps, users, tag)| == |HoldersOf(ps, users - {u}, tag)| + (if ps[u].senderTag == tag then 1 else 0)
  {
    var rest := HoldersOf(ps, users - {u}, tag);
    assert u !in rest;
    if ps[u].senderTag == tag {
      assert HoldersOf(ps, users, tag) == rest + {u};
    } else {
      assert HoldersOf(ps, users, tag) == rest;
    }
  }

  /**
   * What a fan-out holds: every delivery carries the message and the priority
   * given, and a sender tag receives as many copies as there are usernames in
   * `users` registered with it.
   */
  lemma {:induction false} FanoutCount(ps: map<string, Participant>, users: set<string>, msg: ChatMessage, prio: Priority, d: Delivery)
    requires users <= ps.Keys
    ensures Fanout(ps, users, msg, prio)[d] == if d.message == msg && d.priority == prio then |HoldersOf(ps, users, d.recipient)| else 0
    decreases users
  {
    if users == {} {
      assert HoldersOf(ps, users, d.recipient) == {};
    } else {
      var u :| u in users;
      var one := Delivery(msg, ps[u].senderTag, prio);
      FanoutRemove(ps, users, u, msg, prio);
      FanoutCount(ps, users - {u}, msg, prio, d);
      HoldersRemove(ps, users, u, d.recipient);
      assert Fanout(ps, users, msg, prio)[d] == multiset{one}[d] + Fanout(ps, users - {u}, msg, prio)[d];
      assert multiset{one}[d] == if d == one then 1 else 0;
    }
  }

  /** Each username in `users` gets the message at its tag, and nothing else is in the fan-out. */
  lemma FanoutMembers(ps: map<string, Participant>, users: set<string>, msg: ChatMessage, prio: Priority)
    requires users <= ps.Keys
    ensures forall u :: u in users ==> Delivery(msg, ps[u].senderTag, prio) in Fanout(ps, users, msg, prio)
    ensures forall d :: d in Fanout(ps, users, msg, prio) ==> d.message == msg && d.priority == prio
  {
    forall u | u in users ensures Delivery(msg, ps[u].senderTag, prio) in Fanout(ps, users, msg, prio) {
      FanoutCount(ps, users, msg, prio, Delivery(msg, ps[u].senderTag, prio));
      assert u in HoldersOf(ps, users, ps[u].senderTag);
    }
    forall d | d in Fanout(ps, users, msg, prio) ensures d.message == msg && d.priority == prio {
      FanoutCount(ps, users, msg, prio, d);
    }
  }

  /** A fan-out holds exactly one delivery per username. */
  lemma {:induction false} FanoutSize(ps: map<string, Participant>, users: set<string>, msg: ChatMessage, prio: Priority)
    requires users <= ps.Keys
    ensures |Fanout(ps, users, msg, prio)| == |users|
    decreases users
  {
    if users != {} {
      var u :| u in users;
      FanoutRemove(ps, users, u, msg, prio);
      FanoutSize(ps, users - {u}, msg, prio);
    }
  }

  /** No two usernames share a sender tag. */
  ghost predicate TagsDistinct(ps: map<string, Participant>)
  {
    forall u, v :: u in ps && v in ps && u != v ==> ps[u].senderTag != ps[v].senderTag
  }

  /**
   * A broadcast that skips `skip` reaches every other participant and, when
   * sender tags are distinct, never the skipped participant's own tag.
   */
  lemma BroadcastSkipsSender(ps: map<string, Participant>, skip: string, msg: ChatMessage, prio: Priority)
    requires forall u :: u in ps ==> ps[u].username == u
    ensures forall u :: u in ps && u != skip ==> Delivery(msg, ps[u].senderTag, prio) in Fanout(ps, Recipients(ps, skip), msg, prio)
    ensures TagsDistinct(ps) && skip in ps ==> Delivery(msg, ps[skip].senderTag, prio) !in Fanout(ps, Recipients(ps, skip), msg, prio)
  {
    var r := Recipients(ps, skip);
    FanoutMembers(ps, r, msg, prio);
    assert forall u :: u in ps && u != skip ==> u in r;
    if TagsDistinct(ps) && skip in ps {
      FanoutCount(ps, r, msg, prio, Delivery(msg, ps[skip].senderTag, prio));
      assert HoldersOf(ps, r, ps[skip].senderTag) == {};
    }
  }

  /** The Leave messages the prune task sends: for each pruned username, one to every remaining participant. */
  ghost function LeaveFanout(ps: map<string, Participant>, pruned: seq<string>): multiset<Delivery>
  {
    if pruned == [] then multiset{}
    else LeaveFanout(ps, pruned[..|pruned| - 1]) + Fanout(ps, ps.Keys, Leave(pruned[|pruned| - 1]), High)
  }

  /** The prune task sends |pruned| * |remaining| messages. */
  lemma {:induction false} LeaveFanoutSize(ps: map<string, Participant>, pruned: seq<string>)
    ensures |LeaveFanout(ps, pruned)| == |pruned| * |ps|
    decreases |pruned|
  {
    if pruned != [] {
      var n, k := |pruned| - 1, |ps|;
      LeaveFanoutSize(ps, pruned[..n]);
      FanoutSize(ps, ps.Keys, Leave(pruned[n]), High);
      calc {
        |LeaveFanout(ps, pruned)|;
        |LeaveFanout(ps, pruned[..n])| + |Fanout(ps, ps.Keys, Leave(pruned[n]), High)|;
        n * k + k;
        { MulSucc(n, k); }
        |pruned| * k;
      }
    }
  }

  lemma MulSucc(n: nat, k: nat)
    ensures (n + 1) * k == n * k + k
  {
  }

  /** For each pruned username, every remaining participant gets a High-priority Leave naming it. */
  lemma {:induction false} LeaveFanoutReachesAll(ps: map<string, Participant>, pruned: seq<string>, i: nat, u: string)
    requires i < |pruned| && u in ps
    ensures Delivery(Leave(pruned[i]), ps[u].senderTag, High) in LeaveFanout(ps, pruned)
    decreases |pruned|
  {
    var n := |pruned| - 1;
    if i < n {
      LeaveFanoutReachesAll(ps, pruned[..n], i, u);
    } else {
      FanoutMembers(ps, ps.Keys, Leave(pruned[n]), High);
    }
  }

  /** The prune task sends nothing but High-priority Leaves for pruned usernames. */
  lemma {:induction false} LeaveFanoutOnlyLeaves(ps: map<string, Participant>, pruned: seq<string>, d: Delivery)
    requires d in LeaveFanout(ps, pruned)
    ensures d.priority == High && d.message.Leave? && d.message.username in pruned
    decreases |pruned|
  {
    var n := |pruned| - 1;
    if d in LeaveFanout(ps, pruned[..n]) {
      LeaveFanoutOnlyLeaves(ps, pruned[..n], d);
      assert d.message.username in pruned[..n];
    } else {
      FanoutMembers(ps, ps.Keys, Leave(pruned[n]), High);
    }
  }

  // ---------------------------------------------------------------------------
  // The room

  class RoomState {
    var participants: map<string, Participant>
    var history: seq<HistoryItem>
    var startTime: nat
    var messageCount: nat
    var broadcastCount: nat

    /** Every entry is stored under its own username, and the history is within capacity. */
    ghost predicate Valid()
      reads this
    {
      && (forall u :: u in participants ==> participants[u].username == u)
      && |history| <= MAX_HISTORY_SIZE
    }

    /** `RoomState::new()`, started at `now`. */
    constructor (now: nat)
      ensures Valid()
      ensures participants == map[] && history == [] && startTime == now
      ensures messageCount == 0 && broadcastCount == 0
    {
      participants := map[];
      history := [];
      startTime := now;
      messageCount := 0;
      broadcastCount := 0;
    }

    /** `add_history_item`: append, and drop the oldest item once over capacity. */
    method AddHistoryItem(item: HistoryItem)
      requires Valid()
      modifies this`history
      ensures Valid()
      ensures history == Appended(old(history), item)
    {
      history := history + [item];
      if |history| > MAX_HISTORY_SIZE {
        history := history[1..];
      }
    }

    /** `prune_inactive_participants`: remove the idle participants and return their usernames. */
    method PruneInactiveParticipants(now: nat) returns (pruned: seq<string>)
      requires Valid()
      modifies this`participants
      ensures Valid()
      ensures participants == Survivors(old(participants), now)
      ensures Enumerates(pruned, Expired(old(participants), now))
    {
      ghost var before := participants;
      pruned := [];
      var unvisited := participants.Keys;
      while unvisited != {}
        invariant unvisited <= before.Keys
        invariant forall u :: u in participants ==> u in before && participants[u] == before[u]
        invariant forall u :: u in before ==> (u in participants <==> u in unvisited || IsActive(before[u], now))
        invariant forall i, j :: 0 <= i < j < |pruned| ==> pruned[i] != pruned[j]
        invariant forall u :: u in pruned <==> u in before && u !in unvisited && !IsActive(before[u], now)
        decreases unvisited
      {
        var u :| u in unvisited;
        if !IsActive(participants[u], now) {
          pruned := pruned + [u];
          participants := participants - {u};
        }
        unvisited := unvisited - {u};
      }
      assert participants == Survivors(before, now);
    }

    /** The usernames of all participants, in the registry's iteration order. */
    method Usernames() returns (names: seq<string>)
      requires Valid()
      ensures Enumerates(names, participants.Keys)
    {
      names := Keys(participants);
    }

    /** One send task per username in `users`, each carrying `msg` at priority `prio`. */
    method QueueEach(users: set<string>, msg: ChatMessage, prio: Priority) returns (out: seq<Delivery>)
      requires users <= participants.Keys
      ensures multiset(out) == Fanout(participants, users, msg, prio)
    {
      out := [];
      var unsent := users;
      while unsent != {}
        invariant unsent <= users
        invariant multiset(out) + Fanout(participants, unsent, msg, prio) == Fanout(participants, users, msg, prio)
        decreases unsent
      {
        var u :| u in unsent;
        FanoutRemove(participants, unsent, u, msg, prio);
        out := out + [Delivery(msg, participants[u].senderTag, prio)];
        unsent := unsent - {u};
      }
    }

    /** `broadcast_to_participants`: one delivery per participant whose username is not `skip`. */
    method BroadcastToParticipants(msg: ChatMessage, skip: string, prio: Priority) returns (out: seq<Delivery>)
      ensures multiset(out) == Fanout(participants, Recipients(participants, skip), msg, prio)
      ensures |out| == |Recipients(participants, skip)|
    {
      var recipients := Recipients(participants, skip);
      if recipients == {} {
        return [];
      }
      out := QueueEach(recipients, msg, prio);
      FanoutSize(participants, recipients, msg, prio);
      assert |out| == |multiset(out)|;
    }

    /** The Join arm of the dispatch: register, reply with a StateSync, tell the others. */
    method OnJoin(username: string, tag: SenderTag, now: nat) returns (out: seq<Delivery>)
      requires Valid()
      modifies this`participants, this`messageCount
      ensures Valid()
      ensures participants == old(participants)[username := Participant(username, tag, now)]
      ensures messageCount == old(messageCount) + 1
      ensures |out| >= 1 && IsSyncTo(out[0], tag, history, participants.Keys)
      ensures multiset(out[1..]) == Fanout(participants, Recipients(participants, username), Join(username), High)
    {
      participants := participants[username := Participant(username, tag, now)];
      messageCount := messageCount + 1;
      var names := Usernames();
      var sync := Delivery(StateSync(history, names), tag, Medium);
      var others := BroadcastToParticipants(Join(username), username, High);
      out := [sync] + others;
      assert out[1..] == others;
    }

    /** The Leave arm of the dispatch: unregister (if present) and tell the rest. */
    method OnLeave(username: string) returns (out: seq<Delivery>)
      requires Valid()
      modifies this`participants, this`messageCount
      ensures Valid()
      ensures participants == old(participants) - {username}
      ensures messageCount == old(messageCount) + 1
      ensures multiset(out) == Fanout(participants, Recipients(participants, username), Leave(username), High)
    {
      participants := participants - {username};
      messageCount := messageCount + 1;
      out := BroadcastToParticipants(Leave(username), username, High);
    }

    /** The Text arm of the dispatch: refresh the sender if registered, record, relay to the others. */
    method OnText(from: string, content: string, timestamp: u64, now: nat) returns (out: seq<Delivery>)
      requires Valid()
      modifies this`participants, this`history, this`messageCount
      ensures Valid()
      ensures participants == if from in old(participants) then old(participants)[from := old(participants)[from].(lastActive := now)] else old(participants)
      ensures history == Appended(old(history), HistoryItem(from, content, timestamp))
      ensures messageCount == old(messageCount) + 1
      ensures multiset(out) == Fanout(participants, Recipients(participants, from), Text(from, content, timestamp), Low)
    {
      if from in participants {
        participants := participants[from := participants[from].(lastActive := now)];
      }
      AddHistoryItem(HistoryItem(from, content, timestamp));
      messageCount := messageCount + 1;
      out := BroadcastToParticipants(Text(from, content, timestamp), from, Low);
    }

    /**
     * The `on_messages` handler. `parsed` is the result of decoding the
     * payload (None when it does not parse), `senderTag` the reply handle the
     * mixnet delivered with it; `out` holds the sends the handler spawns.
     */
    method OnMessage(parsed: Option<ChatMessage>, senderTag: Option<SenderTag>, now: nat) returns (out: seq<Delivery>)
      requires Valid()
      modifies this`participants, this`history, this`messageCount
      ensures Valid()
      ensures (parsed.None? || senderTag.None? || parsed.value.StateSync?) ==>
        && participants == old(participants) && history == old(history)
        && messageCount == old(messageCount) && out == []
      ensures parsed.Some? && senderTag.Some? && parsed.value.Join? ==>
        var u := parsed.value.username;
        && participants == old(participants)[u := Participant(u, senderTag.value, now)]
        && history == old(history)
        && messageCount == old(messageCount) + 1
        && |out| >= 1 && IsSyncTo(out[0], senderTag.value, history, participants.Keys)
        && multiset(out[1..]) == Fanout(participants, Recipients(participants, u), parsed.value, High)
      ensures parsed.Some? && senderTag.Some? && parsed.value.Leave? ==>
        var u := parsed.value.username;
        && participants == old(participants) - {u}
        && history == old(history)
        && messageCount == old(messageCount) + 1
        && multiset(out) == Fanout(participants, Recipients(participants, u), parsed.value, High)
      ensures parsed.Some? && senderTag.Some? && parsed.value.Text? ==>
        var m := parsed.value;
        && participants == (if m.from in old(participants) then old(participants)[m.from := old(participants)[m.from].(lastActive := now)] else old(participants))
        && history == Appended(old(history), HistoryItem(m.from, m.content, m.timestamp))
        && messageCount == old(messageCount) + 1
        && multiset(out) == Fanout(participants, Recipients(participants, m.from), m, Low)
    {
      if parsed.None? || senderTag.None? {
        return [];
      }
      var tag := senderTag.value;
      match parsed.value
      case Join(username) =>
        out := OnJoin(username, tag, now);
      case Leave(username) =>
        out := OnLeave(username);
      case Text(from, content, timestamp) =>
        out := OnText(from, content, timestamp, now);
      case StateSync(_, _) =>
        out := [];
    }

    /** One tick of the prune task: sweep, then queue a High Leave for each pruned username to every remaining participant. */
    method PruneTick(now: nat) returns (pruned: seq<string>, out: seq<Delivery>)
      requires Valid()
      modifies this`participants
      ensures Valid()
      ensures participants == Survivors(old(participants), now)
      ensures Enumerates(pruned, Expired(old(participants), now))
      ensures multiset(out) == LeaveFanout(participants, pruned)
    {
      pruned := PruneInactiveParticipants(now);
      out := [];
      var i := 0;
      while i < |pruned|
        invariant 0 <= i <= |pruned|
        invariant Valid() && participants == Survivors(old(participants), now)
        invariant multiset(out) == LeaveFanout(participants, pruned[..i])
      {
        var batch := QueueEach(participants.Keys, Leave(pruned[i]), High);
        assert pruned[..i + 1][..i] == pruned[..i];
        out := out + batch;
        i := i + 1;
      }
      assert pruned[..i] == pruned;
    }
  }

  /** `d` is the join-time StateSync: sent to `tag` at Medium priority with the history and every username. */
  ghost predicate IsSyncTo(d: Delivery, tag: SenderTag, history: seq<HistoryItem>, names: set<string>)
  {
    && d.recipient == tag && d.priority == Medium
    && d.message.StateSync? && d.message.history == history
    && Enumerates(d.message.participants, names)
  }

  // ---------------------------------------------------------------------------
  // The outbound queue and its worker

  /** Age of a queued message at `now`; a monotonic clock never runs backwards, so `elapsed` saturates at zero. */
  function Elapsed(m: QueuedMessage, now: nat): (age: nat)
    ensures age <= now
    ensures m.timestamp <= now ==> m.timestamp + age == now
    ensures now <= m.timestamp ==> age == 0
  {
    if now >= m.timestamp then now - m.timestamp else 0
  }

  /** The worker skips a message more than 30 seconds old. */
  function Stale(m: QueuedMessage, now: nat): (stale: bool)
    ensures stale <==> m.timestamp + STALE_AFTER_SECS < now
  {
    Elapsed(m, now) > STALE_AFTER_SECS
  }

  /** The messages the worker hands to the mixnet when it dequeues `q[i]` at time `times[i]`. */
  function Sent(q: seq<QueuedMessage>, times: seq<nat>): seq<QueuedMessage>
    requires |q| == |times|
  {
    if q == [] then []
    else
      var n := |q| - 1;
      Sent(q[..n], times[..n]) + (if Stale(q[n], times[n]) then [] else [q[n]])
  }

  /** The queue positions the worker sends from when it dequeues `q[i]` at time `times[i]`. */
  function SentPositions(q: seq<QueuedMessage>, times: seq<nat>): seq<nat>
    requires |q| == |times|
  {
    if q == [] then []
    else
      var n := |q| - 1;
      SentPositions(q[..n], times[..n]) + (if Stale(q[n], times[n]) then [] else [n])
  }

  /**
   * The worker sends exactly the messages that are not stale when dequeued,
   * in queue order: the k-th message sent is the one at the k-th such position.
   */
  lemma {:induction false} SentIsFreshInOrder(q: seq<QueuedMessage>, times: seq<nat>)
    requires |q| == |times|
    ensures |SentPositions(q, times)| == |Sent(q, times)|
    ensures forall k :: 0 <= k < |Sent(q, times)| ==> SentPositions(q, times)[k] < |q| && Sent(q, times)[k] == q[SentPositions(q, times)[k]]
    ensures forall k, l :: 0 <= k < l < |SentPositions(q, times)| ==> SentPositions(q, times)[k] < SentPositions(q, times)[l]
    ensures forall i: nat :: i in SentPositions(q, times) <==> i < |q| && !Stale(q[i], times[i])
    decreases |q|
  {
    if q != [] {
      var n := |q| - 1;
      SentIsFreshInOrder(q[..n], times[..n]);
      forall i | 0 <= i < n ensures q[..n][i] == q[i] && times[..n][i] == times[i] { }
    }
  }

  /** Priority never affects what the worker sends or in which order: messages differing only in priority leave the queue alike. */
  lemma {:induction false} SentIgnoresPriority(q: seq<QueuedMessage>, q': seq<QueuedMessage>, times: seq<nat>)
    requires |q| == |q'| == |times|
    requires forall i :: 0 <= i < |q| ==> q'[i] == q[i].(priority := q'[i].priority)
    ensures SentPositions(q, times) == SentPositions(q', times)
    decreases |q|
  {
    if q != [] {
      var n := |q| - 1;
      SentIgnoresPriority(q[..n], q'[..n], times[..n]);
    }
  }

  /** The bounded channel between the producers and the worker; FIFO. */
  class DeliveryQueue {
    var items: seq<QueuedMessage>

    ghost predicate Valid()
      reads this
    {
      |items| <= MAX_QUEUE_SIZE
    }

    /** `mpsc::channel(MAX_QUEUE_SIZE)`: an empty channel. */
    constructor ()
      ensures Valid() && items == []
    {
      items := [];
    }

    /**
     * A producer's `send(..).await` once there is room: the delivery joins
     * the back, stamped with the time it was queued. A full channel makes the
     * producer wait, so a send only happens while there is room.
     */
    method Enqueue(d: Delivery, now: nat)
      requires Valid() && |items| < MAX_QUEUE_SIZE
      modifies this
      ensures Valid()
      ensures items == old(items) + [QueuedMessage(d.message, d.recipient, d.priority, now)]
    {
      items := items + [QueuedMessage(d.message, d.recipient, d.priority, now)];
    }

    /**
     * One turn of the worker loop at time `now`: take the oldest message; skip
     * it when stale; otherwise hand it to the mixnet (`sent`) and count the
     * attempt, whether or not the send succeeds.
     */
    method Step(room: RoomState, now: nat) returns (sent: Option<QueuedMessage>)
      requires Valid() && items != []
      modifies this, room`broadcastCount
      ensures Valid()
      ensures items == old(items)[1..]
      ensures Stale(old(items)[0], now) ==> sent == Option.None && room.broadcastCount == old(room.broadcastCount)
      ensures !Stale(old(items)[0], now) ==> sent == Some(old(items)[0]) && room.broadcastCount == old(room.broadcastCount) + 1
    {
      var m := items[0];
      items := items[1..];
      if Stale(m, now) {
        return Option.None;
      }
      sent := Some(m);
      room.broadcastCount := room.broadcastCount + 1;
    }

    /** The worker loop over the next |times| messages, dequeuing the i-th at `times[i]`. */
    method Run(room: RoomState, times: seq<nat>) returns (sent: seq<QueuedMessage>)
      requires Valid() && |times| <= |items|
      modifies this, room`broadcastCount
      ensures Valid()
      ensures items == old(items)[|times|..]
      ensures sent == Sent(old(items)[..|times|], times)
      ensures room.broadcastCount == old(room.broadcastCount) + |sent|
    {
      ghost var q := items;
      sent := [];
      var i := 0;
      while i < |times|
        invariant 0 <= i <= |times|
        invariant Valid()
        invariant items == q[i..]
        invariant sent == Sent(q[..i], times[..i])
        invariant room.broadcastCount == old(room.broadcastCount) + |sent|
      {
        var m := Step(room, times[i]);
        assert q[..i + 1][..i] == q[..i] && times[..i + 1][..i] == times[..i];
        if m.Some? {
          sent := sent + [m.value];
        }
        i := i + 1;
      }
      assert times[..i] == times;
    }
  }
}
