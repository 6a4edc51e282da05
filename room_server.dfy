/**
 * The TCP-proxy room (src/room_server.rs): participants map a username to
 * the id of the connection it joined on, and every connection has an
 * unbounded outbound channel. Each connection's channel is modelled by the
 * messages pushed into it so far; each handler body runs as one atomic step
 * under the room's mutex, and a serialized payload is modelled by the message
 * it encodes.
 */
module RoomServer {

  import opened Wrappers
  import opened Common
  import opened History
  import opened Enumeration

  /** The proxy room's history capacity: the same bound as the mixnet room's. */
  const MAX_HISTORY_ITEMS: nat := MAX_HISTORY_SIZE

  /** A connection id: a fresh UUID string per accepted TCP connection. */
  type ConnId = string

  /**
   * `after` is the channels after `broadcast(before, msg, exclude)`: the same
   * connections, each but `exclude` with one more copy of `msg` at the back.
   */
  ghost predicate Broadcasted(before: map<ConnId, seq<ChatMessage>>, after: map<ConnId, seq<ChatMessage>>, msg: ChatMessage, exclude: Option<ConnId>)
  {
    && after.Keys == before.Keys
    && forall c :: c in after ==> after[c] == if exclude == Some(c) then before[c] else before[c] + [msg]
  }

  /** One Leave per username, in the order given. */
  function Leaves(users: seq<string>): seq<ChatMessage>
  {
    seq(|users|, i requires 0 <= i < |users| => Leave(users[i]))
  }

  /** The usernames bound to connection `c`. */
  function BoundTo(participants: map<string, ConnId>, c: ConnId): set<string>
  {
    set u | u in participants && participants[u] == c
  }

  /** The registry with every username bound to `c` taken out. */
  function Unbound(participants: map<string, ConnId>, c: ConnId): map<string, ConnId>
  {
    map u | u in participants && participants[u] != c :: participants[u]
  }

  /** `m` is the join-time StateSync carrying `history` and every username in `names`. */
  ghost predicate IsSync(m: ChatMessage, history: seq<HistoryItem>, names: set<string>)
  {
    m.StateSync? && m.history == history && Enumerates(m.participants, names)
  }

  /**
   * A broadcast reaches exactly the connections other than `exclude`, each
   * with one copy of the message at the back; `exclude` is left as it was.
   */
  lemma BroadcastReach(before: map<ConnId, seq<ChatMessage>>, after: map<ConnId, seq<ChatMessage>>, msg: ChatMessage, exclude: Option<ConnId>)
    requires Broadcasted(before, after, msg, exclude)
    ensures (set c | c in after && |after[c]| == |before[c]| + 1) == before.Keys - (if exclude.Some? then {exclude.value} else {})
    ensures forall c :: c in after && Some(c) != exclude ==> after[c][|after[c]| - 1] == msg
    ensures exclude.Some? && exclude.value in before ==> after[exclude.value] == before[exclude.value]
  {
  }

  /**
   * Closing `c` unbinds exactly the usernames bound to `c`: none of them
   * remains, and every other binding is kept as it was.
   */
  lemma UnboundExact(participants: map<string, ConnId>, c: ConnId)
    ensures Unbound(participants, c).Keys == participants.Keys - BoundTo(participants, c)
    ensures forall u :: u in Unbound(participants, c) ==> Unbound(participants, c)[u] == participants[u] != c
  {
  }

  class RoomState {
    var participants: map<string, ConnId>
    var history: seq<HistoryItem>
    var connections: map<ConnId, seq<ChatMessage>>

    ghost predicate Valid()
      reads this
    {
      |history| <= MAX_HISTORY_SIZE
    }

    /** `RoomState::new()`. */
    constructor ()
      ensures Valid()
      ensures participants == map[] && history == [] && connections == map[]
    {
      participants := map[];
      history := [];
      connections := map[];
    }

    /** `add_history_item`: push, and remove index 0 once over capacity. */
    method AddHistoryItem(item: HistoryItem)
      requires Valid()
      modifies this`history
      ensures Valid()
      ensures history == Appended(old(history), item)
    {
      history := history + [item];
      if |history| > MAX_HISTORY_ITEMS {
        history := history[1..];
      }
    }

    /** `broadcast`: push one copy of `msg` into the channel of every connection other than `exclude`. */
    method Broadcast(msg: ChatMessage, exclude: Option<ConnId>)
      modifies this`connections
      ensures Broadcasted(old(connections), connections, msg, exclude)
    {
      ghost var before := connections;
      var unsent := connections.Keys;
      while unsent != {}
        invariant unsent <= before.Keys && connections.Keys == before.Keys
        invariant forall c :: c in unsent ==> connections[c] == before[c]
        invariant forall c :: c in before && c !in unsent ==> connections[c] == if exclude == Some(c) then before[c] else before[c] + [msg]
        decreases unsent
      {
        var c :| c in unsent;
        if exclude != Some(c) {
          connections := connections[c := connections[c] + [msg]];
        }
        unsent := unsent - {c};
      }
    }

    /** A new connection registers its channel under its id before any of its messages are handled. */
    method Register(c: ConnId)
      modifies this`connections
      ensures connections == old(connections)[c := []]
    {
      connections := connections[c := []];
    }

    /** The usernames in the registry, in its iteration order. */
    method ParticipantNames() returns (names: seq<string>)
      ensures Enumerates(names, participants.Keys)
    {
      names := Keys(participants);
    }

    /**
     * One message read from connection `c`; `parsed` is the result of
     * decoding it (None when it does not parse).
     */
    method HandleMessage(c: ConnId, parsed: Option<ChatMessage>)
      requires Valid()
      modifies this`participants, this`history, this`connections
      ensures Valid()
      ensures (parsed.None? || parsed.value.StateSync?) ==>
        participants == old(participants) && history == old(history) && connections == old(connections)
      ensures parsed.Some? && parsed.value.Join? ==>
        var u := parsed.value.username;
        && participants == old(participants)[u := c]
        && history == old(history)
        && connections.Keys == old(connections).Keys
        && (forall d :: d in connections && d != c ==> connections[d] == old(connections)[d] + [parsed.value])
        && (c in connections ==>
              var n := |old(connections)[c]|;
              && |connections[c]| == n + 2
              && connections[c][..n + 1] == old(connections)[c] + [parsed.value]
              && IsSync(connections[c][n + 1], history, participants.Keys))
      ensures parsed.Some? && parsed.value.Leave? ==>
        && participants == old(participants) - {parsed.value.username}
        && history == old(history)
        && Broadcasted(old(connections), connections, parsed.value, Option.None)
      ensures parsed.Some? && parsed.value.Text? ==>
        var m := parsed.value;
        && participants == old(participants)
        && history == Appended(old(history), HistoryItem(m.from, m.content, m.timestamp))
        && Broadcasted(old(connections), connections, m, Option.None)
    {
      if parsed.None? {
        return;
      }
      var message := parsed.value;
      match message
      case Join(username) =>
        participants := participants[username := c];
        Broadcast(message, Option.None);
        var names := ParticipantNames();
        if c in connections {
          connections := connections[c := connections[c] + [StateSync(history, names)]];
        }
      case Leave(username) =>
        participants := participants - {username};
        Broadcast(message, Option.None);
      case Text(from, content, timestamp) =>
        AddHistoryItem(HistoryItem(from, content, timestamp));
        Broadcast(message, Option.None);
      case StateSync(_, _) =>
    }

    /** The usernames currently bound to connection `c`, in the registry's iteration order. */
    method UsernamesOn(c: ConnId) returns (names: seq<string>)
      ensures Enumerates(names, BoundTo(participants, c))
    {
      names := [];
      var unvisited := participants.Keys;
      while unvisited != {}
        invariant unvisited <= participants.Keys
        invariant forall i, j :: 0 <= i < j < |names| ==> names[i] != names[j]
        invariant forall u :: u in names <==> u in BoundTo(participants, c) && u !in unvisited
        decreases unvisited
      {
        var u :| u in unvisited;
        if participants[u] == c {
          names := names + [u];
        }
        unvisited := unvisited - {u};
      }
    }

    /**
     * The clean-up when connection `c`'s writer stops: drop its channel,
     * remove every username bound to it, and tell every remaining connection
     * that each of them left.
     */
    method Close(c: ConnId) returns (removed: seq<string>)
      modifies this`participants, this`connections
      ensures Enumerates(removed, BoundTo(old(participants), c))
      ensures participants == Unbound(old(participants), c)
      ensures connections.Keys == old(connections).Keys - {c}
      ensures forall d :: d in connections ==> connections[d] == old(connections)[d] + Leaves(removed)
    {
      connections := connections - {c};
      ghost var before := participants;
      ghost var open := connections;
      removed := UsernamesOn(c);
      ghost var gone: set<string> := {};
      var i := 0;
      while i < |removed|
        invariant 0 <= i <= |removed|
        invariant forall u :: u in gone <==> u in removed[..i]
        invariant participants == before - gone
        invariant connections.Keys == open.Keys
        invariant forall d :: d in connections ==> connections[d] == open[d] + Leaves(removed[..i])
      {
        var name := removed[i];
        ghost var sent := connections;
        participants := participants - {name};
        Broadcast(Leave(name), Some(c));
        gone := gone + {name};
        ChannelsGrow(open, sent, connections, Leaves(removed[..i]), Leave(name), c);
        LeavesSnoc(removed, i);
        i := i + 1;
      }
      assert removed[..i] == removed;
      assert gone == BoundTo(before, c);
      assert participants == Unbound(before, c);
    }
  }

  /** A broadcast excluding a connection that is already gone appends the message to every channel. */
  lemma ChannelsGrow(open: map<ConnId, seq<ChatMessage>>, sent: map<ConnId, seq<ChatMessage>>, after: map<ConnId, seq<ChatMessage>>,
                     prefix: seq<ChatMessage>, msg: ChatMessage, gone: ConnId)
    requires sent.Keys == open.Keys && gone !in open
    requires forall d :: d in sent ==> sent[d] == open[d] + prefix
    requires Broadcasted(sent, after, msg, Some(gone))
    ensures after.Keys == open.Keys
    ensures forall d :: d in after ==> after[d] == open[d] + (prefix + [msg])
  {
    forall d | d in after ensures after[d] == open[d] + (prefix + [msg]) {
      assert after[d] == (open[d] + prefix) + [msg];
    }
  }

  /** One more Leave at the back of the list is one more Leave at the back of the messages. */
  lemma LeavesSnoc(users: seq<string>, i: nat)
    requires i < |users|
    ensures Leaves(users[..i + 1]) == Leaves(users[..i]) + [Leave(users[i])]
    ensures forall u :: u in users[..i + 1] <==> u in users[..i] || u == users[i]
  {
    assert users[..i + 1] == users[..i] + [users[i]];
  }
}
