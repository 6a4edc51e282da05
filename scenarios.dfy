/**
 * Concrete runs of the mixnet room, derived from the contracts of its
 * operations alone: a first join, a re-join, a relayed text, and a sweep.
 */
module Scenarios {

  import opened Wrappers
  import opened Common
  import opened Enumeration
  import opened Simple

  /**
   * A Join into an empty room registers the joiner, who alone is sent a
   * StateSync with an empty history and only its own name; nobody else is told.
   */
  method FirstJoin(tag: SenderTag, now: nat) returns (out: seq<Delivery>)
    ensures out == [Delivery(StateSync([], ["alice"]), tag, Medium)]
  {
    var room := new RoomState(now);
    out := room.OnMessage(Some(Join("alice")), Some(tag), now);
    assert room.participants.Keys == {"alice"};
    EnumeratesSingleton(out[0].message.participants, "alice");
    assert Recipients(room.participants, "alice") == {};
    assert multiset(out[1..]) == multiset{};
  }

  /** A second Join under the same username with a new tag leaves one entry, holding the new tag. */
  method Rejoin(first: SenderTag, second: SenderTag, t1: nat, t2: nat) returns (room: RoomState)
    ensures room.participants == map["alice" := Participant("alice", second, t2)]
    ensures room.messageCount == 2
  {
    room := new RoomState(t1);
    var _ := room.OnMessage(Some(Join("alice")), Some(first), t1);
    var _ := room.OnMessage(Some(Join("alice")), Some(second), t2);
  }

  /** A Text from alice is stored and relayed to bob only, at Low priority. */
  method TextSkipsAuthor(aliceTag: SenderTag, bobTag: SenderTag, now: nat, ts: u64) returns (out: seq<Delivery>)
    ensures out == [Delivery(Text("alice", "hi", ts), bobTag, Low)]
  {
    var room := new RoomState(now);
    var _ := room.OnMessage(Some(Join("alice")), Some(aliceTag), now);
    var _ := room.OnMessage(Some(Join("bob")), Some(bobTag), now);
    out := room.OnMessage(Some(Text("alice", "hi", ts)), Some(aliceTag), now);
    assert room.history == [HistoryItem("alice", "hi", ts)];
    var ps := room.participants;
    assert Recipients(ps, "alice") == {"bob"};
    FanoutRemove(ps, {"bob"}, "bob", Text("alice", "hi", ts), Low);
    assert {"bob"} - {"bob"} == {};
    assert multiset(out) == multiset{Delivery(Text("alice", "hi", ts), bobTag, Low)};
    assert |out| == 1 && out[0] in multiset(out);
  }

  /** The registry of the sweep scenario, before the sweep. */
  function IdleAlice(aliceTag: SenderTag, bobTag: SenderTag, t: nat): map<string, Participant>
  {
    map["alice" := Participant("alice", aliceTag, t), "bob" := Participant("bob", bobTag, t + 200)]
  }

  /** At t + 301 alice (idle 301 s) is expired and bob (idle 101 s) survives unchanged. */
  lemma IdleAliceSweep(aliceTag: SenderTag, bobTag: SenderTag, t: nat)
    ensures Expired(IdleAlice(aliceTag, bobTag, t), t + 301) == {"alice"}
    ensures Survivors(IdleAlice(aliceTag, bobTag, t), t + 301) == map["bob" := Participant("bob", bobTag, t + 200)]
  {
    var before := IdleAlice(aliceTag, bobTag, t);
    assert !IsActive(before["alice"], t + 301) && IsActive(before["bob"], t + 301);
  }

  /** With bob the only one left, the Leave for alice goes to bob alone. */
  lemma LeaveReachesBob(bobTag: SenderTag, t: nat)
    ensures LeaveFanout(map["bob" := Participant("bob", bobTag, t)], ["alice"]) == multiset{Delivery(Leave("alice"), bobTag, High)}
  {
    var ps := map["bob" := Participant("bob", bobTag, t)];
    assert ps.Keys == {"bob"};
    assert ["alice"][..0] == [];
    FanoutRemove(ps, {"bob"}, "bob", Leave("alice"), High);
    assert {"bob"} - {"bob"} == {};
  }

  /**
   * alice silent for 301 seconds while bob spoke recently: the next sweep
   * removes alice alone and queues one High Leave("alice"), to bob.
   */
  method SweepEvictsIdle(aliceTag: SenderTag, bobTag: SenderTag, t: nat) returns (pruned: seq<string>, out: seq<Delivery>)
    ensures pruned == ["alice"]
    ensures out == [Delivery(Leave("alice"), bobTag, High)]
  {
    var room := new RoomState(t);
    var _ := room.OnJoin("alice", aliceTag, t);
    var _ := room.OnJoin("bob", bobTag, t + 200);
    assert room.participants == IdleAlice(aliceTag, bobTag, t);
    pruned, out := room.PruneTick(t + 301);
    IdleAliceSweep(aliceTag, bobTag, t);
    EnumeratesSingleton(pruned, "alice");
    LeaveReachesBob(bobTag, t + 200);
    assert |out| == 1 && out[0] in multiset(out);
  }
}
