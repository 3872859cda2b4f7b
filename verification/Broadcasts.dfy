/**
 What a room of any mode sends while the battle lasts: one message to each player in every tick that does not
 end it, an input frame in mode 0 and a snapshot otherwise, and nothing else. Calls are atomic here.
 */
module Broadcasts {
  import opened Options
  import opened Battle
  import opened OrderIndependence
  import opened Departures
  import Laws = BattleLaws

  predicate IsBroadcast(e: Event) {
    e.PushFrame? || e.PushSnapshot?
  }

  ghost predicate Shows(e: Entity, f: Fighter) {
    e.id == f.id && e.x == f.x && e.y == f.y && e.hp == f.hp && e.alive == f.alive
  }

  /** Both players as they are, the first one first. */
  ghost predicate ShowsBoth(entities: seq<Entity>, a: Arena) {
    |entities| == 2 && Shows(entities[0], a.p1) && Shows(entities[1], a.p2)
  }

  /**
   What the player gets to know of room r after a tick. A snapshot always shows both players, a frame does so
   at the opening only.
   */
  ghost predicate Announces(e: Event, to: int, r: Room, opening: bool) {
    if r.mode == 0
    then
      && e.PushFrame? && e.to == to && e.frame.roomId == r.roomId && e.frame.seqNo == r.arena.tick
      && e.frame.full == opening
      && if opening then ShowsBoth(e.frame.entities, r.arena) else e.frame.entities == []
    else
      && e.PushSnapshot? && e.to == to && e.snap.roomId == r.roomId && e.snap.tick == r.arena.tick
      && e.snap.full == opening && ShowsBoth(e.snap.entities, r.arena)
  }

  ghost predicate Silent(events: seq<Event>) {
    forall k :: 0 <= k < |events| ==> !IsBroadcast(events[k])
  }

  lemma {:induction false} Clockwork(root: Root, r: Room, calls: seq<Call>)
    requires !r.finished && !r.started && r.arena.tick == 0
    ensures var s := Run(root, r, calls).room;
            !s.finished ==> s.arena.tick == Laws.Ticks(calls) && (s.started <==> 0 < Laws.Ticks(calls))
  {
    if calls != [] {
      var init, last := calls[..|calls| - 1], calls[|calls| - 1];
      Clockwork(root, r, init);
      Laws.CallTiming(root, Run(root, r, init).room, last);
    }
  }

  lemma SectionAnnounces(root: Root, r: Room, nowMs: int)
    requires !r.finished
    ensures var sec := TickSection(root, r, nowMs);
            sec.outcome.Broadcast? ==>
              && |sec.outcome.events| == 2
              && Announces(sec.outcome.events[0], sec.room.arena.p1.id, sec.room, !r.started)
              && Announces(sec.outcome.events[1], sec.room.arena.p2.id, sec.room, !r.started)
  {
  }

  lemma SettlementIsSilent(r: Room, winner: int, loser: int, reason: Reason, clock: int)
    ensures Silent(Finish(r, winner, loser, reason, clock).events)
  {
  }

  lemma TickSends(root: Root, r: Room, nowMs: int, finishMs: int)
    ensures var t := Tick(root, r, nowMs, finishMs);
            if !r.finished && !t.room.finished
            then
              && |t.events| == 2
              && Announces(t.events[0], t.room.arena.p1.id, t.room, !r.started)
              && Announces(t.events[1], t.room.arena.p2.id, t.room, !r.started)
            else Silent(t.events)
  {
    if !r.finished {
      var sec := TickSection(root, r, nowMs);
      SectionAnnounces(root, r, nowMs);
      if sec.outcome.Settle? {
        SettlementIsSilent(sec.room, sec.outcome.winner, sec.outcome.loser, sec.outcome.reason, finishMs);
      }
    }
  }

  lemma OnlyTicksAnnounce(root: Root, r: Room, call: Call)
    requires !call.CallTick?
    ensures Silent(Do(root, r, call).events)
  {
    if call.CallQuit? {
      var sec := QuitSection(r, call.player);
      if sec.outcome.Settle? {
        SettlementIsSilent(sec.room, sec.outcome.winner, sec.outcome.loser, sec.outcome.reason, call.finishMs);
      }
    }
  }

  /**
   In every run, in either mode: a tick after which the battle goes on sends one message to the first player
   and one to the second, numbered like the ticks so far, full exactly on the opening tick, and nothing else. A
   tick that ends the battle, or finds it over, sends neither frame nor snapshot.
   */
  lemma TickAnnounces(
      root: Root, roomId: int, id1: int, id2: int, mode: int, createdMs: int, calls: seq<Call>, nowMs: int,
        finishMs: int)
    ensures var r := Run(root, NewRoom(roomId, id1, id2, mode, createdMs), calls).room;
            var t := Do(root, r, CallTick(nowMs, finishMs));
            var n := Laws.Ticks(calls);
            && t.room.roomId == roomId && t.room.mode == mode
            && if !r.finished && !t.room.finished
               then
                 && |t.events| == 2 && t.room.arena.tick == n + 1
                 && Announces(t.events[0], id1, t.room, n == 0) && Announces(t.events[1], id2, t.room, n == 0)
               else Silent(t.events)
  {
    var start := NewRoom(roomId, id1, id2, mode, createdMs);
    var r := Run(root, start, calls).room;
    NamesStay(root, start, calls);
    CallKeepsNames(root, r, CallTick(nowMs, finishMs));
    Clockwork(root, start, calls);
    Laws.CallTiming(root, r, CallTick(nowMs, finishMs));
    TickSends(root, r, nowMs, finishMs);
  }

  /* ---------- over a run ---------- */

  /** The frames and snapshots among some events that go to one player, in order. */
  function MessagesTo(events: seq<Event>, id: int): seq<Event> {
    if events == [] then []
    else
      var last := events[|events| - 1];
      MessagesTo(events[..|events| - 1], id) + if IsBroadcast(last) && last.to == id then [last] else []
  }

  lemma MessagesOneMore(events: seq<Event>, e: Event, id: int)
    ensures MessagesTo(events + [e], id) == MessagesTo(events, id) + if IsBroadcast(e) && e.to == id then [e] else []
  {
    assert (events + [e])[..|events|] == events;
  }

  lemma {:induction false} SilenceAddsNothing(events: seq<Event>, more: seq<Event>, id: int)
    requires Silent(more)
    ensures MessagesTo(events + more, id) == MessagesTo(events, id)
  {
    if more == [] {
      assert events + more == events;
    } else {
      var init, last := more[..|more| - 1], more[|more| - 1];
      assert events + more == (events + init) + [last];
      SilenceAddsNothing(events, init, id);
      MessagesOneMore(events + init, last, id);
      assert MessagesTo(events, id) + [] == MessagesTo(events, id);
    }
  }

  lemma TwoMessages(events: seq<Event>, e1: Event, e2: Event, id: int)
    requires IsBroadcast(e1) && IsBroadcast(e2) && e1.to != e2.to && (id == e1.to || id == e2.to)
    ensures MessagesTo(events + [e1, e2], id) == MessagesTo(events, id) + [if id == e1.to then e1 else e2]
  {
    var got := MessagesTo(events, id);
    MessagesOneMore(events, e1, id);
    MessagesOneMore(events + [e1], e2, id);
    assert events + [e1, e2] == (events + [e1]) + [e2];
    if id == e1.to {
      assert got + [e1] + [] == got + [e1];
    } else {
      assert got + [] == got;
    }
  }

  /** Message number k, counted from 0, announces the room as tick number k + 1 of the run left it. */
  ghost predicate Recounts(root: Root, r: Room, calls: seq<Call>, k: nat, e: Event, id: int) {
    exists n :: 0 <= n <= |calls| && Laws.Ticks(calls[..n]) == k + 1
                && Announces(e, id, Run(root, r, calls[..n]).room, k == 0)
                && Run(root, r, calls[..n]).room.arena.tick == k + 1
  }

  lemma RecountStays(root: Root, r: Room, calls: seq<Call>, call: Call, k: nat, e: Event, id: int)
    requires Recounts(root, r, calls, k, e, id)
    ensures Recounts(root, r, calls + [call], k, e, id)
  {
    var n :| 0 <= n <= |calls| && Laws.Ticks(calls[..n]) == k + 1
             && Announces(e, id, Run(root, r, calls[..n]).room, k == 0)
                && Run(root, r, calls[..n]).room.arena.tick == k + 1;
    assert (calls + [call])[..n] == calls[..n];
  }

  /** What a player has got so far: a faithful account, complete while the battle lasts. */
  ghost predicate Account(root: Root, r: Room, calls: seq<Call>, id: int) {
    var t := Run(root, r, calls);
    var got := MessagesTo(t.events, id);
    && (!t.room.finished ==> |got| == Laws.Ticks(calls))
    && (forall k :: 0 <= k < |got| ==> Recounts(root, r, calls, k, got[k], id))
  }

  lemma RunOneMore(root: Root, r: Room, calls: seq<Call>, call: Call)
    ensures var t := Run(root, r, calls);
            var u := Do(root, t.room, call);
            Run(root, r, calls + [call]) == Turn(u.room, t.events + u.events)
    ensures Laws.Ticks(calls + [call]) == Laws.Ticks(calls) + if call.CallTick? then 1 else 0
  {
    assert (calls + [call])[..|calls|] == calls;
  }

  lemma SilentCallKeepsAccount(root: Root, r: Room, calls: seq<Call>, call: Call, id: int)
    requires Account(root, r, calls, id)
    requires var u := Do(root, Run(root, r, calls).room, call);
             Silent(u.events) && (call.CallTick? ==> u.room.finished)
    ensures Account(root, r, calls + [call], id)
  {
    var t := Run(root, r, calls);
    var u := Do(root, t.room, call);
    RunOneMore(root, r, calls, call);
    SilenceAddsNothing(t.events, u.events, id);
    var got := MessagesTo(t.events, id);
    forall k | 0 <= k < |got| ensures Recounts(root, r, calls + [call], k, got[k], id) {
      RecountStays(root, r, calls, call, k, got[k], id);
    }
    Laws.CallTiming(root, t.room, call);
  }

  lemma NewMessage(root: Root, r: Room, calls: seq<Call>, call: Call, id: int) returns (e: Event)
    requires !r.finished && !r.started && r.arena.tick == 0 && r.arena.p1.id != r.arena.p2.id
    requires (id == r.arena.p1.id || id == r.arena.p2.id) && call.CallTick?
    requires var t := Run(root, r, calls); !t.room.finished && !Do(root, t.room, call).room.finished
    ensures var t, u := Run(root, r, calls), Run(root, r, calls + [call]);
            && MessagesTo(u.events, id) == MessagesTo(t.events, id) + [e]
            && Announces(e, id, u.room, Laws.Ticks(calls) == 0) && u.room.arena.tick == Laws.Ticks(calls) + 1
  {
    var t := Run(root, r, calls);
    var u := Do(root, t.room, call);
    e := if id == r.arena.p1.id then u.events[0] else u.events[1];
    NamesStay(root, r, calls);
    CallKeepsNames(root, t.room, call);
    Clockwork(root, r, calls);
    Laws.CallTiming(root, t.room, call);
    TickSends(root, t.room, call.nowMs, call.finishMs);
    RunOneMore(root, r, calls, call);
    assert u.events == [u.events[0], u.events[1]];
    TwoMessages(t.events, u.events[0], u.events[1], id);
  }

  lemma TickKeepsAccount(root: Root, r: Room, calls: seq<Call>, call: Call, id: int)
    requires !r.finished && !r.started && r.arena.tick == 0 && r.arena.p1.id != r.arena.p2.id
    requires (id == r.arena.p1.id || id == r.arena.p2.id) && call.CallTick? && Account(root, r, calls, id)
    requires var t := Run(root, r, calls); !t.room.finished && !Do(root, t.room, call).room.finished
    ensures Account(root, r, calls + [call], id)
  {
    var got := MessagesTo(Run(root, r, calls).events, id);
    var e := NewMessage(root, r, calls, call, id);
    RunOneMore(root, r, calls, call);
    forall k | 0 <= k < |got| + 1 ensures Recounts(root, r, calls + [call], k, (got + [e])[k], id) {
      if k < |got| {
        RecountStays(root, r, calls, call, k, got[k], id);
      } else {
        assert (calls + [call])[..|calls| + 1] == calls + [call];
      }
    }
  }

  lemma {:induction false} AccountOfRun(root: Root, r: Room, calls: seq<Call>, id: int)
    requires !r.finished && !r.started && r.arena.tick == 0 && r.arena.p1.id != r.arena.p2.id
    requires id == r.arena.p1.id || id == r.arena.p2.id
    ensures Account(root, r, calls, id)
  {
    if calls != [] {
      var init, call := calls[..|calls| - 1], calls[|calls| - 1];
      assert calls == init + [call];
      AccountOfRun(root, r, init, id);
      var s := Run(root, r, init).room;
      if call.CallTick? && !s.finished && !Do(root, s, call).room.finished {
        TickKeepsAccount(root, r, init, call, id);
      } else {
        if call.CallTick? { TickSends(root, s, call.nowMs, call.finishMs); } else { OnlyTicksAnnounce(root, s, call); }
        Laws.CallTiming(root, s, call);
        SilentCallKeepsAccount(root, r, init, call, id);
      }
    }
  }

  /**
   In every run, in either mode, the messages a player has got are one for each tick in order, each as that
   tick left the room: its number, whether it was the opening one, and the players. While the battle lasts
   none is missing.
   */
  lemma MessagesRecountTicks(
      root: Root, roomId: int, id1: int, id2: int, mode: int, createdMs: int, calls: seq<Call>, id: int)
    requires id1 != id2 && (id == id1 || id == id2)
    ensures var r := NewRoom(roomId, id1, id2, mode, createdMs);
            var t := Run(root, r, calls);
            var got := MessagesTo(t.events, id);
            && (!t.room.finished ==> |got| == Laws.Ticks(calls))
            && (forall k :: 0 <= k < |got| ==> Recounts(root, r, calls, k, got[k], id))
  {
    AccountOfRun(root, NewRoom(roomId, id1, id2, mode, createdMs), calls, id);
  }

  lemma {:induction false} ArenaStaysBetweenTicks(root: Root, r: Room, calls: seq<Call>, n: nat)
    requires n <= |calls| && Laws.Ticks(calls[..n]) == Laws.Ticks(calls) && !Run(root, r, calls).room.finished
    ensures Run(root, r, calls[..n]).room.arena == Run(root, r, calls).room.arena
  {
    if n == |calls| {
      assert calls[..n] == calls;
    } else {
      var init, last := calls[..|calls| - 1], calls[|calls| - 1];
      assert init[..n] == calls[..n];
      TicksGrow(init, n);
      assert !last.CallTick?;
      Laws.CallTiming(root, Run(root, r, init).room, last);
      if last.CallQuit? { QuitLeaves(Run(root, r, init).room, last.player); }
      ArenaStaysBetweenTicks(root, r, init, n);
    }
  }

  lemma {:induction false} TicksGrow(calls: seq<Call>, n: nat)
    requires n <= |calls|
    ensures Laws.Ticks(calls[..n]) <= Laws.Ticks(calls)
  {
    if n == |calls| {
      assert calls[..n] == calls;
    } else {
      assert calls[..|calls| - 1][..n] == calls[..n];
      TicksGrow(calls[..|calls| - 1], n);
    }
  }

  lemma LastRecountIsCurrent(root: Root, r: Room, calls: seq<Call>, k: nat, e: Event, id: int)
    requires Recounts(root, r, calls, k, e, id) && Laws.Ticks(calls) == k + 1
    requires !Run(root, r, calls).room.finished && r.mode != 0
    ensures var s := Run(root, r, calls).room;
            e.PushSnapshot? && e.snap.tick == s.arena.tick && ShowsBoth(e.snap.entities, s.arena)
  {
    var n :| 0 <= n <= |calls| && Laws.Ticks(calls[..n]) == k + 1
             && Announces(e, id, Run(root, r, calls[..n]).room, k == 0)
             && Run(root, r, calls[..n]).room.arena.tick == k + 1;
    NamesStay(root, r, calls[..n]);
    ArenaStaysBetweenTicks(root, r, calls, n);
  }

  /** So in a state-sync battle under way the last snapshot each player has got shows both players as they are. */
  lemma LastSnapshotIsCurrent(
      root: Root, roomId: int, id1: int, id2: int, mode: int, createdMs: int, calls: seq<Call>, id: int)
    requires id1 != id2 && (id == id1 || id == id2) && mode != 0 && 0 < Laws.Ticks(calls)
    requires !Run(root, NewRoom(roomId, id1, id2, mode, createdMs), calls).room.finished
    ensures var t := Run(root, NewRoom(roomId, id1, id2, mode, createdMs), calls);
            var got := MessagesTo(t.events, id);
            && 0 < |got| && got[|got| - 1].PushSnapshot? && got[|got| - 1].snap.tick == t.room.arena.tick
            && ShowsBoth(got[|got| - 1].snap.entities, t.room.arena)
  {
    var r := NewRoom(roomId, id1, id2, mode, createdMs);
    MessagesRecountTicks(root, roomId, id1, id2, mode, createdMs, calls, id);
    var got := MessagesTo(Run(root, r, calls).events, id);
    LastRecountIsCurrent(root, r, calls, |got| - 1, got[|got| - 1], id);
  }
}
