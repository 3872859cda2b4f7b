/**
 What the players are told at the end. Under any interleaving each player whose id is not 0 gets one result
 message, the first player before the second, with the room's own id and verdict and the seconds it lasted.
 */
module Results {
  import opened Battle
  import opened OrderIndependence
  import opened Settlement

  /** The result messages of a log, in order. */
  function ResultsOf(log: seq<Event>): seq<Event> {
    if log == [] then []
    else ResultsOf(log[..|log| - 1]) + if log[|log| - 1].PushResult? then [log[|log| - 1]] else []
  }

  lemma ResultsOneMore(log: seq<Event>, e: Event)
    ensures ResultsOf(log + [e]) == ResultsOf(log) + if e.PushResult? then [e] else []
  {
    assert (log + [e])[..|log|] == log;
  }

  lemma {:induction false} ResultsAreSettled(log: seq<Event>)
    ensures ResultsOf(log) == ResultsOf(Settled(log))
  {
    if log != [] {
      var init, last := log[..|log| - 1], log[|log| - 1];
      ResultsAreSettled(init);
      ResultsOneMore(Settled(init), last);
      assert Settled(init) + [] == Settled(init);
    }
  }

  lemma {:induction false} ResultsOfPrefix(events: seq<Event>, n: nat)
    requires n <= |events|
    ensures ResultsOf(events[..n]) <= ResultsOf(events)
  {
    if n < |events| {
      ResultsOfPrefix(events[..|events| - 1], n);
      assert events[..|events| - 1][..n] == events[..n];
    } else {
      assert events[..n] == events;
    }
  }

  lemma {:induction false} ResultsConcat(events: seq<Event>, more: seq<Event>)
    ensures ResultsOf(events + more) == ResultsOf(events) + ResultsOf(more)
  {
    if more == [] {
      assert events + more == events;
    } else {
      var init, last := more[..|more| - 1], more[|more| - 1];
      assert events + more == (events + init) + [last];
      ResultsConcat(events, init);
      ResultsOneMore(events + init, last);
    }
  }

  lemma ResultsOfOne(e: Event)
    ensures ResultsOf([e]) == if e.PushResult? then [e] else []
  {
    assert [e][..0] == [];
  }

  /** Who is to be told, in this order. */
  function ToTell(id1: int, id2: int): seq<int> {
    (if id1 != 0 then [id1] else []) + (if id2 != 0 then [id2] else [])
  }

  /** q is ms / 1000, cut off toward zero. */
  predicate Truncates(ms: int, q: int) {
    if 0 <= ms then 1000 * q <= ms < 1000 * q + 1000 else 1000 * q - 1000 < ms <= 1000 * q
  }

  /** The number of full seconds as a 32-bit number. */
  ghost predicate Lasted(ms: int, seconds: int) {
    && -0x8000_0000 <= seconds < 0x8000_0000
    && (forall q: int :: Truncates(ms, q) ==> (seconds - q) % 0x1_0000_0000 == 0)
    && (0 <= ms < 1000 * 0x8000_0000 ==> seconds == ms / 1000)
  }

  /** The message says what the room says. */
  ghost predicate Says(e: Event, r: Room) {
    && e.PushResult? && e.result.roomId == r.roomId
    && e.result.winner == r.winner && e.result.loser == r.loser && e.result.reason == r.reason
    && Lasted(r.finishMs - r.createdMs, e.result.durationS)
  }

  /** These are the result messages of the room for these players, as far as they go. */
  ghost predicate Told(sent: seq<Event>, r: Room, players: seq<int>) {
    |sent| <= |players| && forall k :: 0 <= k < |sent| ==> Says(sent[k], r) && sent[k].to == players[k]
  }

  lemma DurationIsRight(ms: int)
    ensures Lasted(ms, ToInt32(TruncDiv(ms, 1000)))
  {
    forall q: int | Truncates(ms, q) ensures q == TruncDiv(ms, 1000) {
    }
    WrapIsCongruent(TruncDiv(ms, 1000));
  }

  lemma WrapIsCongruent(n: int)
    ensures (ToInt32(n) - n) % 0x1_0000_0000 == 0 && -0x8000_0000 <= ToInt32(n) < 0x8000_0000
    ensures -0x8000_0000 <= n < 0x8000_0000 ==> ToInt32(n) == n
  {
    var m := n + 0x8000_0000;
    assert m == m / 0x1_0000_0000 * 0x1_0000_0000 + m % 0x1_0000_0000;
    MultipleLeavesNothing(-(m / 0x1_0000_0000));
  }

  lemma MultipleLeavesNothing(k: int)
    ensures (k * 0x1_0000_0000) % 0x1_0000_0000 == 0
  {
  }

  lemma ResultsOfPush(id: int, result: BattleResult)
    ensures ResultsOf(PushTo(id, result)) == PushTo(id, result)
  {
    if id != 0 { ResultsOfOne(PushResult(id, result)); }
  }

  lemma ScoresAreNoResults(winner: int, loser: int)
    ensures ResultsOf(ScoreEvents(winner, loser)) == []
  {
    if winner != 0 {
      var a, b := SubmitScore(winner, WIN_SCORE), SubmitScore(loser, LOSE_SCORE);
      ResultsOfOne(a);
      ResultsOneMore([a], b);
      assert [a] + [b] == [a, b];
    }
  }

  lemma PushSays(r: Room, id: int)
    ensures forall k :: 0 <= k < |PushTo(id, ResultOf(r))| ==> Says(PushTo(id, ResultOf(r))[k], r)
    ensures id != 0 ==> PushTo(id, ResultOf(r)) == [PushResult(id, ResultOf(r))]
  {
    DurationIsRight(r.finishMs - r.createdMs);
  }

  lemma ResultsOfSettlement(r: Room)
    ensures ResultsOf(ResultEvents(r)) == PushTo(r.arena.p1.id, ResultOf(r)) + PushTo(r.arena.p2.id, ResultOf(r))
  {
    var scores := ScoreEvents(r.winner, r.loser);
    var to1, to2 := PushTo(r.arena.p1.id, ResultOf(r)), PushTo(r.arena.p2.id, ResultOf(r));
    ScoresAreNoResults(r.winner, r.loser);
    ResultsOfPush(r.arena.p1.id, ResultOf(r));
    ResultsOfPush(r.arena.p2.id, ResultOf(r));
    ResultsConcat(scores, to1);
    ResultsConcat(scores + to1, to2);
    assert [] + to1 == to1;
  }

  lemma ToldBoth(r: Room, all: seq<Event>, to1: seq<Event>, to2: seq<Event>, id1: int, id2: int)
    requires all == to1 + to2 && |to1| == (if id1 != 0 then 1 else 0) && |to2| == (if id2 != 0 then 1 else 0)
    requires forall k :: 0 <= k < |to1| ==> Says(to1[k], r) && to1[k].to == id1
    requires forall k :: 0 <= k < |to2| ==> Says(to2[k], r) && to2[k].to == id2
    ensures Told(all, r, ToTell(id1, id2)) && |all| == |ToTell(id1, id2)|
  {
    forall k | 0 <= k < |all| ensures Says(all[k], r) && all[k].to == ToTell(id1, id2)[k] {
      assert all[k] == if k < |to1| then to1[k] else to2[k - |to1|];
    }
  }

  lemma WholeSettlement(r: Room)
    ensures var all := ResultsOf(ResultEvents(r));
            Told(all, r, ToTell(r.arena.p1.id, r.arena.p2.id)) && |all| == |ToTell(r.arena.p1.id, r.arena.p2.id)|
  {
    var id1, id2 := r.arena.p1.id, r.arena.p2.id;
    ResultsOfSettlement(r);
    PushSays(r, id1);
    PushSays(r, id2);
    ToldBoth(r, ResultsOf(ResultEvents(r)), PushTo(id1, ResultOf(r)), PushTo(id2, ResultOf(r)), id1, id2);
  }

  /* ---------- over a run ---------- */

  lemma ActKeepsNames(root: Root, sys: System, act: Action)
    ensures var r, s := sys.room, Act(root, sys, act).room;
            && s.roomId == r.roomId && s.createdMs == r.createdMs
            && s.arena.p1.id == r.arena.p1.id && s.arena.p2.id == r.arena.p2.id
  {
    ActIsLater(root, sys, act);
  }

  lemma {:induction false} RunKeepsNames(root: Root, sys: System, acts: seq<Action>)
    ensures var r, s := sys.room, Exec(root, sys, acts).room;
            && s.roomId == r.roomId && s.createdMs == r.createdMs
            && s.arena.p1.id == r.arena.p1.id && s.arena.p2.id == r.arena.p2.id
  {
    if acts != [] {
      RunKeepsNames(root, sys, acts[..|acts| - 1]);
      ActKeepsNames(root, Exec(root, sys, acts[..|acts| - 1]), acts[|acts| - 1]);
    }
  }

  /**
   Whatever the interleaving, the result messages sent are an initial part of one to the first player and one
   to the second, left out for an id of 0, and all of them once the room is finished and no thread is under
   way. Each has this room's id, its winner, loser and reason, and the full seconds from creation to the end.
   */
  lemma PlayersAreTold(root: Root, roomId: int, id1: int, id2: int, mode: int, createdMs: int, acts: seq<Action>)
    ensures var sys := Exec(root, Idle(NewRoom(roomId, id1, id2, mode, createdMs)), acts);
            var sent := ResultsOf(sys.log);
            && sys.room.roomId == roomId && sys.room.createdMs == createdMs
            && Told(sent, sys.room, ToTell(id1, id2)) && (!sys.room.finished ==> sent == [])
            && (sys.room.finished && sys.threads == map[] ==> |sent| == |ToTell(id1, id2)|)
  {
    var start := Idle(NewRoom(roomId, id1, id2, mode, createdMs));
    var sys := Exec(root, start, acts);
    SettledExactlyOnce(root, roomId, id1, id2, mode, createdMs, acts);
    RunKeepsNames(root, start, acts);
    ResultsAreSettled(sys.log);
    WholeSettlement(sys.room);
    var part := Settled(sys.log);
    if sys.room.finished {
      ResultsOfPrefix(ResultEvents(sys.room), |part|);
      assert ResultEvents(sys.room)[..|part|] == part;
    }
  }

  /** The time of the end is the clock reading of the one step that got through finish. */
  lemma {:induction false} EndIsTimed(root: Root, sys: System, acts: seq<Action>) returns (k: nat)
    requires !sys.room.finished && Exec(root, sys, acts).room.finished
    ensures k < |acts| && SettlesNow(root, Exec(root, sys, acts[..k]), acts[k])
    ensures Exec(root, sys, acts).room.finishMs == acts[k].clock
  {
    var init, act := acts[..|acts| - 1], acts[|acts| - 1];
    var s := Exec(root, sys, init);
    SettlingFinishes(root, s, act);
    if s.room.finished {
      ActIsLater(root, s, act);
      k := EndIsTimed(root, sys, init);
      assert init[..k] == acts[..k] && init[k] == acts[k];
    } else {
      k := |init|;
      assert acts[..k] == init;
    }
  }
}
