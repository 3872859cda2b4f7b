/**
 What a tick decides, in either mode, read off the operations that wait for it. Who dies, who wins on time, what
 is left of everybody's health and where everybody goes follow from the room before and that list.
 */
module TickOutcome {
  import opened Options
  import opened Battle
  import opened OrderIndependence
  import opened Batches
  import W = Walk
  import D = Departures
  import B = Broadcasts
  import Laws = BattleLaws

  /** The hp that the waiting operations leave to side s: 10 less for an attack that hits, 25 for a skill. */
  function HpLeft(root: Root, r: Room, s: Side): int {
    r.arena.Get(s).hp - Damage(root, r.arena.(tick := r.arena.tick + 1), r.pending, s)
  }

  /** Side s has taken its last order to move, if it lives, and walked for one tick. */
  ghost predicate Walks(root: Root, r: Room, s: Side, g: Fighter) {
    var f := r.arena.Get(s);
    var h := if f.alive then Advance(root, W.Ordered(f, W.LastMove(r.pending, f.id))) else f;
    g.x == h.x && g.y == h.y && g.stepDx == h.stepDx && g.stepDy == h.stepDy && g.stepping == h.stepping
  }

  /** Side s has spent the cooldown of its first attack and of its first skill, if free. */
  ghost predicate Spends(root: Root, r: Room, s: Side, g: Fighter) {
    var f, a := r.arena.Get(s), r.arena.(tick := r.arena.tick + 1);
    && g.lastAtk == (if AttackReady(a, s) && FirstAttack(r.pending, f.id).Some? then a.tick else f.lastAtk)
    && g.lastSkill == (if SkillReady(a, s) && FirstSkill(r.pending, f.id).Some? then a.tick else f.lastSkill)
  }

  /** The section kills side s, who is alive with nothing left; of two such players it kills the first. */
  predicate Kills(root: Root, r: Room, s: Side) {
    && r.arena.Get(s).alive && HpLeft(root, r, s) <= 0
    && (s.Second? ==> !r.arena.p1.alive || 0 < HpLeft(root, r, First))
  }

  lemma SimulatedSide(root: Root, r: Room, s: Side)
    requires r.arena.p1.id != r.arena.p2.id
    ensures var f, g := r.arena.Get(s), Laws.Simulated(root, r).Get(s);
            && g.id == f.id && g.alive == f.alive && g.hp == HpLeft(root, r, s)
            && Walks(root, r, s, g) && Spends(root, r, s, g)
  {
    var a := r.arena.(tick := r.arena.tick + 1);
    var c := ApplyAll(root, a, r.pending);
    BatchHasEffect(root, a, r.pending);
    RecordsKeepStage(root, a, r.pending);
    Laws.AdvanceKeepsRecord(root, c.Get(s));
    if a.Get(s).alive {
      W.BatchMotion(root, a, r.pending, s);
      W.MotionDecidesAdvance(root, c.Get(s), W.Ordered(a.Get(s), W.LastMove(r.pending, a.Get(s).id)));
    } else {
      DeadAreLeftAlone(root, a, r.pending, s);
    }
  }

  /** A side after the section: buried if killed, otherwise with the hp that is left. */
  ghost predicate SideAfter(root: Root, r: Room, s: Side, g: Fighter) {
    && g.id == r.arena.Get(s).id && g.alive == (r.arena.Get(s).alive && !Kills(root, r, s))
    && g.hp == (if Kills(root, r, s) then 0 else HpLeft(root, r, s))
    && Walks(root, r, s, g) && Spends(root, r, s, g)
  }

  /** What is decided: a kill before the time limit, the time limit before anything is sent. */
  ghost predicate Decides(root: Root, r: Room, nowMs: int, outcome: Outcome) {
    var id1, id2, h1, h2 := r.arena.p1.id, r.arena.p2.id, HpLeft(root, r, First), HpLeft(root, r, Second);
    if Kills(root, r, First) then outcome == Settle(id2, id1, Kill)
    else if Kills(root, r, Second) then outcome == Settle(id1, id2, Kill)
    else if 60000 < nowMs - r.createdMs then
      outcome == if h2 < h1 then Settle(id1, id2, Timeout) else if h1 < h2 then Settle(id2, id1, Timeout)
        else Settle(0, 0, Draw)
    else outcome.Broadcast?
  }

  lemma WhoIsKilled(root: Root, r: Room)
    requires r.arena.p1.id != r.arena.p2.id
    ensures FirstDead(Laws.Simulated(root, r)) ==
            if Kills(root, r, First) then Some(First) else if Kills(root, r, Second) then Some(Second) else None
  {
    SimulatedSide(root, r, First);
    SimulatedSide(root, r, Second);
  }

  lemma TickIsJudged(root: Root, r: Room, nowMs: int)
    requires r.started && !r.finished
    ensures TickSection(root, r, nowMs) == Judge(Consumed(root, r).(arena := Laws.Simulated(root, r)), nowMs)
  {
  }

  /** The part of a tick under the mutex, for any room in which the battle is on, whoever is already dead. */
  lemma SectionDecides(root: Root, r: Room, nowMs: int)
    requires r.arena.p1.id != r.arena.p2.id && r.started && !r.finished
    ensures var sec := TickSection(root, r, nowMs);
            && Decides(root, r, nowMs, sec.outcome)
            && SideAfter(root, r, First, sec.room.arena.p1) && SideAfter(root, r, Second, sec.room.arena.p2)
            && sec.room.arena.tick == r.arena.tick + 1
            && sec.room == r.(arena := sec.room.arena, pending := [], frameOps := sec.room.frameOps)
  {
    SimulatedSide(root, r, First);
    SimulatedSide(root, r, Second);
    WhoIsKilled(root, r);
    TickIsJudged(root, r, nowMs);
    RecordsKeepStage(root, r.arena.(tick := r.arena.tick + 1), r.pending);
  }

  /* ---------- in a run ---------- */

  /** What the two players have submitted since the last tick, in order. */
  function Waiting(calls: seq<Call>, id1: int, id2: int): seq<OpRecord> {
    if calls == [] then []
    else
      var init, last := calls[..|calls| - 1], calls[|calls| - 1];
      match last
      case CallTick(_, _) => []
      case CallQuit(_, _) => Waiting(init, id1, id2)
      case CallSubmit(player, op) =>
        Waiting(init, id1, id2) + if player == id1 || player == id2 then [OpRecord(player, op)] else []
  }

  lemma CallKeepsQueue(root: Root, r: Room, call: Call)
    requires !Do(root, r, call).room.finished
    ensures Do(root, r, call).room.pending ==
            match call
            case CallTick(_, _) => []
            case CallQuit(_, _) => r.pending
            case CallSubmit(player, op) =>
              r.pending + if player == r.arena.p1.id || player == r.arena.p2.id then [OpRecord(player, op)] else []
  {
    assert r.pending + [] == r.pending;
  }

  /** The queue of an unfinished room of any mode is what its players have submitted since the last tick. */
  lemma {:induction false} QueueIsWhatWaits(root: Root, r: Room, calls: seq<Call>)
    requires r.pending == [] && !Run(root, r, calls).room.finished
    ensures Run(root, r, calls).room.pending == Waiting(calls, r.arena.p1.id, r.arena.p2.id)
  {
    if calls != [] {
      var init, last := calls[..|calls| - 1], calls[|calls| - 1];
      var s := Run(root, r, init).room;
      Laws.CallTiming(root, s, last);
      QueueIsWhatWaits(root, r, init);
      D.NamesStay(root, r, init);
      CallKeepsQueue(root, s, last);
    }
  }

  /** The room is settled with this verdict. */
  ghost predicate Over(t: Room, winner: int, loser: int, reason: Reason, clock: int) {
    t.finished && t.winner == winner && t.loser == loser && t.reason == reason && t.finishMs == clock
  }

  /**
   A tick of a battle under way, in every run of atomic calls and in either mode. A player dies exactly if what
   waits leaves it no hp, the first player before the second. Otherwise the battle ends exactly if 60 s are over,
   by hp, and a tie is a draw. Otherwise it goes on. Health, motion and cooldowns afterwards are as computed
   from what the players have submitted since the last tick.
   */
  lemma TickDecides(
      root: Root, roomId: int, id1: int, id2: int, mode: int, createdMs: int, calls: seq<Call>, nowMs: int, clock: int)
    requires id1 != id2 && 0 < Laws.Ticks(calls)
    requires !Run(root, NewRoom(roomId, id1, id2, mode, createdMs), calls).room.finished
    ensures var r := Run(root, NewRoom(roomId, id1, id2, mode, createdMs), calls).room;
            var t := Do(root, r, CallTick(nowMs, clock)).room;
            var h1, h2 := HpLeft(root, r, First), HpLeft(root, r, Second);
            && r.pending == Waiting(calls, id1, id2)
            && SideAfter(root, r, First, t.arena.p1) && SideAfter(root, r, Second, t.arena.p2)
            && t.arena.tick == r.arena.tick + 1 && t.pending == []
            && if h1 <= 0 then Over(t, id2, id1, Kill, clock)
               else if h2 <= 0 then Over(t, id1, id2, Kill, clock)
               else if 60000 < nowMs - createdMs then
                 if h2 < h1 then Over(t, id1, id2, Timeout, clock)
                 else if h1 < h2 then Over(t, id2, id1, Timeout, clock)
                 else Over(t, 0, 0, Draw, clock)
               else !t.finished
  {
    var start := NewRoom(roomId, id1, id2, mode, createdMs);
    var r := Run(root, start, calls).room;
    Laws.RunIsSound(root, start, calls);
    D.NamesStay(root, start, calls);
    QueueIsWhatWaits(root, start, calls);
    StartedByTicks(root, start, calls);
    SectionDecides(root, r, nowMs);
  }

  lemma {:induction false} StartedByTicks(root: Root, r: Room, calls: seq<Call>)
    requires !Run(root, r, calls).room.finished && 0 < Laws.Ticks(calls)
    ensures Run(root, r, calls).room.started
  {
    var init, last := calls[..|calls| - 1], calls[|calls| - 1];
    Laws.CallTiming(root, Run(root, r, init).room, last);
    if !last.CallTick? { StartedByTicks(root, r, init); }
  }

  lemma BeforeTheOpening(root: Root, r: Room, calls: seq<Call>)
    requires Laws.Ticks(calls) == 0 && !Run(root, r, calls).room.finished
    ensures Run(root, r, calls).room.arena == r.arena
  {
    assert calls[..0] == [] && Laws.Ticks([]) == 0;
    B.ArenaStaysBetweenTicks(root, r, calls, 0);
    assert Run(root, r, []).room == r;
  }

  /** A side after the opening tick: at its spawn point, unhurt, with its last order to move. */
  ghost predicate Opens(f: Fighter, id: int, x: real, y: real, order: Option<Op>) {
    && f.id == id && f.x == x && f.y == y && f.hp == 100 && f.alive
    && f.lastAtk == 0 && f.lastSkill == 0 && f.score == 0
    && if order.Some? && order.value.Move?
       then f.stepDx == 2.0 * order.value.dx && f.stepDy == 4.0 * order.value.dy && f.stepping
       else f.stepDx == 0.0 && f.stepDy == 0.0 && !f.stepping
  }

  /** The first tick of every run, in either mode, opens the battle, whatever has been submitted before. */
  lemma OpeningDecides(
      root: Root, roomId: int, id1: int, id2: int, mode: int, createdMs: int, calls: seq<Call>, nowMs: int, clock: int)
    requires id1 != id2 && Laws.Ticks(calls) == 0
    requires !Run(root, NewRoom(roomId, id1, id2, mode, createdMs), calls).room.finished
    ensures var r := Run(root, NewRoom(roomId, id1, id2, mode, createdMs), calls).room;
            var t := Do(root, r, CallTick(nowMs, clock)).room;
            var queue := Waiting(calls, id1, id2);
            && t.started && !t.finished && t.arena.tick == 1 && t.pending == []
            && Opens(t.arena.p1, id1, 20.0, 20.0, W.LastMove(queue, id1))
            && Opens(t.arena.p2, id2, 80.0, 80.0, W.LastMove(queue, id2))
  {
    var start := NewRoom(roomId, id1, id2, mode, createdMs);
    var r := Run(root, start, calls).room;
    BeforeTheOpening(root, start, calls);
    QueueIsWhatWaits(root, start, calls);
    B.Clockwork(root, start, calls);
    var a := start.arena.(tick := 1);
    Laws.OpeningRecordsHitNobody(root, a, r.pending);
    W.BatchMotion(root, a, r.pending, First);
    W.BatchMotion(root, a, r.pending, Second);
    var c := ApplyAll(root, a, r.pending);
    assert c.p1 == c.Get(First) && c.p2 == c.Get(Second);
  }
}
