/**
 The battle room as the source has it: objects whose methods update fields in place. Every method is
 proved to do exactly what the function of the same name in module Battle says, so what the other
 modules prove of those functions and of runs holds of these objects. LockedTick, LockedQuit and
 MarkFinished are the parts that run under the mutex, each without interference; module Settlement
 lets them interleave. Tick, OnPlayerQuit and Finish put the parts together for a lone caller.
 */
module RoomObjects {
  import opened Options
  import B = Battle

  /** Where a room sends frames, snapshots, scores and results. */
  class Sink {
    var log: seq<B.Event>

    constructor ()
      ensures log == []
    {
      log := [];
    }

    method Emit(e: B.Event)
      modifies this
      ensures log == old(log) + [e]
    {
      log := log + [e];
    }
  }

  class RoomPlayer {
    const playerId: int
    var x: real
    var y: real
    var hp: int
    var alive: bool
    var stepDx: real
    var stepDy: real
    var stepping: bool
    var lastAtkFrame: int
    var lastSkillFrame: int
    var score: int

    constructor (id: int)
      ensures View() == B.NewFighter(id)
    {
      playerId := id;
      x, y, hp, alive := 0.0, 0.0, B.MAX_HP, true;
      stepDx, stepDy, stepping := 0.0, 0.0, false;
      lastAtkFrame, lastSkillFrame, score := 0, 0, 0;
    }

    function View(): B.Fighter
      reads this
    {
      B.Fighter(playerId, x, y, hp, alive, stepDx, stepDy, stepping, lastAtkFrame, lastSkillFrame, score)
    }
  }

  class Room {
    const root: B.Root
    const sink: Sink
    const roomId: int
    const createdMs: int
    const mode: int
    const p1: RoomPlayer
    const p2: RoomPlayer
    var finishMs: int
    var tickCount: int
    var finished: bool
    var started: bool
    var winnerId: int
    var loserId: int
    var reason: B.Reason
    var pendingOps: seq<B.OpRecord>
    var frameOps: seq<B.OpRecord>

    constructor (root: B.Root, roomId: int, p1: RoomPlayer, p2: RoomPlayer, mode: int, sink: Sink, nowMs: int)
      requires p1 != p2
      ensures Valid()
      ensures this.root == root && this.sink == sink && this.p1 == p1 && this.p2 == p2
      ensures View() == B.NewRoom(roomId, p1.playerId, p2.playerId, mode, nowMs)
                         .(arena := B.Arena(0, p1.View(), p2.View()))
    {
      this.root, this.roomId, this.createdMs := root, roomId, nowMs;
      this.mode, this.p1, this.p2, this.sink := mode, p1, p2, sink;
      finishMs, tickCount, finished, started := 0, 0, false, false;
      winnerId, loserId, reason := 0, 0, B.NoReason;
      pendingOps, frameOps := [], [];
    }

    ghost predicate Valid()
      reads this
    {
      p1 != p2
    }

    function Arena(): B.Arena
      reads this, p1, p2
    {
      B.Arena(tickCount, p1.View(), p2.View())
    }

    function View(): B.Room
      reads this, p1, p2
    {
      B.Room(roomId, createdMs, finishMs, finished, started, mode, winnerId, loserId, reason,
             pendingOps, frameOps, Arena())
    }

    ghost function SideOf(p: RoomPlayer): B.Side
    {
      if p == p1 then B.First else B.Second
    }

    method FindPlayer(playerId: int) returns (p: RoomPlayer?)
      requires Valid()
      ensures p == null <==> Arena().Find(playerId) == None
      ensures p != null ==> (p == p1 || p == p2) && Arena().Find(playerId) == Some(SideOf(p))
    {
      if p1.playerId == playerId { return p1; }
      if p2.playerId == playerId { return p2; }
      return null;
    }

    method OtherPlayer(p: RoomPlayer) returns (q: RoomPlayer)
      requires Valid() && (p == p1 || p == p2)
      ensures (q == p1 || q == p2) && q != p
      ensures SideOf(q) == SideOf(p).Other()
    {
      return if p == p1 then p2 else p1;
    }

    method SubmitOp(playerId: int, op: B.Op)
      requires Valid()
      modifies this
      ensures Valid() && View() == B.SubmitOp(old(View()), playerId, op)
    {
      if finished { return; }
      var p := FindPlayer(playerId);
      if p == null { return; }
      pendingOps := pendingOps + [B.OpRecord(playerId, op)];
    }

    /** What OnPlayerQuit does before it lets go of the mutex. */
    method LockedQuit(playerId: int) returns (outcome: B.Outcome)
      requires Valid()
      modifies this, p1, p2
      ensures Valid() && B.Section(View(), outcome) == B.QuitSection(old(View()), playerId)
    {
      if finished { return B.Nothing; }
      var quit := FindPlayer(playerId);
      if quit == null || !quit.alive { return B.Nothing; }
      quit.alive := false;
      quit.hp := 0;
      var other := OtherPlayer(quit);
      outcome := B.Settle(other.playerId, quit.playerId, B.OpponentLeft);
    }

    method OnPlayerQuit(playerId: int, nowMs: int)
      requires Valid()
      modifies this, p1, p2, sink
      ensures Valid()
      ensures var t := B.OnPlayerQuit(old(View()), playerId, nowMs);
              View() == t.room && sink.log == old(sink.log) + t.events
    {
      var outcome := LockedQuit(playerId);
      Conclude(outcome, nowMs);
    }

    /** What is left of a call once the mutex is free. */
    method Conclude(outcome: B.Outcome, nowMs: int)
      requires Valid()
      modifies this, sink
      ensures Valid()
      ensures var t := B.Conclude(B.Section(old(View()), outcome), nowMs);
              View() == t.room && sink.log == old(sink.log) + t.events
    {
      match outcome
      case Nothing =>
      case Broadcast(events) =>
        for i := 0 to |events|
          invariant View() == old(View()) && sink.log == old(sink.log) + events[..i]
        {
          sink.Emit(events[i]);
          assert events[..i + 1] == events[..i] + [events[i]];
        }
        assert events[..|events|] == events;
      case Settle(winner, loser, why) => Finish(winner, loser, why, nowMs);
    }

    method Hit(p: RoomPlayer, targetId: int, range: real, damage: int, points: int)
      requires Valid() && (p == p1 || p == p2)
      modifies p1, p2
      ensures Arena() == B.Strike(root, old(Arena()), SideOf(p), targetId, range, damage, points)
    {
      var target := FindPlayer(targetId);
      if target == null || !target.alive { return; }
      if B.Distance(root, p.x, p.y, target.x, target.y) > range { return; }
      target.hp := target.hp - damage;
      p.score := p.score + points;
    }

    method ApplyOp(p: RoomPlayer, op: B.Op)
      requires Valid() && (p == p1 || p == p2)
      modifies p1, p2
      ensures Arena() == B.ApplyOp(root, old(Arena()), SideOf(p), op)
    {
      match op
      case Move(dx, dy) =>
        p.stepDx := dx * B.CELL_W;
        p.stepDy := dy * B.CELL_H;
        p.stepping := true;
      case Atk(targetId) =>
        if tickCount - p.lastAtkFrame < B.ATK_COOLDOWN_FRAMES { return; }
        p.lastAtkFrame := tickCount;
        Hit(p, targetId, B.ATK_RANGE, B.ATK_DAMAGE, B.ATK_SCORE);
      case Skill(targetId) =>
        if tickCount - p.lastSkillFrame < B.SKILL_COOLDOWN_FRAMES { return; }
        p.lastSkillFrame := tickCount;
        Hit(p, targetId, B.SKILL_RANGE, B.SKILL_DAMAGE, B.SKILL_SCORE);
      case Other =>
    }

    /** The locked part of finish, which only the first caller gets through. */
    method MarkFinished(winner: int, loser: int, why: B.Reason, nowMs: int) returns (first: bool)
      requires Valid()
      modifies this
      ensures Valid() && first == !old(finished)
      ensures View() == B.FinishRoom(old(View()), winner, loser, why, nowMs)
    {
      if finished { return false; }
      finished := true;
      finishMs := nowMs;
      winnerId := winner;
      loserId := loser;
      reason := why;
      first := true;
    }

    /** Idempotent; the result is pushed by the call that finished the room. */
    method Finish(winner: int, loser: int, why: B.Reason, nowMs: int)
      requires Valid()
      modifies this, sink
      ensures Valid()
      ensures var t := B.Finish(old(View()), winner, loser, why, nowMs);
              View() == t.room && sink.log == old(sink.log) + t.events
    {
      var first := MarkFinished(winner, loser, why, nowMs);
      if first { PushResult(); }
    }

    method PushResult()
      requires Valid()
      modifies sink
      ensures sink.log == old(sink.log) + B.ResultEvents(View())
    {
      var durationS := B.ToInt32(B.TruncDiv(finishMs - createdMs, 1000));
      if winnerId != 0 {
        sink.Emit(B.SubmitScore(winnerId, B.WIN_SCORE));
        sink.Emit(B.SubmitScore(loserId, B.LOSE_SCORE));
      }
      var result := B.BattleResult(roomId, winnerId, loserId, reason, durationS);
      if p1.playerId != 0 { sink.Emit(B.PushResult(p1.playerId, result)); }
      if p2.playerId != 0 { sink.Emit(B.PushResult(p2.playerId, result)); }
    }

    /** Step 1 of a tick: the pending records are applied in arrival order. */
    method ConsumeOps()
      requires Valid()
      modifies this`pendingOps, this`frameOps, p1, p2
      ensures View() == old(View()).(arena := B.ApplyAll(root, old(Arena()), old(pendingOps)),
                                     frameOps := B.Kept(root, old(Arena()), old(pendingOps)),
                                     pending := [])
    {
      frameOps := [];
      for i := 0 to |pendingOps|
        invariant pendingOps == old(pendingOps)
        invariant Arena() == B.ApplyAll(root, old(Arena()), pendingOps[..i])
        invariant frameOps == B.Kept(root, old(Arena()), pendingOps[..i])
      {
        var rec := pendingOps[i];
        assert pendingOps[..i + 1][..i] == pendingOps[..i];
        var p := FindPlayer(rec.player);
        if p != null && p.alive {
          ApplyOp(p, rec.op);
          frameOps := frameOps + [rec];
        }
      }
      assert pendingOps[..|pendingOps|] == old(pendingOps);
      pendingOps := [];
    }

    /** Step 3 of a tick, for one player: at most STEP of the remaining distance, the rest is carried over. */
    method AdvancePlayer(p: RoomPlayer)
      modifies p
      ensures p.View() == B.Advance(root, old(p.View()))
    {
      if p.alive && p.stepping {
        var remainX, remainY := p.stepDx, p.stepDy;
        var remain := B.Norm(root, remainX, remainY);
        if B.STEP >= remain {
          p.x := B.Clamp(p.x + remainX, 0.0, B.MAP_SIZE);
          p.y := B.Clamp(p.y + remainY, 0.0, B.MAP_SIZE);
          p.stepping := false;
        } else {
          var mx, my := B.Part(remainX, remain), B.Part(remainY, remain);
          p.x := B.Clamp(p.x + mx, 0.0, B.MAP_SIZE);
          p.y := B.Clamp(p.y + my, 0.0, B.MAP_SIZE);
          p.stepDx := p.stepDx - mx;
          p.stepDy := p.stepDy - my;
        }
      }
    }

    method MovePlayers()
      requires Valid()
      modifies p1, p2
      ensures Arena() == B.Walk(root, old(Arena()))
    {
      var ps := [p1, p2];
      for i := 0 to |ps|
        invariant p1.View() == if 0 < i then B.Advance(root, old(p1.View())) else old(p1.View())
        invariant p2.View() == if 1 < i then B.Advance(root, old(p2.View())) else old(p2.View())
      {
        AdvancePlayer(ps[i]);
      }
    }

    method FindDead() returns (dead: RoomPlayer?)
      requires Valid()
      ensures dead == null <==> B.FirstDead(Arena()) == None
      ensures dead != null ==> (dead == p1 || dead == p2) && B.FirstDead(Arena()) == Some(SideOf(dead))
    {
      var ps := [p1, p2];
      for i := 0 to |ps|
        invariant forall k :: 0 <= k < i ==> !(ps[k].alive && ps[k].hp <= 0)
      {
        assert i == 1 ==> !(ps[0].alive && ps[0].hp <= 0);
        if ps[i].alive && ps[i].hp <= 0 { return ps[i]; }
      }
      assert !(ps[0].alive && ps[0].hp <= 0) && !(ps[1].alive && ps[1].hp <= 0);
      return null;
    }

    /** The messages of a broadcast are made under the mutex and sent after it is free. */
    method MakeBroadcast(full: bool) returns (events: seq<B.Event>)
      requires Valid()
      ensures events == B.BroadcastEvents(View(), full)
    {
      if mode == 0 {
        var frame := B.BuildFrame(View(), full);
        events := [B.PushFrame(p1.playerId, frame), B.PushFrame(p2.playerId, frame)];
      } else {
        var snap := B.BuildSnapshot(View(), full);
        events := [B.PushSnapshot(p1.playerId, snap), B.PushSnapshot(p2.playerId, snap)];
      }
    }

    /** The opening tick: spawn points and the full broadcast. */
    method Open() returns (outcome: B.Outcome)
      requires Valid()
      modifies this`started, p1, p2
      ensures View() == B.Opened(old(View())) && outcome == B.Broadcast(B.BroadcastEvents(View(), true))
    {
      started := true;
      p1.x := B.SPAWN_OFFSET;
      p1.y := B.SPAWN_OFFSET;
      p2.x := B.MAP_SIZE - B.SPAWN_OFFSET;
      p2.y := B.MAP_SIZE - B.SPAWN_OFFSET;
      var events := MakeBroadcast(true);
      outcome := B.Broadcast(events);
    }

    /** Steps 4 to 6 of a tick: death, then the time limit, otherwise the frame goes out. */
    method Judge(nowMs: int) returns (outcome: B.Outcome)
      requires Valid()
      modifies p1, p2
      ensures B.Section(View(), outcome) == B.Judge(old(View()), nowMs)
    {
      var dead := FindDead();
      if dead != null {
        var other := OtherPlayer(dead);
        dead.alive := false;
        dead.hp := 0;
        assert Arena() == B.Bury(old(Arena()), SideOf(dead));
        return B.Settle(other.playerId, dead.playerId, B.Kill);
      }
      if nowMs - createdMs > B.TIMEOUT_MS {
        if p1.hp != p2.hp {
          if p1.hp > p2.hp {
            return B.Settle(p1.playerId, p2.playerId, B.Timeout);
          }
          return B.Settle(p2.playerId, p1.playerId, B.Timeout);
        }
        return B.Settle(0, 0, B.Draw);
      }
      var events := MakeBroadcast(false);
      outcome := B.Broadcast(events);
    }

    /** What Tick does before it lets go of the mutex. */
    method LockedTick(nowMs: int) returns (outcome: B.Outcome)
      requires Valid()
      modifies this, p1, p2
      ensures Valid() && B.Section(View(), outcome) == B.TickSection(root, old(View()), nowMs)
    {
      if finished { return B.Nothing; }
      tickCount := tickCount + 1;
      assert Arena() == old(Arena()).(tick := old(Arena()).tick + 1);
      ConsumeOps();
      assert View() == B.Consumed(root, old(View()));
      if !started {
        outcome := Open();
        return;
      }
      MovePlayers();
      outcome := Judge(nowMs);
    }

    method Tick(nowMs: int, finishNowMs: int)
      requires Valid()
      modifies this, p1, p2, sink
      ensures Valid()
      ensures var t := B.Tick(root, old(View()), nowMs, finishNowMs);
              View() == t.room && sink.log == old(sink.log) + t.events
    {
      var outcome := LockedTick(nowMs);
      Conclude(outcome, finishNowMs);
    }
  }
}
