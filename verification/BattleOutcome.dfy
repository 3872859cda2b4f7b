/**
 What a battle's events mean: when a hit lands, where the players start, and who deserves to win.
 Calls are atomic here; module Settlement shows what other interleavings add.
 */
module BattleOutcome {
  import opened Battle
  import Laws = BattleLaws

  /* ---------- hits ---------- */

  lemma SquareIsMonotone(v: real, w: real)
    requires 0.0 <= v && 0.0 <= w
    ensures v * v <= w * w <==> v <= w
  {
    assert w * w - v * v == (w - v) * (w + v);
    if v <= w {
      assert 0.0 <= (w - v) * (w + v);
    } else {
      assert 0.0 < v - w && 0.0 < w + v && 0.0 < (v - w) * (w + v);
      assert (w - v) * (w + v) == -((v - w) * (w + v));
    }
  }

  /** Distances may be compared by their squares. */
  lemma WithinRange(root: Root, x1: real, y1: real, x2: real, y2: real, range: real)
    requires IsSqrt(root) && 0.0 <= range
    ensures Distance(root, x1, y1, x2, y2) <= range <==> DistSq(x1, y1, x2, y2) <= range * range
  {
    var dx, dy := x1 - x2, y1 - y2;
    assert 0.0 <= dx * dx && 0.0 <= dy * dy;
    var v := DistSq(x1, y1, x2, y2);
    assert 0.0 <= root(v) && root(v) * root(v) == v;
    SquareIsMonotone(Distance(root, x1, y1, x2, y2), range);
  }

  /** The target is somebody alive, and no further away than the root of rangeSq. */
  predicate InReach(a: Arena, s: Side, target: int, rangeSq: real) {
    a.Find(target).Some?
    && var p, t := a.Get(s), a.Get(a.Find(target).value);
       t.alive && DistSq(p.x, p.y, t.x, t.y) <= rangeSq
  }

  /** a after a hit by s: the target's hp and the attacker's score, who may be one and the same. */
  function Hurt(a: Arena, s: Side, target: Side, damage: int, points: int): Arena {
    a.(p1 := a.p1.(hp := a.p1.hp - (if target.First? then damage else 0),
                   score := a.p1.score + (if s.First? then points else 0)),
       p2 := a.p2.(hp := a.p2.hp - (if target.Second? then damage else 0),
                   score := a.p2.score + (if s.Second? then points else 0)))
  }

  /** What an operation with a free cooldown comes to: a hit if the target is in reach, otherwise nothing. */
  function Resolved(a: Arena, s: Side, target: int, rangeSq: real, damage: int, points: int): Arena {
    if InReach(a, s, target, rangeSq) then Hurt(a, s, a.Find(target).value, damage, points) else a
  }

  lemma StrikeLands(root: Root, a: Arena, s: Side, target: int, range: real, damage: int, points: int)
    requires IsSqrt(root) && 0.0 <= range
    ensures Strike(root, a, s, target, range, damage, points) == Resolved(a, s, target, range * range, damage, points)
  {
    if a.Find(target).Some? {
      var p, t := a.Get(s), a.Get(a.Find(target).value);
      WithinRange(root, p.x, p.y, t.x, t.y, range);
    }
  }

  /**
   An attack does something exactly when 10 ticks have passed since the last one. Then the cooldown is
   spent, and it lands exactly when a living target stands within 8: 10 off its hp and 2 on the score.
   Nothing else in the arena changes.
   */
  lemma AttackLands(root: Root, a: Arena, s: Side, target: int)
    requires IsSqrt(root)
    ensures ApplyOp(root, a, s, Atk(target)) ==
            if a.tick - a.Get(s).lastAtk < 10 then a
            else Resolved(a.Put(s, a.Get(s).(lastAtk := a.tick)), s, target, 64.0, 10, 2)
  {
    StrikeLands(root, a.Put(s, a.Get(s).(lastAtk := a.tick)), s, target, ATK_RANGE, ATK_DAMAGE, ATK_SCORE);
    assert ATK_RANGE * ATK_RANGE == 64.0;
  }

  /** A skill: 40 ticks, within 15, 25 hp and 5 points. */
  lemma SkillLands(root: Root, a: Arena, s: Side, target: int)
    requires IsSqrt(root)
    ensures ApplyOp(root, a, s, Skill(target)) ==
            if a.tick - a.Get(s).lastSkill < 40 then a
            else Resolved(a.Put(s, a.Get(s).(lastSkill := a.tick)), s, target, 225.0, 25, 5)
  {
    StrikeLands(root, a.Put(s, a.Get(s).(lastSkill := a.tick)), s, target, SKILL_RANGE, SKILL_DAMAGE, SKILL_SCORE);
    assert SKILL_RANGE * SKILL_RANGE == 225.0;
  }

  /* ---------- the start ---------- */

  ghost predicate AtSpawn(a: Arena) {
    a.p1.x == 20.0 && a.p1.y == 20.0 && a.p2.x == 80.0 && a.p2.y == 80.0
  }

  ghost predicate OpensAtSpawn(r: Room) {
    Laws.Sound(r) && (r.started ==> 1 <= r.arena.tick) && (r.started && r.arena.tick == 1 ==> AtSpawn(r.arena))
  }

  lemma CallKeepsSpawn(root: Root, r: Room, call: Call)
    requires OpensAtSpawn(r)
    ensures OpensAtSpawn(Do(root, r, call).room)
  {
    Laws.CallKeepsSound(root, r, call);
    Laws.CallTiming(root, r, call);
  }

  lemma {:induction false} RunKeepsSpawn(root: Root, r: Room, calls: seq<Call>)
    requires OpensAtSpawn(r)
    ensures OpensAtSpawn(Run(root, r, calls).room)
  {
    if calls != [] {
      RunKeepsSpawn(root, r, calls[..|calls| - 1]);
      CallKeepsSpawn(root, Run(root, r, calls[..|calls| - 1]).room, calls[|calls| - 1]);
    }
  }

  /** Whatever was submitted before, the battle starts at (20, 20) and (80, 80) with nobody hurt. */
  lemma BattleStartsAtSpawn(root: Root, roomId: int, id1: int, id2: int, mode: int, createdMs: int, calls: seq<Call>)
    ensures var r := Run(root, NewRoom(roomId, id1, id2, mode, createdMs), calls).room;
            r.started && r.arena.tick == 1 && !r.finished ==>
              && AtSpawn(r.arena) && r.arena.p1.hp == 100 && r.arena.p2.hp == 100
              && r.arena.p1.score == 0 && r.arena.p2.score == 0
  {
    RunKeepsSpawn(root, NewRoom(roomId, id1, id2, mode, createdMs), calls);
    var r := Run(root, NewRoom(roomId, id1, id2, mode, createdMs), calls).room;
    if r.started && r.arena.tick == 1 && !r.finished {
      Laws.ScoreIsBounded(r.arena.p1, 1);
      Laws.ScoreIsBounded(r.arena.p2, 1);
    }
  }

  /* ---------- the end ---------- */

  /** Side s has won, and deserves it. A tie of deaths goes against the first player. */
  ghost predicate WonBy(r: Room, s: Side) {
    var w, l := r.arena.Get(s), r.arena.Get(s.Other());
    && r.winner == w.id && r.loser == l.id && w.alive
    && match r.reason
       case Kill => !l.alive && l.hp == 0 && (w.hp <= 0 ==> s == Second)
       case Timeout => l.alive && 1 <= l.hp < w.hp
       case OpponentLeft => !l.alive && l.hp == 0 && 1 <= w.hp
       case _ => false
  }

  ghost predicate Drawn(r: Room) {
    && r.winner == 0 && r.loser == 0 && r.reason == Draw
    && r.arena.p1.alive && r.arena.p2.alive && 1 <= r.arena.p1.hp == r.arena.p2.hp
  }

  ghost predicate FairResult(r: Room) {
    r.finished ==> WonBy(r, First) || WonBy(r, Second) || Drawn(r)
  }

  lemma JudgementIsDeserved(c: Room, nowMs: int, finishMs: int)
    requires !c.finished && c.arena.p1.alive && c.arena.p2.alive
    ensures FairResult(Conclude(Judge(c, nowMs), finishMs).room)
  {
    var r := Conclude(Judge(c, nowMs), finishMs).room;
    if r.finished {
      if c.arena.p1.hp <= 0 {
        assert WonBy(r, Second);
      } else if c.arena.p2.hp <= 0 {
        assert WonBy(r, First);
      } else if c.arena.p1.hp > c.arena.p2.hp {
        assert WonBy(r, First);
      } else if c.arena.p1.hp < c.arena.p2.hp {
        assert WonBy(r, Second);
      } else {
        assert Drawn(r);
      }
    }
  }

  lemma QuitIsDeserved(r: Room, player: int, finishMs: int)
    requires Laws.Sound(r) && FairResult(r)
    ensures FairResult(OnPlayerQuit(r, player, finishMs).room)
  {
    var t := OnPlayerQuit(r, player, finishMs).room;
    if !r.finished && r.arena.Find(player).Some? {
      assert WonBy(t, r.arena.Find(player).value.Other());
    }
  }

  lemma CallIsDeserved(root: Root, r: Room, call: Call)
    requires Laws.Sound(r) && FairResult(r)
    ensures FairResult(Do(root, r, call).room)
  {
    match call
    case CallTick(nowMs, finishMs) =>
      if !r.finished && r.started {
        Laws.SimulatedKeeps(root, r);
        JudgementIsDeserved(Consumed(root, r).(arena := Laws.Simulated(root, r)), nowMs, finishMs);
      }
    case CallQuit(player, finishMs) => QuitIsDeserved(r, player, finishMs);
    case CallSubmit(_, _) =>
  }

  lemma {:induction false} RunIsDeserved(root: Root, r: Room, calls: seq<Call>)
    requires Laws.Sound(r) && FairResult(r)
    ensures FairResult(Run(root, r, calls).room)
  {
    if calls != [] {
      RunIsDeserved(root, r, calls[..|calls| - 1]);
      Laws.RunIsSound(root, r, calls[..|calls| - 1]);
      CallIsDeserved(root, Run(root, r, calls[..|calls| - 1]).room, calls[|calls| - 1]);
    }
  }

  /**
   With atomic calls every result is deserved. The winner is alive; a kill or a departure leaves the
   loser dead at 0 hp; on time the winner has more hp and both live; a draw is a tie of two living
   players. Both players down in the same tick makes the second one win.
   */
  lemma ResultIsDeserved(root: Root, roomId: int, id1: int, id2: int, mode: int, createdMs: int, calls: seq<Call>)
    ensures FairResult(Run(root, NewRoom(roomId, id1, id2, mode, createdMs), calls).room)
  {
    RunIsDeserved(root, NewRoom(roomId, id1, id2, mode, createdMs), calls);
  }

  /** No tick reads a clock past the time limit. */
  ghost predicate InTime(calls: seq<Call>, createdMs: int) {
    forall k :: 0 <= k < |calls| && calls[k].CallTick? ==> calls[k].nowMs <= createdMs + 60000
  }

  ghost predicate NotByClock(r: Room) {
    r.finished ==> r.reason != Timeout && r.reason != Draw
  }

  lemma CallInTime(root: Root, r: Room, call: Call)
    requires NotByClock(r) && (call.CallTick? ==> call.nowMs <= r.createdMs + 60000)
    ensures NotByClock(Do(root, r, call).room)
  {
  }

  /** Before 60 seconds are over no battle ends by the clock. */
  lemma {:induction false} NoEarlyTimeout(
      root: Root, roomId: int, id1: int, id2: int, mode: int, createdMs: int, calls: seq<Call>)
    requires InTime(calls, createdMs)
    ensures var r := Run(root, NewRoom(roomId, id1, id2, mode, createdMs), calls).room;
            NotByClock(r) && r.createdMs == createdMs
  {
    if calls != [] {
      var init, last := calls[..|calls| - 1], calls[|calls| - 1];
      assert InTime(init, createdMs) && (last.CallTick? ==> last.nowMs <= createdMs + 60000) by {
        assert forall k :: 0 <= k < |init| ==> init[k] == calls[k];
        assert calls[|calls| - 1] == last;
      }
      NoEarlyTimeout(root, roomId, id1, id2, mode, createdMs, init);
      var t := Run(root, NewRoom(roomId, id1, id2, mode, createdMs), init).room;
      CallInTime(root, t, last);
      Laws.CallTiming(root, t, last);
    }
  }
}
