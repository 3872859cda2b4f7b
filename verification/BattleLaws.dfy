/**
 What holds of a room in every run in which calls are atomic: health and score accounting, cooldown
 limits on the rate of damage, the map boundary, the time limit, and that a finished room stays as
 it is.
 */
module BattleLaws {
  import opened Battle
  import opened OrderIndependence

  /* ---------- accounting ---------- */

  /** Cooldown frames lie in the past, and the score is what so many cooldowns allow. */
  ghost predicate Accounted(f: Fighter, tick: int) {
    && 0 <= f.lastAtk <= tick && 0 <= f.lastSkill <= tick && f.hp <= MAX_HP
    && 0 <= f.score <= ATK_SCORE * (f.lastAtk / ATK_COOLDOWN_FRAMES)
       + SKILL_SCORE * (f.lastSkill / SKILL_COOLDOWN_FRAMES)
  }

  ghost predicate Balanced(a: Arena) {
    (MAX_HP - a.p1.hp) + (MAX_HP - a.p2.hp) == 5 * (a.p1.score + a.p2.score)
  }

  ghost predicate Books(a: Arena) {
    0 <= a.tick && Accounted(a.p1, a.tick) && Accounted(a.p2, a.tick) && Balanced(a)
  }

  /** A hit moves damage to the target and score to the attacker at the rate of five to one. */
  lemma StrikeBooks(root: Root, a: Arena, s: Side, target: int, range: real, damage: int, points: int)
    requires 0 <= points && damage == 5 * points
    ensures var b, o := Strike(root, a, s, target, range, damage, points), s.Other();
            && b.p1.hp + b.p2.hp + 5 * (b.p1.score + b.p2.score) == a.p1.hp + a.p2.hp + 5 * (a.p1.score + a.p2.score)
            && b.Get(s) == a.Get(s).(hp := b.Get(s).hp, score := b.Get(s).score)
            && b.Get(o) == a.Get(o).(hp := b.Get(o).hp)
            && a.Get(s).score <= b.Get(s).score <= a.Get(s).score + points
            && b.Get(s).hp <= a.Get(s).hp && b.Get(o).hp <= a.Get(o).hp
            && b.tick == a.tick
  {
  }

  /** Spending a cooldown and scoring at most what it pays keeps the books. */
  lemma SpendKeepsBooks(root: Root, a: Arena, s: Side, p: Fighter, target: int, range: real, damage: int, points: int)
    requires Books(a) && damage == 5 * points
    requires p == a.Get(s).(lastAtk := p.lastAtk, lastSkill := p.lastSkill)
    requires Accounted(p.(score := p.score + points), a.tick) && 0 <= points
    ensures Books(Strike(root, a.Put(s, p), s, target, range, damage, points))
  {
    StrikeBooks(root, a.Put(s, p), s, target, range, damage, points);
  }

  /** A cooldown that has run out pays for one more hit. */
  lemma CooldownsPay(p: Fighter, tick: int)
    requires Accounted(p, tick)
    ensures tick - p.lastAtk >= ATK_COOLDOWN_FRAMES ==>
            Accounted(p.(lastAtk := tick, score := p.score + ATK_SCORE), tick)
    ensures tick - p.lastSkill >= SKILL_COOLDOWN_FRAMES ==>
            Accounted(p.(lastSkill := tick, score := p.score + SKILL_SCORE), tick)
  {
    assert tick - p.lastAtk >= 10 ==> tick / 10 >= p.lastAtk / 10 + 1;
    assert tick - p.lastSkill >= 40 ==> tick / 40 >= p.lastSkill / 40 + 1;
  }

  lemma OpKeepsBooks(root: Root, a: Arena, s: Side, op: Op)
    requires Books(a)
    ensures Books(ApplyOp(root, a, s, op))
  {
    var p := a.Get(s);
    match op
    case Move(_, _) =>
    case Atk(target) =>
      if a.tick - p.lastAtk >= ATK_COOLDOWN_FRAMES {
        CooldownsPay(p, a.tick);
        SpendKeepsBooks(root, a, s, p.(lastAtk := a.tick), target, ATK_RANGE, ATK_DAMAGE, ATK_SCORE);
      }
    case Skill(target) =>
      if a.tick - p.lastSkill >= SKILL_COOLDOWN_FRAMES {
        CooldownsPay(p, a.tick);
        SpendKeepsBooks(root, a, s, p.(lastSkill := a.tick), target, SKILL_RANGE, SKILL_DAMAGE, SKILL_SCORE);
      }
    case Other =>
  }

  lemma {:induction false} RecordsKeepBooks(root: Root, a: Arena, recs: seq<OpRecord>)
    requires Books(a)
    ensures Books(ApplyAll(root, a, recs))
  {
    if recs != [] {
      var init, last := recs[..|recs| - 1], recs[|recs| - 1];
      RecordsKeepBooks(root, a, init);
      var b := ApplyAll(root, a, init);
      if Heard(b, last) { OpKeepsBooks(root, b, b.Find(last.player).value, last.op); }
    }
  }

  /* ---------- the map ---------- */

  ghost predicate InMap(f: Fighter) {
    0.0 <= f.x <= MAP_SIZE && 0.0 <= f.y <= MAP_SIZE
  }

  lemma AdvanceStaysInMap(root: Root, f: Fighter)
    requires InMap(f)
    ensures InMap(Advance(root, f))
  {
  }

  /** Walking changes position and steps only. */
  lemma AdvanceKeepsRecord(root: Root, f: Fighter)
    ensures var g := Advance(root, f);
            g == f.(x := g.x, y := g.y, stepDx := g.stepDx, stepDy := g.stepDy, stepping := g.stepping)
  {
  }

  lemma ClampIsShort(v: real, d: real)
    requires 0.0 <= v <= MAP_SIZE
    ensures var c := Clamp(v + d, 0.0, MAP_SIZE) - v; c * c <= d * d
  {
    var c := Clamp(v + d, 0.0, MAP_SIZE) - v;
    if 0.0 <= d {
      assert 0.0 <= c <= d;
      assert c * c <= c * d <= d * d;
    } else {
      assert d <= c <= 0.0;
      assert (-c) * (-c) <= (-c) * (-d) <= (-d) * (-d);
    }
  }

  /** The part of a step that one tick takes has length STEP. */
  lemma FractionLength(dx: real, dy: real, remain: real)
    requires STEP < remain && remain * remain == dx * dx + dy * dy
    ensures Part(dx, remain) * Part(dx, remain) + Part(dy, remain) * Part(dy, remain) == STEP * STEP
  {
    var frac := STEP / remain;
    assert frac * remain == STEP;
    calc {
      (dx * frac) * (dx * frac) + (dy * frac) * (dy * frac);
      (frac * frac) * (dx * dx + dy * dy);
      (frac * frac) * (remain * remain);
      { assert (frac * frac) * (remain * remain) == (frac * remain) * (frac * remain); }
      STEP * STEP;
    }
  }

  lemma NormLaw(root: Root, dx: real, dy: real)
    requires IsSqrt(root)
    ensures 0.0 <= Norm(root, dx, dy) && Norm(root, dx, dy) * Norm(root, dx, dy) == dx * dx + dy * dy
  {
    assert 0.0 <= dx * dx && 0.0 <= dy * dy;
    var sum := dx * dx + dy * dy;
    assert 0.0 <= root(sum) && root(sum) * root(sum) == sum;
  }

  ghost predicate Near(f: Fighter, g: Fighter) {
    DistSq(g.x, g.y, f.x, f.y) <= STEP * STEP
  }

  lemma ShortMove(f: Fighter, dx: real, dy: real)
    requires InMap(f) && dx * dx + dy * dy <= STEP * STEP
    ensures Near(f, Shift(f, dx, dy))
  {
    ClampIsShort(f.x, dx);
    ClampIsShort(f.y, dy);
  }

  lemma NearIgnoresSteps(f: Fighter, g: Fighter, g': Fighter)
    requires Near(f, g) && g.x == g'.x && g.y == g'.y
    ensures Near(f, g')
  {
  }

  lemma SquareGrows(v: real, bound: real)
    requires 0.0 <= v <= bound
    ensures v * v <= bound * bound
  {
    assert v * v <= bound * v <= bound * bound;
  }

  /** Nobody moves further than 3 in a tick, clamping included. */
  lemma AdvanceIsShort(root: Root, f: Fighter)
    requires IsSqrt(root) && InMap(f)
    ensures var g := Advance(root, f); DistSq(g.x, g.y, f.x, f.y) <= 9.0
  {
    if f.alive && f.stepping {
      var remain := Norm(root, f.stepDx, f.stepDy);
      NormLaw(root, f.stepDx, f.stepDy);
      if STEP >= remain {
        SquareGrows(remain, STEP);
        ShortMove(f, f.stepDx, f.stepDy);
        NearIgnoresSteps(f, Shift(f, f.stepDx, f.stepDy), Advance(root, f));
      } else {
        FractionLength(f.stepDx, f.stepDy, remain);
        ShortMove(f, Part(f.stepDx, remain), Part(f.stepDy, remain));
        NearIgnoresSteps(f, Shift(f, Part(f.stepDx, remain), Part(f.stepDy, remain)), Advance(root, f));
      }
    }
  }

  /* ---------- what every run keeps ---------- */

  ghost predicate Sound(r: Room) {
    var a := r.arena;
    && 0 <= a.tick && Accounted(a.p1, a.tick) && Accounted(a.p2, a.tick)
    && InMap(a.p1) && InMap(a.p2)
    && (!r.finished ==> a.p1.alive && a.p2.alive && 1 <= a.p1.hp && 1 <= a.p2.hp && Balanced(a))
    && (!r.started ==> a.tick == 0)
    && (r.finished && r.reason == Kill ==> SKILL_COOLDOWN_FRAMES <= a.tick)
  }

  /** A death in a room whose books are in order takes the damage of 40 ticks. */
  lemma DeathTakesTime(a: Arena)
    requires Books(a) && FirstDead(a).Some?
    ensures SKILL_COOLDOWN_FRAMES <= a.tick
  {
    assert a.p1.score + a.p2.score >= 20;
    ScoreIsBounded(a.p1, a.tick);
    ScoreIsBounded(a.p2, a.tick);
  }

  lemma ScoreIsBounded(f: Fighter, tick: int)
    requires Accounted(f, tick)
    ensures f.score <= 2 * (tick / 10) + 5 * (tick / 40)
  {
    assert f.lastAtk / 10 <= tick / 10 && f.lastSkill / 40 <= tick / 40;
  }

  /** The arena as a tick judges it. */
  function Simulated(root: Root, r: Room): Arena {
    Walk(root, Consumed(root, r).arena)
  }

  lemma SimulatedKeeps(root: Root, r: Room)
    requires Sound(r) && !r.finished
    ensures var c, b := Consumed(root, r).arena, Simulated(root, r);
            && Books(c) && SameStage(c, r.arena.(tick := r.arena.tick + 1))
            && Books(b) && InMap(b.p1) && InMap(b.p2) && b.p1.alive && b.p2.alive
  {
    var a := r.arena.(tick := r.arena.tick + 1);
    RecordsKeepBooks(root, a, r.pending);
    RecordsKeepStage(root, a, r.pending);
    var c := ApplyAll(root, a, r.pending);
    AdvanceStaysInMap(root, c.p1);
    AdvanceStaysInMap(root, c.p2);
    AdvanceKeepsRecord(root, c.p1);
    AdvanceKeepsRecord(root, c.p2);
  }

  /** On the opening tick no cooldown has run out, so records can only set steps. */
  lemma {:induction false} OpeningRecordsHitNobody(root: Root, a: Arena, recs: seq<OpRecord>)
    requires Books(a) && a.tick == 1
    ensures var b := ApplyAll(root, a, recs);
            forall s: Side :: b.Get(s)
              == a.Get(s).(stepDx := b.Get(s).stepDx, stepDy := b.Get(s).stepDy, stepping := b.Get(s).stepping)
  {
    if recs != [] {
      OpeningRecordsHitNobody(root, a, recs[..|recs| - 1]);
      var b := ApplyAll(root, a, recs[..|recs| - 1]);
      assert b.Get(First).lastAtk == a.Get(First).lastAtk && b.Get(Second).lastAtk == a.Get(Second).lastAtk;
      assert b.Get(First).lastSkill == a.Get(First).lastSkill && b.Get(Second).lastSkill == a.Get(Second).lastSkill;
      RecordsKeepStage(root, a, recs[..|recs| - 1]);
    }
  }

  lemma OpeningKeepsSound(root: Root, r: Room)
    requires Sound(r) && !r.finished && !r.started
    ensures Sound(Opened(Consumed(root, r)))
  {
    var a := r.arena.(tick := 1);
    SimulatedKeeps(root, r);
    OpeningRecordsHitNobody(root, a, r.pending);
    var c := ApplyAll(root, a, r.pending);
    assert c.Get(First).hp == a.p1.hp && c.Get(Second).hp == a.p2.hp;
  }

  lemma TickKeepsSound(root: Root, r: Room, nowMs: int, finishMs: int)
    requires Sound(r)
    ensures Sound(Tick(root, r, nowMs, finishMs).room)
  {
    if !r.finished {
      SimulatedKeeps(root, r);
      if !r.started {
        OpeningKeepsSound(root, r);
      } else if FirstDead(Simulated(root, r)).Some? {
        DeathTakesTime(Simulated(root, r));
      }
    }
  }

  lemma CallKeepsSound(root: Root, r: Room, call: Call)
    requires Sound(r)
    ensures Sound(Do(root, r, call).room)
  {
    if call.CallTick? { TickKeepsSound(root, r, call.nowMs, call.finishMs); }
  }

  lemma {:induction false} RunIsSound(root: Root, r: Room, calls: seq<Call>)
    requires Sound(r)
    ensures Sound(Run(root, r, calls).room)
  {
    if calls != [] {
      RunIsSound(root, r, calls[..|calls| - 1]);
      CallKeepsSound(root, Run(root, r, calls[..|calls| - 1]).room, calls[|calls| - 1]);
    }
  }

  /** Until a room finishes: everybody alive, 1 to 100 hp, on the map, no cooldown frame in the future. */
  lemma RunningRoom(root: Root, roomId: int, id1: int, id2: int, mode: int, createdMs: int, calls: seq<Call>)
    ensures var r := Run(root, NewRoom(roomId, id1, id2, mode, createdMs), calls).room;
            !r.finished ==> forall s: Side :: var f := r.arena.Get(s);
              && f.alive && 1 <= f.hp <= 100 && 0.0 <= f.x <= 100.0 && 0.0 <= f.y <= 100.0
              && f.lastAtk <= r.arena.tick && f.lastSkill <= r.arena.tick
  {
    RunIsSound(root, NewRoom(roomId, id1, id2, mode, createdMs), calls);
  }

  /** A tick of a running room moves nobody further than 3. */
  lemma TickMovesAtMostStep(root: Root, r: Room, nowMs: int, finishMs: int, s: Side)
    requires IsSqrt(root) && Sound(r) && !r.finished && r.started
    ensures var f, g := r.arena.Get(s), Tick(root, r, nowMs, finishMs).room.arena.Get(s);
            DistSq(g.x, g.y, f.x, f.y) <= 9.0
  {
    SimulatedKeeps(root, r);
    AdvanceIsShort(root, Consumed(root, r).arena.Get(s));
  }

  /** Health lost is five times the score made, whatever was hit, missed, refused or aimed at oneself. */
  lemma DamageIsConserved(root: Root, roomId: int, id1: int, id2: int, mode: int, createdMs: int, calls: seq<Call>)
    ensures var r := Run(root, NewRoom(roomId, id1, id2, mode, createdMs), calls).room;
            !r.finished ==> (100 - r.arena.p1.hp) + (100 - r.arena.p2.hp) == 5 * (r.arena.p1.score + r.arena.p2.score)
  {
    RunIsSound(root, NewRoom(roomId, id1, id2, mode, createdMs), calls);
  }

  /** Scores grow no faster than the cooldowns allow, and nobody is killed before tick 40. */
  lemma DamageRate(root: Root, roomId: int, id1: int, id2: int, mode: int, createdMs: int, calls: seq<Call>)
    ensures var r := Run(root, NewRoom(roomId, id1, id2, mode, createdMs), calls).room;
            && (forall s: Side :: r.arena.Get(s).score <= 2 * (r.arena.tick / 10) + 5 * (r.arena.tick / 40))
            && (r.finished && r.reason == Kill ==> 40 <= r.arena.tick)
  {
    RunIsSound(root, NewRoom(roomId, id1, id2, mode, createdMs), calls);
    var r := Run(root, NewRoom(roomId, id1, id2, mode, createdMs), calls).room;
    ScoreIsBounded(r.arena.p1, r.arena.tick);
    ScoreIsBounded(r.arena.p2, r.arena.tick);
  }

  /* ---------- without self-inflicted damage ---------- */

  predicate AimsElsewhere(rec: OpRecord) {
    match rec.op
    case Atk(target) => target != rec.player
    case Skill(target) => target != rec.player
    case _ => true
  }

  /** Each player's losses are paid for by the other's score. */
  ghost predicate Duel(a: Arena) {
    MAX_HP - a.p2.hp == 5 * a.p1.score && MAX_HP - a.p1.hp == 5 * a.p2.score
  }

  lemma RecordKeepsDuel(root: Root, a: Arena, rec: OpRecord)
    requires Duel(a) && AimsElsewhere(rec)
    ensures Duel(Apply(root, a, rec))
  {
  }

  lemma {:induction false} RecordsKeepDuel(root: Root, a: Arena, recs: seq<OpRecord>)
    requires Duel(a) && forall k :: 0 <= k < |recs| ==> AimsElsewhere(recs[k])
    ensures Duel(ApplyAll(root, a, recs))
  {
    if recs != [] {
      RecordsKeepDuel(root, a, recs[..|recs| - 1]);
      RecordKeepsDuel(root, ApplyAll(root, a, recs[..|recs| - 1]), recs[|recs| - 1]);
    }
  }

  ghost predicate FairRoom(r: Room) {
    && Sound(r)
    && (forall k :: 0 <= k < |r.pending| ==> AimsElsewhere(r.pending[k]))
    && (!r.finished ==> Duel(r.arena))
    && (r.finished && r.reason == Kill ==> 2 * SKILL_COOLDOWN_FRAMES <= r.arena.tick)
  }

  lemma TwentyPointsTakeTime(score: int, tick: int)
    requires 0 <= tick && 20 <= score <= 2 * (tick / 10) + 5 * (tick / 40)
    ensures 80 <= tick
  {
  }

  lemma DuelDeathTakesTime(a: Arena)
    requires Books(a) && Duel(a) && FirstDead(a).Some?
    ensures 2 * SKILL_COOLDOWN_FRAMES <= a.tick
  {
    if a.p1.hp <= 0 {
      ScoreIsBounded(a.p2, a.tick);
      TwentyPointsTakeTime(a.p2.score, a.tick);
    } else {
      ScoreIsBounded(a.p1, a.tick);
      TwentyPointsTakeTime(a.p1.score, a.tick);
    }
  }

  lemma JudgementIsFair(c: Room, nowMs: int, finishMs: int)
    requires Duel(c.arena) && !c.finished && (FirstDead(c.arena).Some? ==> 2 * SKILL_COOLDOWN_FRAMES <= c.arena.tick)
    ensures var s := Conclude(Judge(c, nowMs), finishMs).room;
            && (!s.finished ==> Duel(s.arena)) && s.pending == c.pending
            && (s.finished && s.reason == Kill ==> 2 * SKILL_COOLDOWN_FRAMES <= s.arena.tick)
  {
  }

  lemma TickKeepsFair(root: Root, r: Room, nowMs: int, finishMs: int)
    requires FairRoom(r)
    ensures FairRoom(Tick(root, r, nowMs, finishMs).room)
  {
    TickKeepsSound(root, r, nowMs, finishMs);
    if !r.finished {
      RecordsKeepDuel(root, r.arena.(tick := r.arena.tick + 1), r.pending);
      if r.started {
        SimulatedKeeps(root, r);
        var c, b := Consumed(root, r), Simulated(root, r);
        assert Duel(b);
        if FirstDead(b).Some? { DuelDeathTakesTime(b); }
        JudgementIsFair(c.(arena := b), nowMs, finishMs);
      }
    }
  }

  predicate NoSelfHarm(calls: seq<Call>) {
    forall k :: 0 <= k < |calls| && calls[k].CallSubmit? ==> AimsElsewhere(OpRecord(calls[k].player, calls[k].op))
  }

  lemma {:induction false} RunIsFair(root: Root, r: Room, calls: seq<Call>)
    requires FairRoom(r) && NoSelfHarm(calls)
    ensures FairRoom(Run(root, r, calls).room)
  {
    if calls != [] {
      var init, last := calls[..|calls| - 1], calls[|calls| - 1];
      RunIsFair(root, r, init);
      var t := Run(root, r, init);
      match last {
        case CallTick(nowMs, finishMs) => TickKeepsFair(root, t.room, nowMs, finishMs);
        case CallQuit(_, _) =>
        case CallSubmit(player, op) => assert AimsElsewhere(OpRecord(player, op));
      }
    }
  }

  /** When nobody targets itself the earliest kill is at tick 80. */
  lemma NoKillBeforeTick80(root: Root, roomId: int, id1: int, id2: int, mode: int, createdMs: int, calls: seq<Call>)
    requires NoSelfHarm(calls)
    ensures var r := Run(root, NewRoom(roomId, id1, id2, mode, createdMs), calls).room;
            r.finished && r.reason == Kill ==> 80 <= r.arena.tick
  {
    RunIsFair(root, NewRoom(roomId, id1, id2, mode, createdMs), calls);
  }

  /* ---------- the end of a room ---------- */

  /** Once finished, nothing changes any field and nothing more is sent. */
  lemma {:induction false} FinishedIsFinal(root: Root, r: Room, calls: seq<Call>)
    requires r.finished
    ensures Run(root, r, calls) == Turn(r, [])
  {
    if calls != [] { FinishedIsFinal(root, r, calls[..|calls| - 1]); }
  }

  function Ticks(calls: seq<Call>): nat {
    if calls == [] then 0
    else Ticks(calls[..|calls| - 1]) + if calls[|calls| - 1].CallTick? then 1 else 0
  }

  /** Tick number k, counted from 0, reads a clock of at least createdMs + k * delta. */
  ghost predicate Paced(calls: seq<Call>, createdMs: int, delta: int) {
    forall k :: 0 <= k < |calls| && calls[k].CallTick? ==> createdMs + Ticks(calls[..k]) * delta <= calls[k].nowMs
  }

  lemma QuotientBound(k: int, delta: int, limit: int)
    requires 1 <= delta && 0 <= limit
    ensures k * delta <= limit <==> k <= limit / delta
  {
    assert limit == delta * (limit / delta) + limit % delta;
    if k <= limit / delta {
      assert k * delta <= (limit / delta) * delta;
    } else {
      assert k * delta >= (limit / delta + 1) * delta;
    }
  }

  /** What a call does to the clockwork of a room. */
  lemma CallTiming(root: Root, r: Room, call: Call)
    ensures var s := Do(root, r, call).room;
            && s.createdMs == r.createdMs && (r.finished ==> s == r)
            && if call.CallTick? && !r.finished
               then s.arena.tick == r.arena.tick + 1 && s.started
                    && (r.started && call.nowMs - r.createdMs > TIMEOUT_MS ==> s.finished)
               else s.arena.tick == r.arena.tick && s.started == r.started
  {
    if call.CallTick? { RecordsKeepStage(root, r.arena.(tick := r.arena.tick + 1), r.pending); }
  }

  lemma {:induction false} PacedRun(root: Root, r: Room, calls: seq<Call>, delta: int)
    requires 1 <= delta && !r.finished && !r.started && r.arena.tick == 0 && Paced(calls, r.createdMs, delta)
    ensures var s, limit := Run(root, r, calls).room, TIMEOUT_MS / delta;
            && s.createdMs == r.createdMs
            && s.arena.tick <= limit + 2
            && (!s.finished ==>
               s.arena.tick == Ticks(calls) && s.started == (0 < s.arena.tick) && s.arena.tick <= limit + 1)
  {
    if calls != [] {
      var init, last := calls[..|calls| - 1], calls[|calls| - 1];
      forall k | 0 <= k < |init| && init[k].CallTick?
        ensures r.createdMs + Ticks(init[..k]) * delta <= init[k].nowMs
      {
        assert calls[..k] == init[..k] && calls[k] == init[k];
      }
      PacedRun(root, r, init, delta);
      var t := Run(root, r, init).room;
      CallTiming(root, t, last);
      if last.CallTick? && !t.finished {
        QuotientBound(Ticks(init), delta, TIMEOUT_MS);
        assert calls[|calls| - 1].CallTick? && calls[..|calls| - 1] == init;
        assert r.createdMs + Ticks(init) * delta <= last.nowMs;
      }
    }
  }

  /** With the clock moving at least delta per tick a room is over by tick 60000 / delta + 2. */
  lemma EndsInTime(root: Root, roomId: int, id1: int, id2: int, mode: int, createdMs: int, calls: seq<Call>, delta: int)
    requires 1 <= delta && Paced(calls, createdMs, delta)
    ensures var r := Run(root, NewRoom(roomId, id1, id2, mode, createdMs), calls).room;
            && r.arena.tick <= 60000 / delta + 2
            && (60000 / delta + 2 <= Ticks(calls) ==> r.finished)
  {
    PacedRun(root, NewRoom(roomId, id1, id2, mode, createdMs), calls, delta);
  }
}
