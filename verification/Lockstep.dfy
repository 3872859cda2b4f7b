/**
 Lockstep: replaying the broadcast frames of a mode-0 room rebuilds the server's battle state after
 every frame, for any calls in any order, and it does so exactly when no move is waiting in the queue
 at the opening tick. The server applies records as they arrived, the client as the frame lists them.
 */
module Lockstep {
  import opened Options
  import opened Battle
  import opened Replica
  import opened OrderIndependence
  import opened Batches
  import Laws = BattleLaws

  function PuppetOf(f: Fighter): Puppet {
    Puppet(f.x, f.y, f.hp, f.alive, f.stepDx, f.stepDy, f.stepping, f.lastAtk, f.lastSkill)
  }

  /** The client world that agrees with the server in every field the client has. */
  function Mirror(a: Arena): World {
    World(a.tick, map[a.p1.id := PuppetOf(a.p1), a.p2.id := PuppetOf(a.p2)])
  }

  /** The frames among some events that go to one player, in order. */
  function FramesTo(events: seq<Event>, id: int): seq<Frame> {
    if events == [] then []
    else
      var last := events[|events| - 1];
      FramesTo(events[..|events| - 1], id) + if last.PushFrame? && last.to == id then [last.frame] else []
  }

  lemma {:induction false} FramesConcat(events: seq<Event>, more: seq<Event>, id: int)
    ensures FramesTo(events + more, id) == FramesTo(events, id) + FramesTo(more, id)
  {
    if more == [] {
      assert events + more == events;
    } else {
      assert (events + more)[..|events + more| - 1] == events + more[..|more| - 1];
      FramesConcat(events, more[..|more| - 1], id);
    }
  }

  lemma ReplayOne(root: Root, w: World, frames: seq<Frame>, frame: Frame)
    ensures Replay(root, w, frames + [frame]) == ApplyFrame(root, Replay(root, w, frames), frame)
  {
    assert (frames + [frame])[..|frames|] == frames;
  }

  /* ---------- one record, one batch, one step ---------- */

  lemma MirrorPut(a: Arena, s: Side, f: Fighter)
    requires a.p1.id != a.p2.id && f.id == a.Get(s).id
    ensures Mirror(a).fs[f.id := PuppetOf(f)] == Mirror(a.Put(s, f)).fs
  {
  }

  lemma MirrorGet(a: Arena, s: Side)
    requires a.p1.id != a.p2.id
    ensures a.Get(s).id in Mirror(a).fs && Mirror(a).fs[a.Get(s).id] == PuppetOf(a.Get(s))
    ensures a.Find(a.Get(s).id) == Some(s)
  {
  }

  lemma MirrorHit(root: Root, a: Arena, s: Side, target: int, range: real, damage: int, points: int)
    requires a.p1.id != a.p2.id
    ensures a.Get(s).id in Mirror(a).fs
    ensures Hit(root, Mirror(a).fs, a.Get(s).id, target, range, damage)
         == Mirror(Strike(root, a, s, target, range, damage, points)).fs
  {
    MirrorGet(a, s);
    if a.Find(target).Some? {
      var ts := a.Find(target).value;
      var t := a.Get(ts);
      MirrorGet(a, ts);
      var t' := t.(hp := t.hp - damage);
      MirrorPut(a, ts, t');
      var b := a.Put(ts, t');
      MirrorPut(b, s, b.Get(s).(score := b.Get(s).score + points));
      MirrorGet(b, s);
    }
  }

  lemma MirrorOp(root: Root, a: Arena, s: Side, op: Op)
    requires a.p1.id != a.p2.id && a.Get(s).alive
    ensures ApplyFsOp(root, Mirror(a), a.Get(s).id, op) == Mirror(ApplyOp(root, a, s, op))
  {
    MirrorGet(a, s);
    var p := a.Get(s);
    match op
    case Move(dx, dy) => MirrorPut(a, s, p.(stepDx := dx * CELL_W, stepDy := dy * CELL_H, stepping := true));
    case Atk(target) =>
      var q := p.(lastAtk := a.tick);
      MirrorPut(a, s, q);
      MirrorHit(root, a.Put(s, q), s, target, ATK_RANGE, ATK_DAMAGE, ATK_SCORE);
    case Skill(target) =>
      var q := p.(lastSkill := a.tick);
      MirrorPut(a, s, q);
      MirrorHit(root, a.Put(s, q), s, target, SKILL_RANGE, SKILL_DAMAGE, SKILL_SCORE);
    case Other =>
  }

  lemma {:induction false} MirrorRecords(root: Root, a: Arena, recs: seq<OpRecord>)
    requires a.p1.id != a.p2.id
    ensures ApplyFsOps(root, Mirror(a), recs) == Mirror(ApplyAll(root, a, recs))
  {
    if recs != [] {
      var init, last := recs[..|recs| - 1], recs[|recs| - 1];
      MirrorRecords(root, a, init);
      RecordsKeepStage(root, a, init);
      var b := ApplyAll(root, a, init);
      if Heard(b, last) { MirrorOp(root, b, b.Find(last.player).value, last.op); }
    }
  }

  lemma MirrorAdvance(root: Root, f: Fighter)
    ensures StepPuppet(root, PuppetOf(f)) == PuppetOf(Advance(root, f))
  {
  }

  lemma MirrorWalk(root: Root, a: Arena)
    requires a.p1.id != a.p2.id
    ensures StepAll(root, Mirror(a).fs) == Mirror(Walk(root, a)).fs
  {
    MirrorAdvance(root, a.p1);
    MirrorAdvance(root, a.p2);
  }

  /** The broadcast order gives the state the arrival order gave. */
  lemma FrameOrderIsAsGood(root: Root, a: Arena, recs: seq<OpRecord>)
    ensures ApplyAll(root, a, SortOps(Kept(root, a, recs))) == ApplyAll(root, a, recs)
  {
    SortOpsLaws(Kept(root, a, recs));
    OrderDoesNotMatter(root, a, Kept(root, a, recs), SortOps(Kept(root, a, recs)));
    KeptIsEnough(root, a, recs);
  }

  lemma NobodyToBury(a: Arena)
    requires a.p1.id != a.p2.id && FirstDead(a).None?
    ensures CheckDeaths(Mirror(a).fs) == Mirror(a).fs
  {
  }

  /** The client's world after the records and the walk of a frame, before its own death check. */
  function BeforeDeathCheck(root: Root, r: Room): World {
    var v := ApplyFsOps(root, Mirror(r.arena).(frameSeq := r.arena.tick + 1), SortOps(Consumed(root, r).frameOps));
    v.(fs := StepAll(root, v.fs))
  }

  lemma FrameSimulates(root: Root, r: Room)
    requires r.arena.p1.id != r.arena.p2.id
    ensures BeforeDeathCheck(root, r) == Mirror(Laws.Simulated(root, r))
  {
    var a := r.arena.(tick := r.arena.tick + 1);
    FrameOrderIsAsGood(root, a, r.pending);
    MirrorRecords(root, a, SortOps(Kept(root, a, r.pending)));
    RecordsKeepStage(root, a, r.pending);
    MirrorWalk(root, Consumed(root, r).arena);
  }

  ghost predicate SameStageIds(a: Arena, b: Arena) {
    b.p1.id == a.p1.id && b.p2.id == a.p2.id && b.tick == a.tick + 1
  }

  lemma SurvivorsOf(root: Root, r: Room, nowMs: int)
    requires !r.finished && r.started
    requires TickSection(root, r, nowMs).outcome.Broadcast?
    ensures var b := Laws.Simulated(root, r);
            && FirstDead(b).None? && SameStageIds(r.arena, b)
            && TickSection(root, r, nowMs).room == Consumed(root, r).(arena := b)
  {
    RecordsKeepStage(root, r.arena.(tick := r.arena.tick + 1), r.pending);
  }

  /** On a frame that goes out, the death check of a client in step finds nobody to bury. */
  lemma DeathCheckNeverFires(root: Root, r: Room, nowMs: int)
    requires r.arena.p1.id != r.arena.p2.id && !r.finished && r.started
    requires TickSection(root, r, nowMs).outcome.Broadcast?
    ensures var fs := BeforeDeathCheck(root, r).fs;
            CheckDeaths(fs) == fs && forall pid :: pid in fs && fs[pid].alive ==> 0 < fs[pid].hp
  {
    FrameSimulates(root, r);
    SurvivorsOf(root, r, nowMs);
    var b := Laws.Simulated(root, r);
    NobodyToBury(b);
    MirrorGet(b, First);
    MirrorGet(b, Second);
  }

  /* ---------- a client that has not heard of a departure ---------- */

  /** g is f after its player left: dead, and otherwise where it was. Scores are not compared, clients have none. */
  predicate Vanished(f: Fighter, g: Fighter) {
    f.alive && !g.alive && g.id == f.id && PuppetOf(g) == PuppetOf(f).(alive := false, hp := 0)
  }

  ghost predicate Like(f: Fighter, g: Fighter) {
    (g.id == f.id && PuppetOf(g) == PuppetOf(f)) || Vanished(f, g)
  }

  /** b is what the server has, a what a client has that may not know that somebody left. */
  ghost predicate Shadow(a: Arena, b: Arena) {
    b.tick == a.tick && Like(a.p1, b.p1) && Like(a.p2, b.p2)
  }

  lemma ShadowStrike(root: Root, a: Arena, b: Arena, s: Side, target: int, range: real, damage: int, points: int)
    requires Shadow(a, b) && b.Get(s).alive
    ensures Shadow(Strike(root, a, s, target, range, damage, points), Strike(root, b, s, target, range, damage, points))
  {
    if a.Find(target).Some? {
      var t := a.Find(target).value;
      assert b.Find(target) == Some(t);
      assert Distance(root, a.Get(s).x, a.Get(s).y, a.Get(t).x, a.Get(t).y)
          == Distance(root, b.Get(s).x, b.Get(s).y, b.Get(t).x, b.Get(t).y);
    }
  }

  /** An operation of a player who is still there does the same to both, except that it can hit who has left. */
  lemma ShadowOp(root: Root, a: Arena, b: Arena, s: Side, op: Op)
    requires Shadow(a, b) && b.Get(s).alive
    ensures Shadow(ApplyOp(root, a, s, op), ApplyOp(root, b, s, op))
  {
    var p, q := a.Get(s), b.Get(s);
    match op
    case Move(_, _) =>
    case Atk(target) =>
      ShadowStrike(root, a.Put(s, p.(lastAtk := a.tick)), b.Put(s, q.(lastAtk := b.tick)),
                   s, target, ATK_RANGE, ATK_DAMAGE, ATK_SCORE);
    case Skill(target) =>
      ShadowStrike(root, a.Put(s, p.(lastSkill := a.tick)), b.Put(s, q.(lastSkill := b.tick)),
                   s, target, SKILL_RANGE, SKILL_DAMAGE, SKILL_SCORE);
    case Other =>
  }

  /** f and g differ at most in hp. */
  predicate SameButHp(f: Fighter, g: Fighter) {
    g == f.(hp := g.hp)
  }

  lemma {:induction false} ShadowRecords(root: Root, a: Arena, b: Arena, recs: seq<OpRecord>)
    requires Shadow(a, b) && a.p1.id != a.p2.id && forall k :: 0 <= k < |recs| ==> Heard(b, recs[k])
    ensures Shadow(ApplyAll(root, a, recs), ApplyAll(root, b, recs))
    ensures forall s: Side :: !b.Get(s).alive ==> SameButHp(a.Get(s), ApplyAll(root, a, recs).Get(s))
  {
    if recs != [] {
      var init, last := recs[..|recs| - 1], recs[|recs| - 1];
      ShadowRecords(root, a, b, init);
      RecordsKeepStage(root, a, init);
      RecordsKeepStage(root, b, init);
      var c, d := ApplyAll(root, a, init), ApplyAll(root, b, init);
      var s := b.Find(last.player).value;
      StageDecidesHeard(b, d, last);
      assert Heard(b, last) && c.Find(last.player) == d.Find(last.player) == Some(s);
      ShadowOp(root, c, d, s, last.op);
      OpOnOther(root, c, s, last.op);
    }
  }

  lemma {:induction false} KeptAreHeard(root: Root, a: Arena, recs: seq<OpRecord>)
    ensures forall k :: 0 <= k < |Kept(root, a, recs)| ==> Heard(a, Kept(root, a, recs)[k])
  {
    if recs != [] {
      var init, last := recs[..|recs| - 1], recs[|recs| - 1];
      KeptAreHeard(root, a, init);
      RecordsKeepStage(root, a, init);
      StageDecidesHeard(a, ApplyAll(root, a, init), last);
    }
  }

  /**
   How a client can come to know by itself that a player has left: the other one, if still there, attacks or
   uses a skill with a free cooldown and from within reach, for no less than the hp that is left; and the
   player who left is not walking.
   */
  predicate Unnoticed(root: Root, a: Arena, r: Room, s: Side) {
    var other := s.Other();
    && a.Get(s).hp <=
       (if r.arena.Get(other).alive then DamageBy(root, a.(tick := a.tick + 1), other, r.pending, s) else 0)
    && Advance(root, a.Get(s)) == a.Get(s)
  }

  /** What the client makes of a departed player's health: only the one who is still there can hurt it. */
  lemma DamageToDeparted(root: Root, a: Arena, r: Room, s: Side)
    requires a.p1.id != a.p2.id && Shadow(a, r.arena) && !r.arena.Get(s).alive
    ensures var a', recs := a.(tick := a.tick + 1), Kept(root, r.arena.(tick := r.arena.tick + 1), r.pending);
            ApplyAll(root, a', recs).Get(s).hp == a.Get(s).hp
              - (if r.arena.Get(s.Other()).alive then DamageBy(root, a', s.Other(), r.pending, s) else 0)
  {
    var a', b' := a.(tick := a.tick + 1), r.arena.(tick := r.arena.tick + 1);
    BatchHasEffect(root, a', Kept(root, b', r.pending));
    FirstsOfKept(root, b', r.pending, First);
    FirstsOfKept(root, b', r.pending, Second);
  }

  lemma RestIgnoresHp(root: Root, f: Fighter, g: Fighter)
    requires SameButHp(f, g)
    ensures Advance(root, f) == f <==> Advance(root, g) == g
  {
  }

  /** One player on both sides of a frame: what the client makes of f against what the server makes of g. */
  lemma SideOutcome(root: Root, f: Fighter, g: Fighter)
    requires Like(f, g) && (g.alive ==> 0 < g.hp)
    ensures CheckDeath(PuppetOf(Advance(root, f))) == PuppetOf(Advance(root, g)) <==>
            (Vanished(f, g) ==> f.hp <= 0 && Advance(root, f) == f)
  {
    MirrorAdvance(root, f);
    MirrorAdvance(root, g);
    Laws.AdvanceKeepsRecord(root, f);
    Laws.AdvanceKeepsRecord(root, g);
    if Vanished(f, g) {
      var h := Advance(root, f);
      assert h == f <==> PuppetOf(h) == PuppetOf(f);
    }
  }

  lemma SidesDecide(a: Arena, b: Arena)
    requires a.p1.id != a.p2.id && b.p1.id == a.p1.id && b.p2.id == a.p2.id && b.tick == a.tick
    ensures Mirror(a).(fs := CheckDeaths(Mirror(a).fs)) == Mirror(b) <==>
            CheckDeath(PuppetOf(a.p1)) == PuppetOf(b.p1) && CheckDeath(PuppetOf(a.p2)) == PuppetOf(b.p2)
  {
    var x, y := CheckDeaths(Mirror(a).fs), Mirror(b).fs;
    assert x.Keys == {a.p1.id, a.p2.id} == y.Keys;
    assert x[a.p1.id] == CheckDeath(PuppetOf(a.p1)) && x[a.p2.id] == CheckDeath(PuppetOf(a.p2));
    assert y[a.p1.id] == PuppetOf(b.p1) && y[a.p2.id] == PuppetOf(b.p2);
    if CheckDeath(PuppetOf(a.p1)) == PuppetOf(b.p1) && CheckDeath(PuppetOf(a.p2)) == PuppetOf(b.p2) {
      assert x == y;
    }
  }

  /** The sorted records of a batch, replayed. */
  lemma ReplayBatch(root: Root, a: Arena, recs: seq<OpRecord>)
    requires a.p1.id != a.p2.id
    ensures ApplyFsOps(root, Mirror(a), SortOps(recs)) == Mirror(ApplyAll(root, a, recs))
  {
    SortOpsLaws(recs);
    OrderDoesNotMatter(root, a, recs, SortOps(recs));
    MirrorRecords(root, a, SortOps(recs));
  }

  /** The client's world after a frame that lists recs, on top of arena a. */
  lemma FrameOnArena(root: Root, a: Arena, recs: seq<OpRecord>, frame: Frame)
    requires a.p1.id != a.p2.id && !frame.full && frame.seqNo == a.tick + 1 && frame.ops == SortOps(recs)
    ensures var b := Walk(root, ApplyAll(root, a.(tick := a.tick + 1), recs));
            && ApplyFrame(root, Mirror(a), frame) == Mirror(b).(fs := CheckDeaths(Mirror(b).fs))
            && b.p1.id == a.p1.id && b.p2.id == a.p2.id && b.tick == a.tick + 1
  {
    var a' := a.(tick := a.tick + 1);
    ReplayBatch(root, a', recs);
    RecordsKeepStage(root, a', recs);
    assert Mirror(a).(frameSeq := frame.seqNo) == Mirror(a');
    MirrorGet(a, First);
    var c := ApplyAll(root, a', recs);
    FrameSteps(root, Mirror(a), frame, Mirror(c));
    WalkInMirror(root, c);
  }

  lemma FrameSteps(root: Root, w: World, frame: Frame, v: World)
    requires !frame.full && w.fs != map[] && v == ApplyFsOps(root, w.(frameSeq := frame.seqNo), frame.ops)
    ensures ApplyFrame(root, w, frame) == v.(fs := CheckDeaths(StepAll(root, v.fs)))
  {
  }

  lemma WalkInMirror(root: Root, c: Arena)
    requires c.p1.id != c.p2.id
    ensures var b := Walk(root, c);
            && Mirror(c).(fs := CheckDeaths(StepAll(root, Mirror(c).fs))) == Mirror(b).(fs := CheckDeaths(Mirror(b).fs))
            && b.p1.id == c.p1.id && b.p2.id == c.p2.id && b.tick == c.tick
  {
    MirrorWalk(root, c);
    Laws.AdvanceKeepsRecord(root, c.p1);
    Laws.AdvanceKeepsRecord(root, c.p2);
  }

  /** Side s has not left since a, or the client can find out. */
  predicate Traceless(root: Root, a: Arena, r: Room, s: Side) {
    Vanished(a.Get(s), r.arena.Get(s)) ==> Unnoticed(root, a, r, s)
  }

  /** The client's arena and the server's after the records of a tick, the client knowing arena a. */
  function ClientBatch(root: Root, a: Arena, r: Room): Arena {
    ApplyAll(root, a.(tick := a.tick + 1), Kept(root, r.arena.(tick := r.arena.tick + 1), r.pending))
  }

  function ServerBatch(root: Root, r: Room): Arena {
    var b := r.arena.(tick := r.arena.tick + 1);
    ApplyAll(root, b, Kept(root, b, r.pending))
  }

  lemma BatchesStayShadows(root: Root, a: Arena, r: Room)
    requires a.p1.id != a.p2.id && Shadow(a, r.arena)
    ensures var c, d := ClientBatch(root, a, r), ServerBatch(root, r);
            && Shadow(c, d) && SameStage(a.(tick := a.tick + 1), c) && SameStage(r.arena.(tick := r.arena.tick + 1), d)
            && forall s: Side :: !r.arena.Get(s).alive ==> SameButHp(a.Get(s), c.Get(s))
  {
    var a', b' := a.(tick := a.tick + 1), r.arena.(tick := r.arena.tick + 1);
    var recs := Kept(root, b', r.pending);
    KeptAreHeard(root, b', r.pending);
    ShadowRecords(root, a', b', recs);
    RecordsKeepStage(root, a', recs);
    RecordsKeepStage(root, b', recs);
  }

  /** What a frame does to both ends comes down to the two players, one by one. */
  lemma FrameBySides(root: Root, a: Arena, r: Room, nowMs: int)
    requires a.p1.id != a.p2.id && Shadow(a, r.arena) && !r.finished && r.started
    requires TickSection(root, r, nowMs).outcome.Broadcast?
    ensures var r', c, d := TickSection(root, r, nowMs).room, ClientBatch(root, a, r), ServerBatch(root, r);
            && (ApplyFrame(root, Mirror(a), BuildFrame(r', false)) == Mirror(r'.arena) <==>
                SideAgrees(root, c, d, First) && SideAgrees(root, c, d, Second))
            && FirstDead(Walk(root, d)).None?
  {
    var c, d := ClientBatch(root, a, r), ServerBatch(root, r);
    var b' := r.arena.(tick := r.arena.tick + 1);
    var r' := TickSection(root, r, nowMs).room;
    SurvivorsOf(root, r, nowMs);
    KeptIsEnough(root, b', r.pending);
    assert r'.arena == Walk(root, d);
    FrameOnArena(root, a, Kept(root, b', r.pending), BuildFrame(r', false));
    SidesDecide(Walk(root, c), Walk(root, d));
  }

  /** After the walk and the client's death check side s looks the same on both ends. */
  predicate SideAgrees(root: Root, c: Arena, d: Arena, s: Side) {
    CheckDeath(PuppetOf(Advance(root, c.Get(s)))) == PuppetOf(Advance(root, d.Get(s)))
  }

  /**
   A frame brings a client whose world was the server's, but for players who have left since, back into
   step exactly when the client can find out about each of them by itself.
   */
  lemma GapTick(root: Root, a: Arena, r: Room, nowMs: int)
    requires a.p1.id != a.p2.id && Shadow(a, r.arena) && !r.finished && r.started
    requires TickSection(root, r, nowMs).outcome.Broadcast?
    ensures var r' := TickSection(root, r, nowMs).room;
            ApplyFrame(root, Mirror(a), BuildFrame(r', false)) == Mirror(r'.arena) <==>
            Traceless(root, a, r, First) && Traceless(root, a, r, Second)
  {
    FrameBySides(root, a, r, nowMs);
    GapSide(root, a, r, First);
    GapSide(root, a, r, Second);
  }

  lemma GapSide(root: Root, a: Arena, r: Room, s: Side)
    requires a.p1.id != a.p2.id && Shadow(a, r.arena)
    requires FirstDead(Walk(root, ServerBatch(root, r))).None?
    ensures SideAgrees(root, ClientBatch(root, a, r), ServerBatch(root, r), s) <==> Traceless(root, a, r, s)
  {
    var c, d := ClientBatch(root, a, r), ServerBatch(root, r);
    BatchesStayShadows(root, a, r);
    Laws.AdvanceKeepsRecord(root, d.Get(s));
    SideOutcome(root, c.Get(s), d.Get(s));
    if !r.arena.Get(s).alive {
      RestIgnoresHp(root, a.Get(s), c.Get(s));
      DamageToDeparted(root, a, r, s);
    }
  }

  lemma MirrorTick(root: Root, r: Room, nowMs: int)
    requires r.arena.p1.id != r.arena.p2.id && !r.finished && r.started
    requires TickSection(root, r, nowMs).outcome.Broadcast?
    ensures var r' := TickSection(root, r, nowMs).room;
            ApplyFrame(root, Mirror(r.arena), BuildFrame(r', false)) == Mirror(r'.arena)
  {
    GapTick(root, r.arena, r, nowMs);
  }

  /* ---------- the opening tick ---------- */

  /** None of the records is a move that somebody makes. */
  predicate NoMove(a: Arena, recs: seq<OpRecord>) {
    forall k :: 0 <= k < |recs| ==> !(Heard(a, recs[k]) && recs[k].op.Move?)
  }

  lemma NoMoveSnoc(a: Arena, init: seq<OpRecord>, last: OpRecord)
    ensures NoMove(a, init + [last]) <==> NoMove(a, init) && !(Heard(a, last) && last.op.Move?)
  {
    if NoMove(a, init + [last]) {
      forall k | 0 <= k < |init| ensures !(Heard(a, init[k]) && init[k].op.Move?) {
        assert (init + [last])[k] == init[k];
      }
      assert (init + [last])[|init|] == last;
    }
  }

  /** Fresh steps: what a full frame tells a client about steps and cooldowns. */
  ghost predicate Fresh(f: Fighter) {
    f.stepDx == 0.0 && f.stepDy == 0.0 && !f.stepping && f.lastAtk == 0 && f.lastSkill == 0
  }

  lemma {:induction false} OpeningBatch(root: Root, a: Arena, recs: seq<OpRecord>)
    requires a.tick == 1 && Fresh(a.p1) && Fresh(a.p2)
    ensures var b := ApplyAll(root, a, recs);
            && SameStage(a, b)
            && b.p1.lastAtk == b.p1.lastSkill == b.p2.lastAtk == b.p2.lastSkill == 0
            && (NoMove(a, recs) ==> b == a)
            && (!NoMove(a, recs) ==> b.p1.stepping || b.p2.stepping)
  {
    if recs != [] {
      var init, last := recs[..|recs| - 1], recs[|recs| - 1];
      OpeningBatch(root, a, init);
      var b := ApplyAll(root, a, init);
      StageDecidesHeard(a, b, last);
      assert recs == init + [last];
      NoMoveSnoc(a, init, last);
    }
  }

  /** The part of a room that matters before it opens. A player may have left already. */
  ghost predicate Unopened(r: Room) {
    && !r.started && r.mode == 0 && r.arena.p1.id != r.arena.p2.id
    && (!r.finished ==> r.arena.tick == 0 && Fresh(r.arena.p1) && Fresh(r.arena.p2))
  }

  /** If the room opens now, no move is waiting. */
  predicate QuietAt(r: Room) {
    !r.started && !r.finished ==> NoMove(r.arena, r.pending)
  }

  lemma OpeningTick(root: Root, r: Room, w: World)
    requires Unopened(r) && !r.finished
    ensures var r' := Opened(Consumed(root, r));
            (ApplyFrame(root, w, BuildFrame(r', true)) == Mirror(r'.arena)) <==> QuietAt(r)
  {
    var a := r.arena.(tick := 1);
    OpeningBatch(root, a, r.pending);
    assert NoMove(a, r.pending) <==> NoMove(r.arena, r.pending) by {
      forall k | 0 <= k < |r.pending| ensures Heard(a, r.pending[k]) == Heard(r.arena, r.pending[k]) {
      }
    }
    var r' := Opened(Consumed(root, r));
    var e := Entities(r'.arena);
    assert e[..1] == [EntityOf(r'.arena.p1)] && e[..1][..0] == [];
    assert SpawnAll(e[..1]) == map[r'.arena.p1.id := Spawn(e[0])];
    assert SpawnAll(e) == map[r'.arena.p1.id := Spawn(e[0])][r'.arena.p2.id := Spawn(e[1])];
    var fs := Mirror(r'.arena).fs;
    assert fs[r'.arena.p1.id] == PuppetOf(r'.arena.p1) && fs[r'.arena.p2.id] == PuppetOf(r'.arena.p2);
    assert SpawnAll(e)[r'.arena.p1.id] == Spawn(e[0]) && SpawnAll(e)[r'.arena.p2.id] == Spawn(e[1]);
  }

  /* ---------- the frames of a call ---------- */

  lemma FramesOfPair(id1: int, id2: int, frame: Frame, pid: int)
    requires id1 != id2 && (pid == id1 || pid == id2)
    ensures FramesTo([PushFrame(id1, frame), PushFrame(id2, frame)], pid) == [frame]
  {
    var e1, e2 := PushFrame(id1, frame), PushFrame(id2, frame);
    assert [e1, e2] == [e1] + [e2];
    FramesConcat([e1], [e2], pid);
    assert [e1][..0] == [] == [e2][..0];
  }

  lemma SettleFrames(sec: Section, finishMs: int, pid: int)
    requires sec.outcome.Settle?
    ensures var t := Conclude(sec, finishMs);
            FramesTo(t.events, pid) == [] && t.room.finished
            && t.room.mode == sec.room.mode && t.room.arena == sec.room.arena && t.room.started == sec.room.started
  {
    NoFramesInResult(FinishRoom(sec.room, sec.outcome.winner, sec.outcome.loser, sec.outcome.reason, finishMs), pid);
  }

  ghost predicate SameIds(r: Room, s: Room) {
    s.mode == r.mode && s.arena.p1.id == r.arena.p1.id && s.arena.p2.id == r.arena.p2.id
  }

  lemma TickSectionKeeps(root: Root, r: Room, nowMs: int)
    ensures var sec := TickSection(root, r, nowMs);
            SameIds(r, sec.room) && sec.room.started == (r.started || !r.finished) && sec.room.finished == r.finished
            && (sec.outcome.Nothing? <==> r.finished) && (r.finished ==> sec.room == r)
            && (sec.outcome.Broadcast? ==> sec.outcome.events == BroadcastEvents(sec.room, !r.started))
            && (!r.finished && !r.started ==> sec.outcome.Broadcast?)
  {
    RecordsKeepStage(root, r.arena.(tick := r.arena.tick + 1), r.pending);
  }

  /** One call: which frames go to pid, and what the room looks like afterwards. */
  lemma FramesOfCall(root: Root, r: Room, call: Call, pid: int)
    requires r.mode == 0 && r.arena.p1.id != r.arena.p2.id && (pid == r.arena.p1.id || pid == r.arena.p2.id)
    ensures var t := Do(root, r, call);
            && SameIds(r, t.room)
            && (r.started ==> t.room.started) && (r.finished ==> t.room.finished)
            && (t.room.finished || !call.CallTick? ==> FramesTo(t.events, pid) == [] && t.room.started == r.started)
            && (!call.CallTick? && !t.room.finished ==> t.room.arena == r.arena)
            && (call.CallTick? && !t.room.finished ==>
                 FramesTo(t.events, pid) == [BuildFrame(t.room, !r.started)]
                 && t.room == TickSection(root, r, call.nowMs).room && t.room.started)
  {
    match call
    case CallTick(nowMs, finishMs) =>
      TickSectionKeeps(root, r, nowMs);
      var sec := TickSection(root, r, nowMs);
      if sec.outcome.Broadcast? {
        FramesOfPair(r.arena.p1.id, r.arena.p2.id, BuildFrame(sec.room, !r.started), pid);
      } else if sec.outcome.Settle? {
        SettleFrames(sec, finishMs, pid);
      }
    case CallQuit(player, finishMs) =>
      var sec := QuitSection(r, player);
      if sec.outcome.Settle? { SettleFrames(sec, finishMs, pid); }
    case CallSubmit(_, _) =>
  }

  lemma {:induction false} NoFrames(events: seq<Event>, pid: int)
    requires forall k :: 0 <= k < |events| ==> !events[k].PushFrame?
    ensures FramesTo(events, pid) == []
  {
    if events != [] { NoFrames(events[..|events| - 1], pid); }
  }

  lemma NoFramesInResult(r: Room, pid: int)
    ensures FramesTo(ResultEvents(r), pid) == []
  {
    NoFrames(ResultEvents(r), pid);
  }
}
