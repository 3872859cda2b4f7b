/**
 The frame order. The server's sort may reorder the records of one player, because it is not stable. Which
 orders keep a client in step, exactly: each player's last move has to stay the last one, and each side has
 to take the same damage, which is up to each player's first attack and first skill.
 */
module FrameOrder {
  import opened Options
  import opened Battle
  import opened Replica
  import opened OrderIndependence
  import opened Batches
  import opened Lockstep
  import W = Walk
  import P = LockstepPremises
  import Laws = BattleLaws

  /* ---------- walking tells displacements apart ---------- */

  /** After one tick of walking two different displacements can still be told apart. */
  lemma StepsStayDifferent(root: Root, f: Fighter, g: Fighter)
    requires IsSqrt(root) && f.alive && g.alive && f.stepping && g.stepping
    requires f.stepDx != g.stepDx || f.stepDy != g.stepDy
    ensures var f', g' := Advance(root, f), Advance(root, g);
            f'.stepDx != g'.stepDx || f'.stepDy != g'.stepDy || f'.stepping != g'.stepping
  {
    var n, m := Norm(root, f.stepDx, f.stepDy), Norm(root, g.stepDx, g.stepDy);
    if STEP < n && STEP < m {
      var f', g' := Advance(root, f), Advance(root, g);
      W.RestLength(root, f.stepDx, f.stepDy);
      W.RestLength(root, g.stepDx, g.stepDy);
      if f'.stepDx == g'.stepDx && f'.stepDy == g'.stepDy {
        assert n == m;
        RestIsInjective(f.stepDx, g.stepDx, n);
        RestIsInjective(f.stepDy, g.stepDy, n);
      }
    }
  }

  lemma RestIsInjective(d: real, e: real, n: real)
    requires STEP < n && d - Part(d, n) == e - Part(e, n)
    ensures d == e
  {
    var c := STEP / n;
    assert c * n == STEP && c < 1.0;
    assert (1.0 - c) * (d - e) == 0.0;
  }

  lemma {:induction false} LastMoveIsOwn(recs: seq<OpRecord>, id: int)
    ensures W.LastMove(Of(recs, id), id) == W.LastMove(recs, id)
  {
    if recs != [] {
      var init, last := recs[..|recs| - 1], recs[|recs| - 1];
      LastMoveIsOwn(init, id);
      var mine := Of(init, id) + [last];
      assert mine[|mine| - 1] == last && mine[..|mine| - 1] == Of(init, id);
      assert Of(init, id) + [] == Of(init, id);
    }
  }

  /** What the client makes of any list of operations, and what the server has. */
  lemma BothEnds(root: Root, r: Room, ops: seq<OpRecord>, nowMs: int)
    requires r.arena.p1.id != r.arena.p2.id && r.started && !r.finished
             && TickSection(root, r, nowMs).outcome.Broadcast?
    ensures var a', r' := r.arena.(tick := r.arena.tick + 1), TickSection(root, r, nowMs).room;
            var b := Walk(root, ApplyAll(root, a', ops));
            && ApplyFrame(root, Mirror(r.arena), BuildFrame(r', false).(ops := ops))
               == Mirror(b).(fs := CheckDeaths(Mirror(b).fs))
            && r'.arena == Walk(root, ApplyAll(root, a', r.pending))
  {
    var a' := r.arena.(tick := r.arena.tick + 1);
    SurvivorsOf(root, r, nowMs);
    MirrorRecords(root, a', ops);
    RecordsKeepStage(root, a', ops);
    var frame := BuildFrame(TickSection(root, r, nowMs).room, false).(ops := ops);
    assert Mirror(r.arena).(frameSeq := frame.seqNo) == Mirror(a');
    MirrorGet(r.arena, First);
    FrameSteps(root, Mirror(r.arena), frame, Mirror(ApplyAll(root, a', ops)));
    WalkInMirror(root, ApplyAll(root, a', ops));
  }

  lemma DifferentMoves(m: Op, m': Op)
    requires m.Move? && m'.Move? && m != m'
    ensures m.dx * CELL_W != m'.dx * CELL_W || m.dy * CELL_H != m'.dy * CELL_H
  {
  }

  lemma LastMoveOfSnoc(recs: seq<OpRecord>, rec: OpRecord)
    requires rec.op.Move?
    ensures W.LastMove(recs + [rec], rec.player) == Some(rec.op)
  {
    assert (recs + [rec])[..|recs|] == recs;
  }

  /* ---------- two orders of one batch ---------- */

  lemma {:induction false} LastMoveExists(recs: seq<OpRecord>, id: int)
    ensures W.LastMove(recs, id).Some? <==> exists rec :: rec in recs && rec.player == id && rec.op.Move?
  {
    if recs != [] {
      var init, last := recs[..|recs| - 1], recs[|recs| - 1];
      LastMoveExists(init, id);
      assert forall rec :: rec in recs <==> rec in init || rec == last;
    }
  }

  lemma LastMoveOfPermutation(recs: seq<OpRecord>, recs': seq<OpRecord>, id: int)
    requires multiset(recs) == multiset(recs')
    ensures W.LastMove(recs, id).Some? == W.LastMove(recs', id).Some?
  {
    LastMoveExists(recs, id);
    LastMoveExists(recs', id);
    assert forall rec :: rec in recs <==> rec in multiset(recs);
    assert forall rec :: rec in recs' <==> rec in multiset(recs');
  }

  predicate SameSteps(f: Fighter, g: Fighter) {
    f.stepDx == g.stepDx && f.stepDy == g.stepDy && f.stepping == g.stepping
  }

  /** Two outcomes of a batch for one player: only health, score and the displacement of a walk may differ. */
  ghost predicate Comparable(f: Fighter, g: Fighter) {
    && g.id == f.id && g.x == f.x && g.y == f.y && g.alive == f.alive && g.lastAtk == f.lastAtk
    && g.lastSkill == f.lastSkill
    && (SameSteps(f, g) || (f.alive && f.stepping && g.stepping))
    && (!f.alive ==> f.hp == g.hp)
  }

  lemma HpDoesNotMove(root: Root, s: Puppet, hp: int)
    ensures StepPuppet(root, s.(hp := hp)) == StepPuppet(root, s).(hp := hp)
  {
  }

  lemma SameStepsAgree(root: Root, f: Fighter, g: Fighter)
    requires Comparable(f, g) && SameSteps(f, g) && (g.alive ==> 0 < g.hp)
    ensures CheckDeath(PuppetOf(Advance(root, f))) == PuppetOf(Advance(root, g)) <==> f.hp == g.hp
  {
    MirrorAdvance(root, f);
    MirrorAdvance(root, g);
    assert PuppetOf(f) == PuppetOf(g).(hp := f.hp);
    HpDoesNotMove(root, PuppetOf(g), f.hp);
    Laws.AdvanceKeepsRecord(root, f);
    Laws.AdvanceKeepsRecord(root, g);
  }

  /** What the client makes of f is what the server makes of g exactly if the two walk alike and have the same hp. */
  lemma FightersAgree(root: Root, f: Fighter, g: Fighter)
    requires IsSqrt(root) && Comparable(f, g) && (g.alive ==> 0 < g.hp)
    ensures CheckDeath(PuppetOf(Advance(root, f))) == PuppetOf(Advance(root, g)) <==> SameSteps(f, g) && f.hp == g.hp
  {
    if SameSteps(f, g) {
      SameStepsAgree(root, f, g);
    } else {
      StepsStayDifferent(root, f, g);
    }
  }

  /** For side s the two lists come to the same: its last move, if it lives, and the damage it takes. */
  predicate SameForSide(root: Root, a: Arena, ops: seq<OpRecord>, ops': seq<OpRecord>, s: Side) {
    && (a.Get(s).alive ==> W.LastMove(ops, a.Get(s).id) == W.LastMove(ops', a.Get(s).id))
    && Damage(root, a, ops, s) == Damage(root, a, ops', s)
  }

  lemma LivingSide(root: Root, a: Arena, ops: seq<OpRecord>, ops': seq<OpRecord>, s: Side)
    requires a.p1.id != a.p2.id && a.Get(s).alive && multiset(ops) == multiset(ops')
    ensures var f, g, id := ApplyAll(root, a, ops).Get(s), ApplyAll(root, a, ops').Get(s), a.Get(s).id;
            && Comparable(f, g) && (SameSteps(f, g) <==> W.LastMove(ops, id) == W.LastMove(ops', id))
  {
    var id := a.Get(s).id;
    BatchHasEffect(root, a, ops);
    BatchHasEffect(root, a, ops');
    FirstsOfPermutation(ops, ops', id);
    LastMoveOfPermutation(ops, ops', id);
    RecordsKeepStage(root, a, ops);
    RecordsKeepStage(root, a, ops');
    W.BatchMotion(root, a, ops, s);
    W.BatchMotion(root, a, ops', s);
    W.LastMoveIsMove(ops, id);
    W.LastMoveIsMove(ops', id);
    if W.LastMove(ops, id).Some? && W.LastMove(ops, id) != W.LastMove(ops', id) {
      DifferentMoves(W.LastMove(ops, id).value, W.LastMove(ops', id).value);
    }
  }

  lemma SideOfOrders(root: Root, a: Arena, ops: seq<OpRecord>, ops': seq<OpRecord>, s: Side)
    requires IsSqrt(root) && a.p1.id != a.p2.id && multiset(ops) == multiset(ops')
    requires FirstDead(Walk(root, ApplyAll(root, a, ops'))).None?
    ensures SideAgrees(root, ApplyAll(root, a, ops), ApplyAll(root, a, ops'), s) <==> SameForSide(root, a, ops, ops', s)
  {
    var f, g := ApplyAll(root, a, ops).Get(s), ApplyAll(root, a, ops').Get(s);
    BatchHasEffect(root, a, ops);
    BatchHasEffect(root, a, ops');
    Laws.AdvanceKeepsRecord(root, g);
    if a.Get(s).alive {
      LivingSide(root, a, ops, ops', s);
    } else {
      DeadAreLeftAlone(root, a, ops, s);
      DeadAreLeftAlone(root, a, ops', s);
    }
    FightersAgree(root, f, g);
  }

  lemma OrdersDecide(root: Root, a: Arena, ops: seq<OpRecord>, ops': seq<OpRecord>)
    requires IsSqrt(root) && a.p1.id != a.p2.id && multiset(ops) == multiset(ops')
    requires FirstDead(Walk(root, ApplyAll(root, a, ops'))).None?
    ensures var b := Walk(root, ApplyAll(root, a, ops));
            Mirror(b).(fs := CheckDeaths(Mirror(b).fs)) == Mirror(Walk(root, ApplyAll(root, a, ops'))) <==>
            SameForSide(root, a, ops, ops', First) && SameForSide(root, a, ops, ops', Second)
  {
    RecordsKeepStage(root, a, ops);
    RecordsKeepStage(root, a, ops');
    WalkInMirror(root, ApplyAll(root, a, ops));
    WalkInMirror(root, ApplyAll(root, a, ops'));
    SidesDecide(Walk(root, ApplyAll(root, a, ops)), Walk(root, ApplyAll(root, a, ops')));
    SideOfOrders(root, a, ops, ops', First);
    SideOfOrders(root, a, ops, ops', Second);
  }

  /** A client in step that gets the operations of a tick's frame in this order is in step afterwards. */
  ghost predicate KeepsStep(root: Root, r: Room, ops: seq<OpRecord>, nowMs: int)
    requires r.arena.p1.id != r.arena.p2.id
  {
    var r' := TickSection(root, r, nowMs).room;
    ApplyFrame(root, Mirror(r.arena), BuildFrame(r', false).(ops := ops)) == Mirror(r'.arena)
  }

  /**
   Which frame orders are harmless. A tick of a running room makes a frame, and a client in step gets its
   operations in any order at all. It is in step afterwards if and only if for each side its last move, if it
   lives, is the same in both orders, and so is the damage it takes: 10 from a living player's first attack
   if that names it, finds it alive within 8 and has a free cooldown, 25 from a first skill within 15.
   */
  lemma FrameOrderExactly(root: Root, r: Room, ops: seq<OpRecord>, nowMs: int)
    requires IsSqrt(root) && r.arena.p1.id != r.arena.p2.id && r.started && !r.finished
    requires TickSection(root, r, nowMs).outcome.Broadcast?
    requires multiset(ops) == multiset(BuildFrame(TickSection(root, r, nowMs).room, false).ops)
    ensures var frame := BuildFrame(TickSection(root, r, nowMs).room, false);
            var a := r.arena.(tick := r.arena.tick + 1);
            KeepsStep(root, r, ops, nowMs) <==>
            SameForSide(root, a, ops, frame.ops, First) && SameForSide(root, a, ops, frame.ops, Second)
  {
    var a := r.arena.(tick := r.arena.tick + 1);
    P.FrameOpsOf(root, r, nowMs);
    BothEnds(root, r, ops, nowMs);
    SurvivorsOf(root, r, nowMs);
    FrameOrderIsAsGood(root, a, r.pending);
    OrdersDecide(root, a, ops, SortOps(Kept(root, a, r.pending)));
  }
}
