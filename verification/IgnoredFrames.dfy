/**
 A client that waits for the answer to its match request looks at full frames only. Which other frames it
 can afford to ignore, exactly, and what that comes to in a run.
 */
module IgnoredFrames {
  import opened Options
  import opened Battle
  import opened Replica
  import opened OrderIndependence
  import opened Lockstep
  import opened LockstepRuns
  import W = Walk
  import P = LockstepPremises

  predicate Attacks(ops: seq<OpRecord>, pid: int) {
    exists k :: 0 <= k < |ops| && ops[k].player == pid && ops[k].op.Atk?
  }

  predicate UsesSkill(ops: seq<OpRecord>, pid: int) {
    exists k :: 0 <= k < |ops| && ops[k].player == pid && ops[k].op.Skill?
  }

  predicate ReadyToAttack(s: Puppet, ops: seq<OpRecord>, pid: int, seqNo: int) {
    s.alive && Attacks(ops, pid) && seqNo - s.lastAtk >= ATK_COOLDOWN_FRAMES
  }

  predicate ReadyForSkill(s: Puppet, ops: seq<OpRecord>, pid: int, seqNo: int) {
    s.alive && UsesSkill(ops, pid) && seqNo - s.lastSkill >= SKILL_COOLDOWN_FRAMES
  }

  /** A player's steps after the frame's operations. */
  function Directed(s: Puppet, ops: seq<OpRecord>, pid: int): Puppet {
    var m := W.LastMove(ops, pid);
    if s.alive && m.Some? && m.value.Move?
    then s.(stepDx := m.value.dx * CELL_W, stepDy := m.value.dy * CELL_H, stepping := true)
    else s
  }

  /** A step by (dx, dy) ends where the player stands: there is none, or the edge of the map cuts it off. */
  predicate Stays(s: Puppet, dx: real, dy: real) {
    Clamp(s.x + dx, 0.0, MAP_SIZE) == s.x && Clamp(s.y + dy, 0.0, MAP_SIZE) == s.y
  }

  /**
   Walking one tick with t's displacement ends in place with what s has left over: s stands and the way
   fits into one tick, or s walks and one full step of the way leaves just that.
   */
  predicate EndsInPlace(root: Root, s: Puppet, t: Puppet) {
    var n := Norm(root, t.stepDx, t.stepDy);
    if STEP >= n then !s.stepping && t.stepDx == s.stepDx && t.stepDy == s.stepDy && Stays(s, t.stepDx, t.stepDy)
    else
      && s.stepping && t.stepDx - Part(t.stepDx, n) == s.stepDx && t.stepDy - Part(t.stepDy, n) == s.stepDy
      && Stays(s, Part(t.stepDx, n), Part(t.stepDy, n))
  }

  /** What the frame lists for one living player shows nowhere. */
  predicate Harmless(root: Root, s: Puppet, ops: seq<OpRecord>, pid: int, seqNo: int) {
    && 0 < s.hp && !ReadyToAttack(s, ops, pid, seqNo) && !ReadyForSkill(s, ops, pid, seqNo)
    && var t := Directed(s, ops, pid); t.stepping ==> EndsInPlace(root, s, t)
  }

  ghost predicate HarmlessFrame(root: Root, fs: map<int, Puppet>, frame: Frame) {
    forall pid :: pid in fs && fs[pid].alive ==> Harmless(root, fs[pid], frame.ops, pid, frame.seqNo)
  }

  /* ---------- the operations of a frame, player by player ---------- */

  lemma ListOneMore(ops: seq<OpRecord>, op: OpRecord, pid: int)
    ensures Attacks(ops + [op], pid) <==> Attacks(ops, pid) || (op.player == pid && op.op.Atk?)
    ensures UsesSkill(ops + [op], pid) <==> UsesSkill(ops, pid) || (op.player == pid && op.op.Skill?)
    ensures W.LastMove(ops + [op], pid) == if op.player == pid && op.op.Move? then Some(op.op) else W.LastMove(ops, pid)
  {
    var more := ops + [op];
    assert more[..|ops|] == ops && more[|ops|] == op;
    if Attacks(ops, pid) {
      var k :| 0 <= k < |ops| && ops[k].player == pid && ops[k].op.Atk?;
      assert more[k] == ops[k];
    }
    if UsesSkill(ops, pid) {
      var k :| 0 <= k < |ops| && ops[k].player == pid && ops[k].op.Skill?;
      assert more[k] == ops[k];
    }
  }

  /** Everything but hp that the operations leave of player pid. */
  ghost predicate AfterOps(s: Puppet, t: Puppet, ops: seq<OpRecord>, pid: int, seqNo: int) {
    t == Directed(s, ops, pid).(hp := t.hp,
                                lastAtk := if ReadyToAttack(s, ops, pid, seqNo) then seqNo else s.lastAtk,
                                lastSkill := if ReadyForSkill(s, ops, pid, seqNo) then seqNo else s.lastSkill)
  }

  lemma OpOnPlayer(root: Root, v: World, who: int, op: Op, pid: int)
    requires pid in v.fs
    ensures var u := ApplyFsOp(root, v, who, op);
            && u.frameSeq == v.frameSeq && u.fs.Keys == v.fs.Keys
            && var s, t := v.fs[pid], u.fs[pid];
               if who != pid || !s.alive || op.Other? then t == s.(hp := t.hp)
               else if op.Move? then t == s.(stepDx := op.dx * CELL_W, stepDy := op.dy * CELL_H, stepping := true)
               else if op.Atk? then
                 t == s.(hp := t.hp,
                         lastAtk := if v.frameSeq - s.lastAtk >= ATK_COOLDOWN_FRAMES then v.frameSeq else s.lastAtk)
               else
                 t == s.(hp := t.hp,
                         lastSkill :=
                           if v.frameSeq - s.lastSkill >= SKILL_COOLDOWN_FRAMES then v.frameSeq else s.lastSkill)
  {
  }

  lemma {:induction false} OpsOnPlayer(root: Root, w: World, ops: seq<OpRecord>, pid: int)
    requires pid in w.fs
    ensures var v := ApplyFsOps(root, w, ops);
            && v.frameSeq == w.frameSeq && v.fs.Keys == w.fs.Keys
            && AfterOps(w.fs[pid], v.fs[pid], ops, pid, w.frameSeq)
  {
    if ops != [] {
      var init, last := ops[..|ops| - 1], ops[|ops| - 1];
      OpsOnPlayer(root, w, init, pid);
      assert ops == init + [last];
      ListOneMore(init, last, pid);
      OpOnPlayer(root, ApplyFsOps(root, w, init), last.player, last.op, pid);
    }
  }

  lemma OpHitsNobody(root: Root, v: World, who: int, op: Op, pid: int)
    requires pid in v.fs
    requires who in v.fs && v.fs[who].alive ==>
               && (op.Atk? ==> v.frameSeq - v.fs[who].lastAtk < ATK_COOLDOWN_FRAMES)
               && (op.Skill? ==> v.frameSeq - v.fs[who].lastSkill < SKILL_COOLDOWN_FRAMES)
    ensures var u := ApplyFsOp(root, v, who, op); pid in u.fs && u.fs[pid].hp == v.fs[pid].hp
  {
  }

  /** Nobody on the list has a free cooldown for what it lists. */
  ghost predicate NobodyReady(fs: map<int, Puppet>, ops: seq<OpRecord>, seqNo: int) {
    forall pid :: pid in fs ==> !ReadyToAttack(fs[pid], ops, pid, seqNo) && !ReadyForSkill(fs[pid], ops, pid, seqNo)
  }

  lemma {:induction false} OpsHitNobody(root: Root, w: World, ops: seq<OpRecord>, pid: int)
    requires pid in w.fs && NobodyReady(w.fs, ops, w.frameSeq)
    ensures var v := ApplyFsOps(root, w, ops); pid in v.fs && v.fs[pid].hp == w.fs[pid].hp
  {
    if ops != [] {
      var init, last := ops[..|ops| - 1], ops[|ops| - 1];
      assert ops == init + [last];
      forall p | p in w.fs
        ensures !ReadyToAttack(w.fs[p], init, p, w.frameSeq) && !ReadyForSkill(w.fs[p], init, p, w.frameSeq)
      {
        ListOneMore(init, last, p);
      }
      OpsHitNobody(root, w, init, pid);
      OpsOnPlayer(root, w, init, pid);
      if last.player in w.fs {
        ListOneMore(init, last, last.player);
        OpsOnPlayer(root, w, init, last.player);
      }
      OpHitsNobody(root, ApplyFsOps(root, w, init), last.player, last.op, pid);
    }
  }

  /* ---------- an ignored frame ---------- */

  /** The walk and the death check of a living player leave s exactly if the way ends in place. */
  lemma WalkInPlace(root: Root, s: Puppet, t: Puppet)
    requires s.alive && t.alive && t.stepping && t == s.(stepDx := t.stepDx, stepDy := t.stepDy, stepping := true)
    ensures CheckDeath(StepPuppet(root, t)) == s <==> 0 < s.hp && EndsInPlace(root, s, t)
  {
    var n := Norm(root, t.stepDx, t.stepDy);
    var dx, dy := t.stepDx, t.stepDy;
    if STEP < n { dx, dy := Part(t.stepDx, n), Part(t.stepDy, n); }
    assert Min(Max(s.x + dx, 0.0), MAP_SIZE) == Clamp(s.x + dx, 0.0, MAP_SIZE);
    assert Min(Max(s.y + dy, 0.0), MAP_SIZE) == Clamp(s.y + dy, 0.0, MAP_SIZE);
  }

  lemma StepKeepsRecord(root: Root, s: Puppet)
    ensures var t := CheckDeath(StepPuppet(root, s)); t.lastAtk == s.lastAtk && t.lastSkill == s.lastSkill
  {
  }

  /** One player under a frame. */
  lemma PlayerUnderFrame(root: Root, w: World, frame: Frame, pid: int)
    requires !frame.full && pid in w.fs
    ensures pid in ApplyFrame(root, w, frame).fs
    ensures ApplyFrame(root, w, frame).fs[pid] ==
            CheckDeath(StepPuppet(root, ApplyFsOps(root, w.(frameSeq := frame.seqNo), frame.ops).fs[pid]))
  {
    OpsOnPlayer(root, w.(frameSeq := frame.seqNo), frame.ops, pid);
  }

  lemma HarmlessChangesNothing(root: Root, w: World, frame: Frame, pid: int)
    requires !frame.full && pid in w.fs && HarmlessFrame(root, w.fs, frame)
    ensures pid in ApplyFrame(root, w, frame).fs && ApplyFrame(root, w, frame).fs[pid] == w.fs[pid]
  {
    var v := w.(frameSeq := frame.seqNo);
    var s := w.fs[pid];
    PlayerUnderFrame(root, w, frame, pid);
    OpsOnPlayer(root, v, frame.ops, pid);
    OpsHitNobody(root, v, frame.ops, pid);
    var t := Directed(s, frame.ops, pid);
    if s.alive {
      assert Harmless(root, s, frame.ops, pid, frame.seqNo);
      if t.stepping { WalkInPlace(root, s, t); }
    }
  }

  lemma UnchangedIsHarmless(root: Root, w: World, frame: Frame, pid: int)
    requires !frame.full && pid in w.fs && w.fs[pid].alive
    requires ApplyFrame(root, w, frame).fs == w.fs
    requires NobodyReady(w.fs, frame.ops, frame.seqNo)
    ensures Harmless(root, w.fs[pid], frame.ops, pid, frame.seqNo)
  {
    var v := w.(frameSeq := frame.seqNo);
    var s := w.fs[pid];
    PlayerUnderFrame(root, w, frame, pid);
    OpsOnPlayer(root, v, frame.ops, pid);
    OpsHitNobody(root, v, frame.ops, pid);
    var t := Directed(s, frame.ops, pid);
    if t.stepping { WalkInPlace(root, s, t); }
  }

  lemma UnchangedIsUnready(root: Root, w: World, frame: Frame, pid: int)
    requires !frame.full && pid in w.fs && ApplyFrame(root, w, frame).fs == w.fs
    ensures !ReadyToAttack(w.fs[pid], frame.ops, pid, frame.seqNo)
            && !ReadyForSkill(w.fs[pid], frame.ops, pid, frame.seqNo)
  {
    var v := w.(frameSeq := frame.seqNo);
    PlayerUnderFrame(root, w, frame, pid);
    OpsOnPlayer(root, v, frame.ops, pid);
    StepKeepsRecord(root, ApplyFsOps(root, v, frame.ops).fs[pid]);
  }

  /**
   Ignoring a frame that is not full loses nothing exactly if the frame is harmless: no living player is
   due to die or has a free cooldown for an attack or skill the frame lists, and whoever is walking after
   it ends in place with what was left over before.
   */
  lemma IgnoredFrame(root: Root, w: World, frame: Frame)
    requires !frame.full
    ensures ApplyFrame(root, w, frame).fs == w.fs <==> HarmlessFrame(root, w.fs, frame)
  {
    SameKeys(root, w, frame);
    if HarmlessFrame(root, w.fs, frame) {
      forall pid | pid in w.fs
        ensures pid in ApplyFrame(root, w, frame).fs && ApplyFrame(root, w, frame).fs[pid] == w.fs[pid]
      {
        HarmlessChangesNothing(root, w, frame, pid);
      }
    }
    if ApplyFrame(root, w, frame).fs == w.fs {
      forall pid | pid in w.fs
        ensures !ReadyToAttack(w.fs[pid], frame.ops, pid, frame.seqNo)
                && !ReadyForSkill(w.fs[pid], frame.ops, pid, frame.seqNo)
      {
        UnchangedIsUnready(root, w, frame, pid);
      }
      forall pid | pid in w.fs && w.fs[pid].alive ensures Harmless(root, w.fs[pid], frame.ops, pid, frame.seqNo) {
        UnchangedIsHarmless(root, w, frame, pid);
      }
    }
  }

  /* ---------- what that means for one player ---------- */

  /** For a player who stands: its last move, if any, repeats the step left over and ends where it stands. */
  lemma HarmlessStander(root: Root, s: Puppet, ops: seq<OpRecord>, pid: int, seqNo: int)
    requires s.alive && !s.stepping
    ensures Harmless(root, s, ops, pid, seqNo) <==>
            && 0 < s.hp && !ReadyToAttack(s, ops, pid, seqNo) && !ReadyForSkill(s, ops, pid, seqNo)
            && var m := W.LastMove(ops, pid);
               m.Some? && m.value.Move? ==>
                 && m.value.dx * CELL_W == s.stepDx && m.value.dy * CELL_H == s.stepDy
                 && Norm(root, s.stepDx, s.stepDy) <= STEP && Stays(s, s.stepDx, s.stepDy)
  {
  }

  /**
   For a player who walks: never unless the frame lists a new move, exactly 3 longer than what was left, the
   first step of which the edge of the map cuts off on each axis on which it goes anywhere.
   */
  lemma HarmlessWalker(root: Root, s: Puppet, ops: seq<OpRecord>, pid: int, seqNo: int)
    requires IsSqrt(root) && s.alive && s.stepping && Harmless(root, s, ops, pid, seqNo)
    ensures var m := W.LastMove(ops, pid);
            && m.Some? && m.value.Move?
            && Norm(root, m.value.dx * 2.0, m.value.dy * 4.0) == Norm(root, s.stepDx, s.stepDy) + 3.0
            && (m.value.dx < 0.0 ==> s.x == 0.0) && (m.value.dx > 0.0 ==> s.x == 100.0)
            && (m.value.dy < 0.0 ==> s.y == 0.0) && (m.value.dy > 0.0 ==> s.y == 100.0)
  {
    var t := Directed(s, ops, pid);
    var n := Norm(root, t.stepDx, t.stepDy);
    W.RestLength(root, t.stepDx, t.stepDy);
    PartGoes(t.stepDx, n);
    PartGoes(t.stepDy, n);
  }

  /** A full step goes the way of the displacement. */
  lemma PartGoes(d: real, n: real)
    requires STEP < n
    ensures (d < 0.0 <==> Part(d, n) < 0.0) && (d > 0.0 <==> Part(d, n) > 0.0)
  {
    var c := STEP / n;
    assert c * n == STEP;
    assert 0.0 < c;
  }

  lemma {:induction false} OpsKeepKeys(root: Root, w: World, ops: seq<OpRecord>)
    ensures ApplyFsOps(root, w, ops).fs.Keys == w.fs.Keys
  {
    if ops != [] {
      var init, last := ops[..|ops| - 1], ops[|ops| - 1];
      OpsKeepKeys(root, w, init);
      OpKeepsKeys(root, ApplyFsOps(root, w, init), last.player, last.op);
    }
  }

  lemma OpKeepsKeys(root: Root, v: World, who: int, op: Op)
    ensures ApplyFsOp(root, v, who, op).fs.Keys == v.fs.Keys
  {
  }

  lemma SameKeys(root: Root, w: World, frame: Frame)
    requires !frame.full
    ensures ApplyFrame(root, w, frame).fs.Keys == w.fs.Keys
  {
    OpsKeepKeys(root, w.(frameSeq := frame.seqNo), frame.ops);
  }

  /** One more frame goes unseen, after others that changed nothing. */
  lemma OneMoreIgnored(root: Root, w: World, ignored: seq<Frame>, frame: Frame)
    requires !frame.full && Replay(root, w, ignored).fs == w.fs
    ensures Replay(root, w, ignored + [frame]).fs == w.fs <==> HarmlessFrame(root, w.fs, frame)
  {
    ReplayOne(root, w, ignored, frame);
    IgnoredFrame(root, Replay(root, w, ignored), frame);
  }

  lemma {:induction false} HarmlessFramesChangeNothing(root: Root, w: World, ignored: seq<Frame>, n: nat)
    requires n <= |ignored|
    requires forall k :: 0 <= k < n ==> !ignored[k].full && HarmlessFrame(root, w.fs, ignored[k])
    ensures Replay(root, w, ignored[..n]).fs == w.fs
  {
    if n != 0 {
      HarmlessFramesChangeNothing(root, w, ignored, n - 1);
      OneMoreIgnored(root, w, ignored[..n - 1], ignored[n - 1]);
      assert ignored[..n] == ignored[..n - 1] + [ignored[n - 1]];
    }
  }

  /** Any number of harmless frames may go unseen: the client is back in step with the next one. */
  lemma HarmlessFramesMayBeIgnored(root: Root, w: World, ignored: seq<Frame>, next: Frame)
    requires forall k :: 0 <= k < |ignored| ==> !ignored[k].full && HarmlessFrame(root, w.fs, ignored[k])
    ensures Replay(root, w, ignored).fs == w.fs
    ensures Replay(root, w, ignored + [next]) == ApplyFrame(root, w, next)
  {
    HarmlessFramesChangeNothing(root, w, ignored, |ignored|);
    assert ignored[..|ignored|] == ignored;
    ReplayOne(root, w, ignored, next);
    SameFighters(root, Replay(root, w, ignored), w, next);
  }

  lemma UnchangedIsAllHarmless(root: Root, w: World, ignored: seq<Frame>, k: nat)
    requires k < |ignored| && !ignored[k].full
    requires Replay(root, w, ignored[..k]).fs == w.fs && Replay(root, w, ignored[..k + 1]).fs == w.fs
    ensures HarmlessFrame(root, w.fs, ignored[k])
  {
    assert ignored[..k + 1] == ignored[..k] + [ignored[k]];
    OneMoreIgnored(root, w, ignored[..k], ignored[k]);
  }

  /** After the first k frames the world still is what it was. */
  ghost predicate UnchangedAt(root: Root, w: World, ignored: seq<Frame>, k: nat)
    requires k <= |ignored|
  {
    Replay(root, w, ignored[..k]).fs == w.fs
  }

  /**
   A client that ignores frame after frame, as it does while it waits, agrees after each of them with one
   that applies them if and only if all of them are harmless.
   */
  lemma IgnoredFramesExactly(root: Root, w: World, ignored: seq<Frame>)
    requires forall k :: 0 <= k < |ignored| ==> !ignored[k].full
    ensures (forall k :: 0 <= k <= |ignored| ==> UnchangedAt(root, w, ignored, k)) <==>
            (forall k :: 0 <= k < |ignored| ==> HarmlessFrame(root, w.fs, ignored[k]))
  {
    if forall k :: 0 <= k < |ignored| ==> HarmlessFrame(root, w.fs, ignored[k]) {
      forall k | 0 <= k <= |ignored| ensures UnchangedAt(root, w, ignored, k) {
        HarmlessFramesChangeNothing(root, w, ignored, k);
      }
    }
    if forall k :: 0 <= k <= |ignored| ==> UnchangedAt(root, w, ignored, k) {
      forall k | 0 <= k < |ignored| ensures HarmlessFrame(root, w.fs, ignored[k]) {
        assert UnchangedAt(root, w, ignored, k) && UnchangedAt(root, w, ignored, k + 1);
        UnchangedIsAllHarmless(root, w, ignored, k);
      }
    }
  }

  /** What a frame makes of a world does not depend on the frame number it had. */
  lemma SameFighters(root: Root, v: World, w: World, frame: Frame)
    requires v.fs == w.fs
    ensures ApplyFrame(root, v, frame) == ApplyFrame(root, w, frame)
  {
    assert v.(frameSeq := frame.seqNo) == w.(frameSeq := frame.seqNo);
  }

  /* ---------- in a run ---------- */

  /**
   In a run of atomic calls: a client in step that ignores the frame of a tick has the server's players
   afterwards exactly if that frame is harmless.
   */
  lemma SkippedFrame(
      root: Root, w: World, roomId: int, id1: int, id2: int, createdMs: int, calls: seq<Call>, tick: Call, pid: int)
    requires id1 != id2 && (pid == id1 || pid == id2) && tick.CallTick?
    requires var r := NewRoom(roomId, id1, id2, 0, createdMs);
             var s := Run(root, r, calls).room;
             && QuietOpening(root, r, calls) && s.started && !s.finished && !Do(root, s, tick).room.finished
    ensures var r := NewRoom(roomId, id1, id2, 0, createdMs);
            var s := Run(root, r, calls).room;
            var u := Do(root, s, tick).room;
            && FramesTo(Run(root, r, calls + [tick]).events, pid)
               == FramesTo(Run(root, r, calls).events, pid) + [BuildFrame(u, false)]
            && ClientAfter(root, w, r, calls + [tick], pid) == Mirror(u.arena)
            && (ClientAfter(root, w, r, calls, pid).fs == Mirror(u.arena).fs <==>
                HarmlessFrame(root, Mirror(s.arena).fs, BuildFrame(u, false)))
  {
    var r := NewRoom(roomId, id1, id2, 0, createdMs);
    QuietRunIsPresent(root, w, roomId, id1, id2, createdMs, calls, pid);
    NextFrame(root, w, r, calls, tick, pid);
    IgnoredFrame(root, Mirror(Run(root, r, calls).room.arena),
      BuildFrame(Do(root, Run(root, r, calls).room, tick).room, false));
  }

  lemma NextFrame(root: Root, w: World, r: Room, calls: seq<Call>, tick: Call, pid: int)
    requires tick.CallTick?
    requires var s := Run(root, r, calls).room;
             && s.mode == 0 && s.started && s.arena.p1.id != s.arena.p2.id
             && (pid == s.arena.p1.id || pid == s.arena.p2.id)
             && !s.finished && !Do(root, s, tick).room.finished
             && ClientAfter(root, w, r, calls, pid) == Mirror(s.arena)
    ensures var s := Run(root, r, calls).room;
            var u := Do(root, s, tick).room;
            && FramesTo(Run(root, r, calls + [tick]).events, pid)
               == FramesTo(Run(root, r, calls).events, pid) + [BuildFrame(u, false)]
            && ClientAfter(root, w, r, calls + [tick], pid) == Mirror(u.arena)
            && ApplyFrame(root, Mirror(s.arena), BuildFrame(u, false)) == Mirror(u.arena)
  {
    var t := Run(root, r, calls);
    var u := Do(root, t.room, tick);
    assert (calls + [tick])[..|calls|] == calls;
    assert Run(root, r, calls + [tick]) == Turn(u.room, t.events + u.events);
    TickSectionKeeps(root, t.room, tick.nowMs);
    FramesOfCall(root, t.room, tick, pid);
    FramesConcat(t.events, u.events, pid);
    ReplayOne(root, w, FramesTo(t.events, pid), BuildFrame(u.room, false));
    MirrorTick(root, t.room, tick.nowMs);
  }

  lemma OpenedEmpty(root: Root, r: Room, open: Call)
    requires open.CallTick? && !r.started && !r.finished && r.pending == []
    ensures Run(root, r, [open]).room ==
            Opened(r.(frameOps := [], arena := r.arena.(tick := r.arena.tick + 1)))
  {
    assert [open][..0] == [] && [open][0] == open;
    assert Run(root, r, []).room == r;
    var a := r.arena.(tick := r.arena.tick + 1);
    assert ApplyAll(root, a, []) == a && Kept(root, a, []) == [];
    assert Consumed(root, r) == r.(frameOps := [], arena := a);
    assert Run(root, r, [open]).room == Do(root, Run(root, r, []).room, open).room;
  }

  lemma OpenedAndMoved(root: Root, roomId: int, id1: int, id2: int, createdMs: int, open: Call, dx: real, dy: real)
    requires id1 != id2 && open.CallTick?
    ensures var r := NewRoom(roomId, id1, id2, 0, createdMs);
            var calls := [open] + [CallSubmit(id1, Move(dx, dy))];
            var s := Run(root, r, calls).room;
            && QuietOpening(root, r, calls)
            && s == Opened(r.(arena := r.arena.(tick := 1))).(pending := [OpRecord(id1, Move(dx, dy))])
  {
    var r := NewRoom(roomId, id1, id2, 0, createdMs);
    var submit := CallSubmit(id1, Move(dx, dy));
    var calls := [open] + [submit];
    OpenedEmpty(root, r, open);
    assert calls[..1] == [open] && calls[1] == submit && calls[..0] == [] && calls[0] == open;
    assert Run(root, r, calls).room == Do(root, Run(root, r, [open]).room, submit).room;
    assert Run(root, r, []).room == r;
    assert QuietCall(root, r, calls, 0) && QuietCall(root, r, calls, 1);
  }

  lemma MoveShows(root: Root, fs: map<int, Puppet>, frame: Frame, pid: int, dx: real, dy: real)
    requires pid in fs && fs[pid].alive && !fs[pid].stepping && fs[pid].stepDx == 0.0 && fs[pid].stepDy == 0.0
             && (dx != 0.0 || dy != 0.0)
    requires frame.ops == [OpRecord(pid, Move(dx, dy))]
    ensures !HarmlessFrame(root, fs, frame)
  {
    assert W.LastMove(frame.ops, pid) == Some(Move(dx, dy));
    assert !Harmless(root, fs[pid], frame.ops, pid, frame.seqNo);
  }

  /**
   A battle of two ticks: the first player moves, anywhere. A client that got the full frame and ignores
   the second one is out of step, one that applies it is not.
   */
  lemma DroppedMoveBreaksLockstep(
      root: Root, w: World, roomId: int, id1: int, id2: int, createdMs: int, open: Call, dx: real, dy: real,
      tick: Call, pid: int)
    requires id1 != id2 && (pid == id1 || pid == id2) && open.CallTick? && tick.CallTick?
    requires tick.nowMs - createdMs <= 60000 && (dx != 0.0 || dy != 0.0)
    ensures var r := NewRoom(roomId, id1, id2, 0, createdMs);
            var calls := [open] + [CallSubmit(id1, Move(dx, dy))];
            var server := Mirror(Run(root, r, calls + [tick]).room.arena);
            && ClientAfter(root, w, r, calls + [tick], pid) == server
            && |FramesTo(Run(root, r, calls + [tick]).events, pid)| == |FramesTo(Run(root, r, calls).events, pid)| + 1
            && ClientAfter(root, w, r, calls, pid).fs != server.fs
  {
    var r := NewRoom(roomId, id1, id2, 0, createdMs);
    var rec := OpRecord(id1, Move(dx, dy));
    var calls := [open] + [CallSubmit(id1, Move(dx, dy))];
    OpenedAndMoved(root, roomId, id1, id2, createdMs, open, dx, dy);
    var s := Run(root, r, calls).room;
    P.CalmTickGoesOut(root, s, id1, tick.nowMs);
    TickGoesOut(root, s, tick);
    RunSnoc(root, r, calls, tick);
    SkippedFrame(root, w, roomId, id1, id2, createdMs, calls, tick, pid);
    OneRecordFrame(root, s, rec, tick.nowMs);
    MirrorGet(s.arena, First);
    MoveShows(root, Mirror(s.arena).fs, BuildFrame(Do(root, s, tick).room, false), id1, dx, dy);
  }

  lemma RunSnoc(root: Root, r: Room, calls: seq<Call>, call: Call)
    ensures Run(root, r, calls + [call]).room == Do(root, Run(root, r, calls).room, call).room
  {
    assert (calls + [call])[..|calls|] == calls;
  }

  lemma TickGoesOut(root: Root, r: Room, tick: Call)
    requires tick.CallTick? && !r.finished && TickSection(root, r, tick.nowMs).outcome.Broadcast?
    ensures Do(root, r, tick).room == TickSection(root, r, tick.nowMs).room && !Do(root, r, tick).room.finished
  {
    TickSectionKeeps(root, r, tick.nowMs);
  }

  lemma OneRecordFrame(root: Root, r: Room, rec: OpRecord, nowMs: int)
    requires !r.finished && r.pending == [rec] && Heard(r.arena, rec)
    ensures BuildFrame(TickSection(root, r, nowMs).room, false).ops == [rec]
  {
    var a := r.arena.(tick := r.arena.tick + 1);
    assert Heard(a, rec);
    P.OneKept(root, a, rec);
    P.FrameOpsOf(root, r, nowMs);
    assert SortOps([rec]) == [rec] by {
      assert [rec][..0] == [] && SortOps([]) == [];
    }
  }
}
