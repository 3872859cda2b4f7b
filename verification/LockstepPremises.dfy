/**
 What two premises of lockstep are for: no move at the opening, and no departure between its locked section
 and its settlement. Each failure is shown for a whole family of rooms. FrameOrder and IgnoredFrames are
 about two more premises, a frame order that is stable and a client that looks at every frame.
 */
module LockstepPremises {
  import opened Options
  import opened Battle
  import opened Replica
  import opened OrderIndependence
  import opened Batches
  import opened Lockstep
  import opened LockstepRuns
  import opened S = Settlement

  /* ---------- a move at the opening ---------- */

  lemma SubmitFirst(root: Root, r: Room, player: int, op: Op)
    requires !r.finished && r.arena.Find(player).Some? && r.pending == []
    ensures Run(root, r, [CallSubmit(player, op)]).room == r.(pending := [OpRecord(player, op)])
  {
    var submit := CallSubmit(player, op);
    assert [submit][..0] == [] && [submit][0] == submit;
    assert Run(root, r, []).room == r;
    assert Run(root, r, [submit]).room == Do(root, Run(root, r, []).room, submit).room;
  }

  /** Any move sent before the first tick will do: the server remembers it, the client does not. */
  lemma OpeningMoveBreaksLockstep(
      root: Root, w: World, roomId: int, id1: int, id2: int, createdMs: int, move: Op, nowMs: int, finishMs: int)
    requires id1 != id2 && move.Move?
    ensures !InStep(root, w, NewRoom(roomId, id1, id2, 0, createdMs),
                    [CallSubmit(id1, move)] + [CallTick(nowMs, finishMs)], id1)
  {
    var r, submit := NewRoom(roomId, id1, id2, 0, createdMs), CallSubmit(id1, move);
    SubmitFirst(root, r, id1, move);
    var s := Run(root, r, [submit]).room;
    assert Heard(s.arena, s.pending[0]) && s.pending[0].op.Move?;
    LoudTick(root, w, r, [submit], CallTick(nowMs, finishMs), id1);
  }

  /* ---------- a departure that is not settled yet ---------- */

  predicate Peaceful(recs: seq<OpRecord>) {
    forall k :: 0 <= k < |recs| ==> recs[k].op.Move? || recs[k].op.Other?
  }

  lemma {:induction false} PeaceHurtsNobody(root: Root, a: Arena, recs: seq<OpRecord>)
    requires Peaceful(recs)
    ensures var b := ApplyAll(root, a, recs); b.p1.hp == a.p1.hp && b.p2.hp == a.p2.hp
  {
    if recs != [] { PeaceHurtsNobody(root, a, recs[..|recs| - 1]); }
  }

  lemma {:induction false} PeaceListsNoAttack(recs: seq<OpRecord>, id: int)
    requires Peaceful(recs)
    ensures FirstAttack(recs, id) == None && FirstSkill(recs, id) == None
  {
    if recs != [] { PeaceListsNoAttack(recs[..|recs| - 1], id); }
  }

  /** Both players are in the battle, nobody is about to be hurt, and the clock has not run out. */
  ghost predicate Calm(r: Room, nowMs: int) {
    && r.started && !r.finished && r.arena.p1.alive && r.arena.p2.alive && 1 <= r.arena.p1.hp && 1 <= r.arena.p2.hp
    && Peaceful(r.pending) && nowMs - r.createdMs <= 60000
  }

  lemma CalmTickGoesOut(root: Root, r: Room, player: int, nowMs: int)
    requires Calm(r, nowMs)
    ensures TickSection(root, r, nowMs).outcome.Broadcast?
    ensures TickSection(root, QuitSection(r, player).room, nowMs).outcome.Broadcast?
  {
    var q := QuitSection(r, player).room;
    PeaceHurtsNobody(root, r.arena.(tick := r.arena.tick + 1), r.pending);
    PeaceHurtsNobody(root, q.arena.(tick := q.arena.tick + 1), q.pending);
    RecordsKeepStage(root, r.arena.(tick := r.arena.tick + 1), r.pending);
    RecordsKeepStage(root, q.arena.(tick := q.arena.tick + 1), q.pending);
  }

  lemma DepartureIsUnguarded(root: Root, a: Arena, r: Room, s: Side, nowMs: int)
    requires Calm(r, nowMs) && r.arena.p1.id != r.arena.p2.id && Shadow(a, r.arena)
    ensures !Guard(root, a, QuitSection(r, r.arena.Get(s).id).room)
  {
    var q := QuitSection(r, r.arena.Get(s).id).room;
    assert q.arena == Bury(r.arena, s);
    PeaceListsNoAttack(q.pending, a.Get(s.Other()).id);
    assert Vanished(a.Get(s), q.arena.Get(s)) && !Unnoticed(root, a, q, s);
  }

  /**
   In any calm battle it is enough that a player leaves and the next tick comes before the departure is
   settled: the frame that goes out leaves the client with a living player the server has as dead.
   */
  lemma DepartureInGapBreaksLockstep(
      root: Root, w: World, roomId: int, id1: int, id2: int, createdMs: int, acts: seq<Action>, ticker: nat, tid: nat,
      s: Side, nowMs: int)
    requires id1 != id2 && OneTicker(acts, ticker) && tid != ticker
    requires var sys := S.Idle(NewRoom(roomId, id1, id2, 0, createdMs));
             && (forall k :: 0 <= k < |acts| ==> GuardedAt(root, sys, acts, k))
             && Calm(Exec(root, sys, acts).room, nowMs)
             && ticker !in Exec(root, sys, acts).threads && tid !in Exec(root, sys, acts).threads
    ensures var sys := S.Idle(NewRoom(roomId, id1, id2, 0, createdMs));
            var quit := StartQuit(tid, Exec(root, sys, acts).room.arena.Get(s).id);
            var more := acts + [quit] + [StartTick(ticker, nowMs)];
            !InStepAt(root, w, sys, more, |acts| + 1)
  {
    var sys := S.Idle(NewRoom(roomId, id1, id2, 0, createdMs));
    StartIsTracked(w, roomId, id1, id2, createdMs, ticker);
    RunTracks(root, w, sys, acts, |acts|, ticker);
    assert acts[..|acts|] == acts;
    GapStep(root, w, sys, acts, ticker, tid, s, nowMs);
  }

  lemma GapStep(root: Root, w: World, sys: System, acts: seq<Action>, ticker: nat, tid: nat, s: Side, nowMs: int)
    requires OneTicker(acts, ticker) && tid != ticker
    requires Tracked(Replay(root, w, Produced(root, sys, acts)), Shown(root, sys, acts), Exec(root, sys, acts), ticker)
    requires var e := Exec(root, sys, acts); Calm(e.room, nowMs) && ticker !in e.threads && tid !in e.threads
    ensures !InStepAt(root, w, sys,
                      acts + [StartQuit(tid, Exec(root, sys, acts).room.arena.Get(s).id)] + [StartTick(ticker, nowMs)],
                      |acts| + 1)
  {
    var e, a := Exec(root, sys, acts), Shown(root, sys, acts);
    var quit, tick := StartQuit(tid, e.room.arena.Get(s).id), StartTick(ticker, nowMs);
    var left := acts + [quit];
    StepTracks(root, Replay(root, w, Produced(root, sys, acts)), a, e, quit, ticker);
    SilentStep(root, sys, acts, quit);
    GapSections(root, a, e, tid, ticker, s, nowMs);
    UnguardedStep(root, w, sys, left, tick, ticker);
  }

  /** The departure's section, and then the tick's. */
  lemma GapSections(root: Root, a: Arena, e: System, tid: nat, ticker: nat, s: Side, nowMs: int)
    requires Calm(e.room, nowMs) && e.room.arena.p1.id != e.room.arena.p2.id && Shadow(a, e.room.arena)
    requires tid != ticker && ticker !in e.threads && tid !in e.threads
    ensures var t := Act(root, e, StartQuit(tid, e.room.arena.Get(s).id));
            Broadcasts(root, t, StartTick(ticker, nowMs)) && !Guard(root, a, t.room)
  {
    var player := e.room.arena.Get(s).id;
    CalmTickGoesOut(root, e.room, player, nowMs);
    DepartureIsUnguarded(root, a, e.room, s, nowMs);
    assert Act(root, e, StartQuit(tid, player)).room == QuitSection(e.room, player).room;
  }

  lemma SilentStep(root: Root, sys: System, acts: seq<Action>, act: Action)
    requires !Broadcasts(root, Exec(root, sys, acts), act)
    ensures Exec(root, sys, acts + [act]) == Act(root, Exec(root, sys, acts), act)
    ensures Shown(root, sys, acts + [act]) == Shown(root, sys, acts)
            && Produced(root, sys, acts + [act]) == Produced(root, sys, acts)
  {
    assert (acts + [act])[..|acts|] == acts && (acts + [act])[|acts|] == act;
  }

  lemma UnguardedStep(root: Root, w: World, sys: System, acts: seq<Action>, act: Action, ticker: nat)
    requires OneTicker(acts + [act], ticker)
    requires Tracked(Replay(root, w, Produced(root, sys, acts)), Shown(root, sys, acts), Exec(root, sys, acts), ticker)
    requires Broadcasts(root, Exec(root, sys, acts), act)
             && !Guard(root, Shown(root, sys, acts), Exec(root, sys, acts).room)
    ensures !InStepAt(root, w, sys, acts + [act], |acts|)
  {
    assert (acts + [act])[..|acts|] == acts && (acts + [act])[|acts|] == act;
    OneMoreStep(root, w, sys, acts + [act], |acts|, ticker);
  }

  /**
   A departure need not show: the player stands still with 10 hp or less, and the other one's attack, which
   would have killed, comes with the same frame. The client buries the player by itself.
   */
  lemma DepartureMayGoUnnoticed(root: Root, r: Room, s: Side, nowMs: int)
    requires r.arena.p1.id != r.arena.p2.id && r.started && !r.finished && r.arena.p1.alive && r.arena.p2.alive
    requires var p, o := r.arena.Get(s), r.arena.Get(s.Other());
             && p.hp <= 10 && !p.stepping && 0 < o.hp
             && r.pending == [OpRecord(o.id, Atk(p.id))] && 10 <= r.arena.tick + 1 - o.lastAtk
             && Distance(root, o.x, o.y, p.x, p.y) <= 8.0
    requires TickSection(root, QuitSection(r, r.arena.Get(s).id).room, nowMs).outcome.Broadcast?
    ensures var q := QuitSection(r, r.arena.Get(s).id).room;
            var q' := TickSection(root, q, nowMs).room;
            !q.finished && !q.arena.Get(s).alive
              && ApplyFrame(root, Mirror(r.arena), BuildFrame(q', false)) == Mirror(q'.arena)
  {
    var q := QuitSection(r, r.arena.Get(s).id).room;
    FatalAttack(root, r, s);
    assert q.arena.Get(s.Other()) == r.arena.Get(s.Other());
    GapTick(root, r.arena, q, nowMs);
  }

  lemma FatalAttack(root: Root, r: Room, s: Side)
    requires r.arena.p1.id != r.arena.p2.id && !r.finished && r.arena.p1.alive && r.arena.p2.alive
    requires var p, o := r.arena.Get(s), r.arena.Get(s.Other());
             && p.hp <= 10 && !p.stepping
             && r.pending == [OpRecord(o.id, Atk(p.id))] && 10 <= r.arena.tick + 1 - o.lastAtk
             && Distance(root, o.x, o.y, p.x, p.y) <= 8.0
    ensures Unnoticed(root, r.arena, QuitSection(r, r.arena.Get(s).id).room, s)
  {
    var a', rec := r.arena.(tick := r.arena.tick + 1), r.pending[0];
    var q := QuitSection(r, r.arena.Get(s).id).room;
    assert r.arena.Find(r.arena.Get(s).id) == Some(s);
    assert q == r.(arena := Bury(r.arena, s)) && q.arena.Get(s.Other()).alive;
    assert [rec][..0] == [] && FirstAttack([], rec.player) == None;
    assert FirstAttack([rec], rec.player) == Some(r.arena.Get(s).id);
    assert AttackDamage(root, a', s.Other(), q.pending, s) == 10;
  }

  lemma OneKept(root: Root, a: Arena, rec: OpRecord)
    requires Heard(a, rec)
    ensures Kept(root, a, [rec]) == [rec]
  {
    assert [rec][..0] == [];
    assert ApplyAll(root, a, []) == a && Kept(root, a, []) == [];
  }

  lemma FrameOpsOf(root: Root, r: Room, nowMs: int)
    requires !r.finished
    ensures BuildFrame(TickSection(root, r, nowMs).room, false).ops
            == SortOps(Kept(root, r.arena.(tick := r.arena.tick + 1), r.pending))
  {
  }
}
