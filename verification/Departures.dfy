/**
 A departure ends the battle. Whatever is queued, a player of an unfinished room who leaves is dead from then
 on and has lost; with calls cut at the mutex, the thread that noticed it settles the room unless another
 thread does so first.
 */
module Departures {
  import opened Options
  import opened Battle
  import opened OrderIndependence
  import opened Settlement
  import Laws = BattleLaws

  /** r after this player has left it, the first of the two if both have that id. */
  function Departed(r: Room, player: int): Room {
    r.(arena := if player == r.arena.p1.id then r.arena.(p1 := r.arena.p1.(alive := false, hp := 0))
                else r.arena.(p2 := r.arena.p2.(alive := false, hp := 0)))
  }

  /** Who plays against this player. */
  function Opponent(r: Room, player: int): int {
    if player == r.arena.p1.id then r.arena.p2.id else r.arena.p1.id
  }

  /** The player is in the room and has not lost it yet. */
  predicate CanLeave(r: Room, player: int) {
    && !r.finished
    && (if player == r.arena.p1.id then r.arena.p1.alive else player == r.arena.p2.id && r.arena.p2.alive)
  }

  lemma QuitLeaves(r: Room, player: int)
    ensures QuitSection(r, player) ==
            if CanLeave(r, player) then Section(Departed(r, player), Settle(Opponent(r, player), player, OpponentLeft))
            else Section(r, Nothing)
  {
  }

  /* ---------- atomic calls ---------- */

  lemma {:induction false} NamesStay(root: Root, r: Room, calls: seq<Call>)
    ensures var s := Run(root, r, calls).room;
            && s.arena.p1.id == r.arena.p1.id && s.arena.p2.id == r.arena.p2.id
            && s.roomId == r.roomId && s.createdMs == r.createdMs && s.mode == r.mode
  {
    if calls != [] {
      var init, last := calls[..|calls| - 1], calls[|calls| - 1];
      NamesStay(root, r, init);
      CallKeepsNames(root, Run(root, r, init).room, last);
    }
  }

  lemma CallKeepsNames(root: Root, r: Room, call: Call)
    ensures var s := Do(root, r, call).room;
            && s.arena.p1.id == r.arena.p1.id && s.arena.p2.id == r.arena.p2.id
            && s.roomId == r.roomId && s.createdMs == r.createdMs && s.mode == r.mode
  {
    if call.CallTick? { RecordsKeepStage(root, r.arena.(tick := r.arena.tick + 1), r.pending); }
  }

  /**
   In every run of atomic calls, of whatever mode and with whatever operations waiting: if a player of the
   unfinished room leaves, the room is finished, that player dead at 0 hp has lost to the other one, and
   nothing else in it has changed. Anybody else's departure, and any from a finished room, changes nothing.
   */
  lemma DepartureEndsBattle(
      root: Root, roomId: int, id1: int, id2: int, mode: int, createdMs: int, calls: seq<Call>, player: int, clock: int)
    ensures var r := Run(root, NewRoom(roomId, id1, id2, mode, createdMs), calls).room;
            var t := Do(root, r, CallQuit(player, clock));
            if !r.finished && (player == id1 || player == id2)
            then t.room == Departed(r, player).(finished := true, finishMs := clock, reason := OpponentLeft,
                                            loser := player, winner := if player == id1 then id2 else id1)
            else t == Turn(r, [])
  {
    var start := NewRoom(roomId, id1, id2, mode, createdMs);
    Laws.RunIsSound(root, start, calls);
    NamesStay(root, start, calls);
    QuitLeaves(Run(root, start, calls).room, player);
  }

  /* ---------- any threads ---------- */

  /** A thread that starts on a departure buries the player at once and is then on its way to settle the room. */
  lemma DepartureIsNoticed(root: Root, sys: System, tid: nat, player: int)
    requires tid !in sys.threads
    ensures Act(root, sys, StartQuit(tid, player)) ==
            if CanLeave(sys.room, player)
            then System(Departed(sys.room, player),
                        sys.threads[tid := Finishing(Opponent(sys.room, player), player, OpponentLeft)], sys.log)
            else sys
  {
    QuitLeaves(sys.room, player);
  }

  predicate GoesOn(acts: seq<Action>, tid: nat) {
    exists k :: 0 <= k < |acts| && acts[k].Go? && acts[k].tid == tid
  }

  lemma ThreadWaits(root: Root, sys: System, act: Action, tid: nat)
    requires tid in sys.threads && sys.threads[tid].Finishing? && !(act.Go? && act.tid == tid)
    ensures tid in Act(root, sys, act).threads && Act(root, sys, act).threads[tid] == sys.threads[tid]
  {
  }

  lemma ThreadFinishes(root: Root, sys: System, tid: nat, clock: int)
    requires tid in sys.threads && sys.threads[tid].Finishing?
    ensures Act(root, sys, Go(tid, clock)).room.finished
  {
  }

  lemma {:induction false} FinisherGetsThrough(root: Root, sys: System, tid: nat, acts: seq<Action>)
    requires tid in sys.threads && sys.threads[tid].Finishing?
    ensures var s := Exec(root, sys, acts);
            if GoesOn(acts, tid) then s.room.finished else tid in s.threads && s.threads[tid] == sys.threads[tid]
  {
    if acts != [] {
      var init, act := acts[..|acts| - 1], acts[|acts| - 1];
      FinisherGetsThrough(root, sys, tid, init);
      assert acts == init + [act] && acts[|init|] == act;
      var s := Exec(root, sys, init);
      if GoesOn(init, tid) {
        var k :| 0 <= k < |init| && init[k].Go? && init[k].tid == tid;
        assert acts[k].Go? && acts[k].tid == tid;
        ActIsLater(root, s, act);
      } else if act.Go? && act.tid == tid {
        ThreadFinishes(root, s, tid, act.clock);
        assert GoesOn(acts, tid);
      } else {
        ThreadWaits(root, s, act, tid);
      }
    }
  }

  /**
   From the moment a living player leaves an unfinished room it stays dead, and the room is finished once the
   thread that noticed it has taken one more step, whatever other threads do before or after.
   */
  lemma DepartureIsSettled(root: Root, sys: System, tid: nat, player: int, acts: seq<Action>)
    requires tid !in sys.threads && CanLeave(sys.room, player)
    ensures var s := Exec(root, Act(root, sys, StartQuit(tid, player)), acts);
            && (if player == sys.room.arena.p1.id then !s.room.arena.p1.alive else !s.room.arena.p2.alive)
            && if GoesOn(acts, tid) then s.room.finished
               else tid in s.threads && s.threads[tid] == Finishing(Opponent(sys.room, player), player, OpponentLeft)
  {
    DepartureIsNoticed(root, sys, tid, player);
    var s := Act(root, sys, StartQuit(tid, player));
    FinisherGetsThrough(root, s, tid, acts);
    IdsStay(root, s, acts);
  }
}
