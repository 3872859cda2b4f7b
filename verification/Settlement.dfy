/**
 One room under any number of threads, one step per locked section or per message sent. A call's
 thread lets go of the mutex between noticing the end of the battle, settling it, reading the result
 and sending each message, and any other thread may run in between.
 */
module Settlement {
  import opened Battle
  import opened OrderIndependence

  /** Where a call's thread stands between two locked sections. */
  datatype Pc =
    | Finishing(winner: int, loser: int, reason: Reason)  // about to call finish
    | Reading                                             // finish succeeded, about to run pushResult
    | Sending(todo: seq<Event>)                           // messages still to be sent

  datatype System = System(room: Room, threads: map<nat, Pc>, log: seq<Event>)

  datatype Action =
    | StartTick(tid: nat, nowMs: int)
    | StartQuit(tid: nat, player: int)
    | Submit(player: int, op: Op)
    | Go(tid: nat, clock: int)

  function Launch(sys: System, tid: nat, sec: Section): System {
    var s := sys.(room := sec.room);
    match sec.outcome
    case Nothing => s
    case Broadcast(events) => s.(threads := s.threads[tid := Sending(events)])
    case Settle(winner, loser, reason) => s.(threads := s.threads[tid := Finishing(winner, loser, reason)])
  }

  function Resume(sys: System, tid: nat, clock: int): System
    requires tid in sys.threads
  {
    match sys.threads[tid]
    case Finishing(winner, loser, reason) =>
      if sys.room.finished then sys.(threads := sys.threads - {tid})
      else sys.(room := FinishRoom(sys.room, winner, loser, reason, clock), threads := sys.threads[tid := Reading])
    case Reading => sys.(threads := sys.threads[tid := Sending(ResultEvents(sys.room))])
    case Sending(todo) =>
      if todo == [] then sys.(threads := sys.threads - {tid})
      else sys.(threads := sys.threads[tid := Sending(todo[1..])], log := sys.log + [todo[0]])
  }

  function Act(root: Root, sys: System, act: Action): System {
    match act
    case StartTick(tid, nowMs) => if tid in sys.threads then sys
      else Launch(sys, tid, TickSection(root, sys.room, nowMs))
    case StartQuit(tid, player) => if tid in sys.threads then sys else Launch(sys, tid, QuitSection(sys.room, player))
    case Submit(player, op) => sys.(room := SubmitOp(sys.room, player, op))
    case Go(tid, clock) => if tid in sys.threads then Resume(sys, tid, clock) else sys
  }

  function Exec(root: Root, sys: System, acts: seq<Action>): System {
    if acts == [] then sys else Act(root, Exec(root, sys, acts[..|acts| - 1]), acts[|acts| - 1])
  }

  function Idle(r: Room): System {
    System(r, map[], [])
  }

  /* ---------- verdicts ---------- */

  /** The two players, or nobody; whoever lost by a kill or by leaving is dead. */
  ghost predicate ValidVerdict(r: Room, winner: int, loser: int, reason: Reason) {
    || (winner == 0 && loser == 0 && reason == Draw)
    || (winner == r.arena.p1.id && loser == r.arena.p2.id && Deserved(r.arena.p2, reason))
    || (winner == r.arena.p2.id && loser == r.arena.p1.id && Deserved(r.arena.p1, reason))
  }

  ghost predicate Deserved(loser: Fighter, reason: Reason) {
    reason == Timeout || ((reason == Kill || reason == OpponentLeft) && !loser.alive)
  }

  /** Sections never bring anybody back to life, so a verdict stays valid while its thread waits. */
  ghost predicate Later(r: Room, s: Room) {
    && s.arena.p1.id == r.arena.p1.id && s.arena.p2.id == r.arena.p2.id
    && (!r.arena.p1.alive ==> !s.arena.p1.alive) && (!r.arena.p2.alive ==> !s.arena.p2.alive)
    && (r.finished ==> s == r)
  }

  lemma TickSectionIsLater(root: Root, r: Room, nowMs: int)
    ensures var sec := TickSection(root, r, nowMs);
            && Later(r, sec.room) && sec.room.finished == r.finished
            && (sec.outcome.Settle? ==>
               ValidVerdict(sec.room, sec.outcome.winner, sec.outcome.loser, sec.outcome.reason))
            && (sec.outcome.Broadcast? ==> NoSettlement(sec.outcome.events))
  {
    RecordsKeepStage(root, r.arena.(tick := r.arena.tick + 1), r.pending);
  }

  lemma QuitSectionIsLater(r: Room, player: int)
    ensures var sec := QuitSection(r, player);
            && Later(r, sec.room) && sec.room.finished == r.finished && !sec.outcome.Broadcast?
            && (sec.outcome.Settle? ==>
               ValidVerdict(sec.room, sec.outcome.winner, sec.outcome.loser, sec.outcome.reason))
  {
  }

  /* ---------- settlement messages ---------- */

  predicate IsSettlement(e: Event) {
    e.SubmitScore? || e.PushResult?
  }

  ghost predicate NoSettlement(events: seq<Event>) {
    forall k :: 0 <= k < |events| ==> !IsSettlement(events[k])
  }

  /** The settlement messages of a log, in order. */
  function Settled(log: seq<Event>): seq<Event> {
    if log == [] then []
    else Settled(log[..|log| - 1]) + if IsSettlement(log[|log| - 1]) then [log[|log| - 1]] else []
  }

  lemma SettledOne(log: seq<Event>, e: Event)
    ensures Settled(log + [e]) == Settled(log) + if IsSettlement(e) then [e] else []
  {
    assert (log + [e])[..|log|] == log;
  }

  /** How far the settlement has come. */
  datatype Phase = Open | Owned(tid: nat) | Done

  /** A thread that has no part in the settlement. */
  ghost predicate Bystander(r: Room, pc: Pc) {
    match pc
    case Finishing(winner, loser, reason) => ValidVerdict(r, winner, loser, reason)
    case Reading => false
    case Sending(todo) => NoSettlement(todo)
  }

  ghost predicate Inv(sys: System, phase: Phase) {
    && (sys.room.finished <==> phase != Open)
    && (sys.room.finished ==> ValidVerdict(sys.room, sys.room.winner, sys.room.loser, sys.room.reason))
    && (forall tid :: tid in sys.threads && phase != Owned(tid) ==> Bystander(sys.room, sys.threads[tid]))
    && match phase
       case Open => Settled(sys.log) == []
       case Done => Settled(sys.log) == ResultEvents(sys.room)
       case Owned(tid) =>
         && tid in sys.threads
         && match sys.threads[tid]
            case Finishing(_, _, _) => false
            case Reading => Settled(sys.log) == []
            case Sending(todo) => Settled(sys.log) + todo == ResultEvents(sys.room)
  }

  lemma VerdictsSurvive(r: Room, s: Room, pc: Pc)
    requires Later(r, s) && Bystander(r, pc)
    ensures Bystander(s, pc)
  {
  }

  lemma LaunchKeeps(sys: System, phase: Phase, tid: nat, sec: Section)
    requires Inv(sys, phase) && tid !in sys.threads && Later(sys.room, sec.room)
             && sec.room.finished == sys.room.finished
    requires sec.outcome.Settle? ==> ValidVerdict(sec.room, sec.outcome.winner, sec.outcome.loser, sec.outcome.reason)
    requires sec.outcome.Broadcast? ==> NoSettlement(sec.outcome.events)
    ensures Inv(Launch(sys, tid, sec), phase)
  {
    forall t | t in sys.threads && phase != Owned(t) ensures Bystander(sec.room, sys.threads[t]) {
      VerdictsSurvive(sys.room, sec.room, sys.threads[t]);
    }
  }

  lemma ResultIsSettlement(r: Room)
    ensures forall k :: 0 <= k < |ResultEvents(r)| ==> IsSettlement(ResultEvents(r)[k])
  {
  }

  lemma SendHead(sent: seq<Event>, todo: seq<Event>)
    requires todo != []
    ensures sent + [todo[0]] + todo[1..] == sent + todo && (sent + todo)[|sent|] == todo[0]
  {
  }

  lemma OwnerSends(sys: System, tid: nat, clock: int)
    requires Inv(sys, Owned(tid)) && sys.threads[tid].Sending?
    ensures Inv(Resume(sys, tid, clock), if sys.threads[tid].todo == [] then Done else Owned(tid))
  {
    var todo := sys.threads[tid].todo;
    if todo == [] {
      assert Settled(sys.log) + todo == Settled(sys.log);
    } else {
      ResultIsSettlement(sys.room);
      SendHead(Settled(sys.log), todo);
      SettledOne(sys.log, todo[0]);
    }
  }

  lemma BystanderSends(sys: System, phase: Phase, tid: nat, clock: int)
    requires Inv(sys, phase) && tid in sys.threads && phase != Owned(tid) && sys.threads[tid].Sending?
    ensures Inv(Resume(sys, tid, clock), phase)
  {
    var todo := sys.threads[tid].todo;
    if todo != [] {
      SettledOne(sys.log, todo[0]);
      assert Settled(sys.log) + [] == Settled(sys.log);
    }
  }

  /** The first thread through finish becomes the owner; the others find the room finished. */
  lemma FirstFinisherOwns(sys: System, phase: Phase, tid: nat, clock: int)
    requires Inv(sys, phase) && tid in sys.threads && sys.threads[tid].Finishing?
    ensures Inv(Resume(sys, tid, clock), if sys.room.finished then phase else Owned(tid))
  {
  }

  /** Every step keeps the invariant, for some next phase. */
  lemma ActKeeps(root: Root, sys: System, phase: Phase, act: Action) returns (phase': Phase)
    requires Inv(sys, phase)
    ensures Inv(Act(root, sys, act), phase')
  {
    phase' := phase;
    match act
    case StartTick(tid, nowMs) =>
      TickSectionIsLater(root, sys.room, nowMs);
      if tid !in sys.threads { LaunchKeeps(sys, phase, tid, TickSection(root, sys.room, nowMs)); }
    case StartQuit(tid, player) =>
      QuitSectionIsLater(sys.room, player);
      if tid !in sys.threads { LaunchKeeps(sys, phase, tid, QuitSection(sys.room, player)); }
    case Submit(player, op) =>
    case Go(tid, clock) =>
      if tid in sys.threads {
        match sys.threads[tid]
        case Finishing(_, _, _) =>
          FirstFinisherOwns(sys, phase, tid, clock);
          phase' := if sys.room.finished then phase else Owned(tid);
        case Reading =>
          assert Settled(sys.log) + ResultEvents(sys.room) == ResultEvents(sys.room);
        case Sending(todo) =>
          if phase == Owned(tid) {
            OwnerSends(sys, tid, clock);
            phase' := if todo == [] then Done else Owned(tid);
          } else {
            BystanderSends(sys, phase, tid, clock);
          }
      }
  }

  lemma {:induction false} ExecKeeps(root: Root, sys: System, phase: Phase, acts: seq<Action>) returns (phase': Phase)
    requires Inv(sys, phase)
    ensures Inv(Exec(root, sys, acts), phase')
  {
    phase' := phase;
    if acts != [] {
      phase' := ExecKeeps(root, sys, phase, acts[..|acts| - 1]);
      phase' := ActKeeps(root, Exec(root, sys, acts[..|acts| - 1]), phase', acts[|acts| - 1]);
    }
  }

  /* ---------- the theorems ---------- */

  /** A finished room never changes again, under any further steps of any threads. */
  lemma {:induction false} SettlementIsFinal(root: Root, sys: System, acts: seq<Action>)
    requires sys.room.finished
    ensures Exec(root, sys, acts).room == sys.room
  {
    if acts != [] { SettlementIsFinal(root, sys, acts[..|acts| - 1]); }
  }

  /**
   Exactly-once settlement. Whatever the interleaving: before the room is finished no score and no
   result is sent; afterwards what was sent is an initial part of the one settlement of the room, and
   all of it once no thread is under way.
   */
  lemma SettledExactlyOnce(root: Root, roomId: int, id1: int, id2: int, mode: int, createdMs: int, acts: seq<Action>)
    ensures var sys := Exec(root, Idle(NewRoom(roomId, id1, id2, mode, createdMs)), acts);
            && (!sys.room.finished ==> Settled(sys.log) == [])
            && (sys.room.finished ==> Settled(sys.log) <= ResultEvents(sys.room))
            && (sys.room.finished && sys.threads == map[] ==> Settled(sys.log) == ResultEvents(sys.room))
  {
    var phase := ExecKeeps(root, Idle(NewRoom(roomId, id1, id2, mode, createdMs)), Open, acts);
  }

  /** At most one thread is past finish; it alone runs pushResult. */
  lemma OneThreadSettles(
      root: Root, roomId: int, id1: int, id2: int, mode: int, createdMs: int, acts: seq<Action>, t: nat, u: nat)
    ensures var sys := Exec(root, Idle(NewRoom(roomId, id1, id2, mode, createdMs)), acts);
            t in sys.threads && u in sys.threads && Settling(sys.threads[t]) && Settling(sys.threads[u]) ==> t == u
  {
    var phase := ExecKeeps(root, Idle(NewRoom(roomId, id1, id2, mode, createdMs)), Open, acts);
  }

  /** A step on which a thread gets through finish. */
  ghost predicate SettlesNow(root: Root, sys: System, act: Action) {
    && act.Go? && act.tid in sys.threads && sys.threads[act.tid].Finishing?
    && act.tid in Act(root, sys, act).threads && Act(root, sys, act).threads[act.tid].Reading?
  }

  ghost function Settlings(root: Root, sys: System, acts: seq<Action>): nat {
    if acts == [] then 0
    else
      var init := acts[..|acts| - 1];
      Settlings(root, sys, init) + if SettlesNow(root, Exec(root, sys, init), acts[|acts| - 1]) then 1 else 0
  }

  lemma SettlingFinishes(root: Root, sys: System, act: Action)
    ensures SettlesNow(root, sys, act) ==> !sys.room.finished
    ensures Act(root, sys, act).room.finished <==> sys.room.finished || SettlesNow(root, sys, act)
  {
    match act
    case StartTick(_, nowMs) => TickSectionIsLater(root, sys.room, nowMs);
    case StartQuit(_, player) => QuitSectionIsLater(sys.room, player);
    case Submit(_, _) =>
    case Go(_, _) =>
  }

  /** Over a whole run one step at most gets a thread through finish, and one exactly if the room is finished. */
  lemma {:induction false} SettledByOneStep(root: Root, sys: System, acts: seq<Action>)
    requires !sys.room.finished
    ensures Settlings(root, sys, acts) == if Exec(root, sys, acts).room.finished then 1 else 0
  {
    if acts != [] {
      var init := acts[..|acts| - 1];
      SettledByOneStep(root, sys, init);
      SettlingFinishes(root, Exec(root, sys, init), acts[|acts| - 1]);
    }
  }

  ghost predicate Settling(pc: Pc) {
    pc.Reading? || (pc.Sending? && !NoSettlement(pc.todo))
  }

  /** Scores of a room: nothing, or ten for the winner and then one for the loser, never more. */
  lemma ScoresAreTenAndOne(root: Root, roomId: int, id1: int, id2: int, mode: int, createdMs: int, acts: seq<Action>)
    ensures var sys := Exec(root, Idle(NewRoom(roomId, id1, id2, mode, createdMs)), acts);
            var r := sys.room;
            && ScoresOf(Settled(sys.log)) <=
               (if r.winner == 0 then [] else [SubmitScore(r.winner, 10), SubmitScore(r.loser, 1)])
            && (r.finished && sys.threads == map[] ==>
                 ScoresOf(Settled(sys.log)) ==
                 if r.winner == 0 then [] else [SubmitScore(r.winner, 10), SubmitScore(r.loser, 1)])
  {
    SettledExactlyOnce(root, roomId, id1, id2, mode, createdMs, acts);
    var sys := Exec(root, Idle(NewRoom(roomId, id1, id2, mode, createdMs)), acts);
    if sys.room.finished {
      ScoresSent(sys.room, Settled(sys.log));
    } else {
      assert ScoresOf(Settled(sys.log)) == [];
    }
  }

  lemma ScoresSent(r: Room, sent: seq<Event>)
    requires sent <= ResultEvents(r)
    ensures ScoresOf(sent) <= ScoreEvents(r.winner, r.loser)
    ensures sent == ResultEvents(r) ==> ScoresOf(sent) == ScoreEvents(r.winner, r.loser)
  {
    ScoresOfPrefix(ResultEvents(r), |sent|);
    ScoresOfResult(r);
    assert ResultEvents(r)[..|sent|] == sent;
  }

  function ScoresOf(events: seq<Event>): seq<Event> {
    if events == [] then []
    else ScoresOf(events[..|events| - 1]) + if events[|events| - 1].SubmitScore? then [events[|events| - 1]] else []
  }

  lemma {:induction false} ScoresOfPrefix(events: seq<Event>, n: nat)
    requires n <= |events|
    ensures ScoresOf(events[..n]) <= ScoresOf(events)
  {
    if n < |events| {
      ScoresOfPrefix(events[..|events| - 1], n);
      assert events[..|events| - 1][..n] == events[..n];
    } else {
      assert events[..n] == events;
    }
  }

  lemma {:induction false} ScoresConcat(events: seq<Event>, more: seq<Event>)
    requires forall k :: 0 <= k < |more| ==> !more[k].SubmitScore?
    ensures ScoresOf(events + more) == ScoresOf(events)
  {
    if more == [] {
      assert events + more == events;
    } else {
      assert (events + more)[..|events + more| - 1] == events + more[..|more| - 1];
      ScoresConcat(events, more[..|more| - 1]);
    }
  }

  lemma {:induction false} AllScores(events: seq<Event>)
    requires forall k :: 0 <= k < |events| ==> events[k].SubmitScore?
    ensures ScoresOf(events) == events
  {
    if events != [] { AllScores(events[..|events| - 1]); }
  }

  lemma ScoresOfParts(scores: seq<Event>, to1: seq<Event>, to2: seq<Event>)
    requires forall k :: 0 <= k < |scores| ==> scores[k].SubmitScore?
    requires forall k :: 0 <= k < |to1| ==> !to1[k].SubmitScore?
    requires forall k :: 0 <= k < |to2| ==> !to2[k].SubmitScore?
    ensures ScoresOf(scores + to1 + to2) == scores
  {
    AllScores(scores);
    ScoresConcat(scores, to1);
    ScoresConcat(scores + to1, to2);
  }

  lemma ScoresOfResult(r: Room)
    ensures ScoresOf(ResultEvents(r)) == ScoreEvents(r.winner, r.loser)
  {
    ScoresOfParts(ScoreEvents(r.winner, r.loser), PushTo(r.arena.p1.id, ResultOf(r)),
      PushTo(r.arena.p2.id, ResultOf(r)));
  }

  /** Winner and loser are the two players, or both 0; the loser of a kill or of leaving is dead. */
  lemma VerdictIsValid(root: Root, roomId: int, id1: int, id2: int, mode: int, createdMs: int, acts: seq<Action>)
    ensures var r := Exec(root, Idle(NewRoom(roomId, id1, id2, mode, createdMs)), acts).room;
            r.finished ==>
              && ((r.winner, r.loser) == (id1, id2) || (r.winner, r.loser) == (id2, id1)
                 || (r.winner, r.loser, r.reason) == (0, 0, Draw))
              && (r.reason == Kill || r.reason == OpponentLeft ==>
                   (r.loser == id1 && !r.arena.p1.alive) || (r.loser == id2 && !r.arena.p2.alive))
  {
    var phase := ExecKeeps(root, Idle(NewRoom(roomId, id1, id2, mode, createdMs)), Open, acts);
    IdsStay(root, Idle(NewRoom(roomId, id1, id2, mode, createdMs)), acts);
  }

  lemma {:induction false} IdsStay(root: Root, sys: System, acts: seq<Action>)
    ensures Later(sys.room, Exec(root, sys, acts).room)
  {
    if acts != [] {
      IdsStay(root, sys, acts[..|acts| - 1]);
      ActIsLater(root, Exec(root, sys, acts[..|acts| - 1]), acts[|acts| - 1]);
    }
  }

  /* ---------- where a verdict comes from ---------- */

  /** Side s lost, and this is why; r is the room right after the section that noticed it. */
  ghost predicate LostBy(r: Room, nowMs: int, s: Side, reason: Reason) {
    var l, w := r.arena.Get(s), r.arena.Get(s.Other());
    match reason
    case Kill => !l.alive && l.hp == 0 && (s.Second? ==> !w.alive || 0 < w.hp)
    case OpponentLeft => !l.alive && l.hp == 0
    case Timeout => l.hp < w.hp && 60000 < nowMs - r.createdMs
    case _ => false
  }

  ghost predicate Just(r: Room, nowMs: int, winner: int, loser: int, reason: Reason) {
    || (winner == r.arena.p1.id && loser == r.arena.p2.id && LostBy(r, nowMs, Second, reason))
    || (winner == r.arena.p2.id && loser == r.arena.p1.id && LostBy(r, nowMs, First, reason))
    || (winner == 0 && loser == 0 && reason == Draw && r.arena.p1.hp == r.arena.p2.hp && 60000 < nowMs - r.createdMs)
  }

  lemma TickVerdictIsJust(root: Root, r: Room, nowMs: int)
    ensures var sec := TickSection(root, r, nowMs);
            sec.outcome.Settle? ==> Just(sec.room, nowMs, sec.outcome.winner, sec.outcome.loser, sec.outcome.reason)
  {
    if !r.finished && r.started {
      JudgeIsJust(Consumed(root, r).(arena := Walk(root, Consumed(root, r).arena)), nowMs);
    }
  }

  lemma JudgeIsJust(c: Room, nowMs: int)
    ensures var sec := Judge(c, nowMs);
            sec.outcome.Settle? ==> Just(sec.room, nowMs, sec.outcome.winner, sec.outcome.loser, sec.outcome.reason)
  {
    var sec := Judge(c, nowMs);
    if c.arena.p1.alive && c.arena.p1.hp <= 0 {
      assert LostBy(sec.room, nowMs, First, Kill);
    } else if c.arena.p2.alive && c.arena.p2.hp <= 0 {
      assert LostBy(sec.room, nowMs, Second, Kill);
    } else if nowMs - c.createdMs > TIMEOUT_MS {
      assert c.arena.p1.hp > c.arena.p2.hp ==> LostBy(sec.room, nowMs, Second, Timeout);
      assert c.arena.p1.hp < c.arena.p2.hp ==> LostBy(sec.room, nowMs, First, Timeout);
    }
  }

  /** The step starts a call whose locked section, rightly, comes to this verdict. */
  ghost predicate Notices(root: Root, sys: System, act: Action, winner: int, loser: int, reason: Reason) {
    match act
    case StartTick(tid, nowMs) =>
      var sec := TickSection(root, sys.room, nowMs);
      sec.outcome == Settle(winner, loser, reason) && Just(sec.room, nowMs, winner, loser, reason)
    case StartQuit(tid, player) =>
      var sec := QuitSection(sys.room, player);
      sec.outcome == Settle(winner, loser, reason) && reason == OpponentLeft && loser == player
        && Just(sec.room, 0, winner, loser, reason)
    case _ => false
  }

  ghost predicate HasOrigin(root: Root, sys: System, acts: seq<Action>, winner: int, loser: int, reason: Reason) {
    exists k :: 0 <= k < |acts| && Notices(root, Exec(root, sys, acts[..k]), acts[k], winner, loser, reason)
  }

  lemma OriginStays(root: Root, sys: System, acts: seq<Action>, act: Action, winner: int, loser: int, reason: Reason)
    requires HasOrigin(root, sys, acts, winner, loser, reason)
    ensures HasOrigin(root, sys, acts + [act], winner, loser, reason)
  {
    var k :| 0 <= k < |acts| && Notices(root, Exec(root, sys, acts[..k]), acts[k], winner, loser, reason);
    assert (acts + [act])[..k] == acts[..k] && (acts + [act])[k] == acts[k];
  }

  lemma FreshOrigin(root: Root, sys: System, acts: seq<Action>, act: Action, winner: int, loser: int, reason: Reason)
    requires Notices(root, Exec(root, sys, acts), act, winner, loser, reason)
    ensures HasOrigin(root, sys, acts + [act], winner, loser, reason)
  {
    var k := |acts|;
    assert (acts + [act])[..k] == acts && (acts + [act])[k] == act;
  }

  /** Threads on their way to finish, and finished rooms, carry a verdict some section came to. */
  ghost predicate Traced(root: Root, sys: System, acts: seq<Action>) {
    var s := Exec(root, sys, acts);
    && (s.room.finished ==> HasOrigin(root, sys, acts, s.room.winner, s.room.loser, s.room.reason))
    && (forall tid :: tid in s.threads && s.threads[tid].Finishing? ==>
         HasOrigin(root, sys, acts, s.threads[tid].winner, s.threads[tid].loser, s.threads[tid].reason))
  }

  /** A thread that is on its way to finish after a step was so before, or has just come to its verdict. */
  lemma NewVerdicts(root: Root, sys: System, act: Action, tid: nat)
    requires tid in Act(root, sys, act).threads && Act(root, sys, act).threads[tid].Finishing?
    ensures var pc := Act(root, sys, act).threads[tid];
            (tid in sys.threads && sys.threads[tid] == pc) || Notices(root, sys, act, pc.winner, pc.loser, pc.reason)
  {
    match act
    case StartTick(_, nowMs) => TickVerdictIsJust(root, sys.room, nowMs);
    case StartQuit(_, player) => QuitVerdictIsJust(sys.room, player);
    case Submit(_, _) =>
    case Go(_, _) =>
  }

  lemma QuitVerdictIsJust(r: Room, player: int)
    ensures var sec := QuitSection(r, player);
            sec.outcome.Settle? ==>
              && sec.outcome.reason == OpponentLeft && sec.outcome.loser == player
              && Just(sec.room, 0, sec.outcome.winner, sec.outcome.loser, OpponentLeft)
  {
    if r.arena.Find(player).Some? && QuitSection(r, player).outcome.Settle? {
      assert LostBy(QuitSection(r, player).room, 0, r.arena.Find(player).value, OpponentLeft);
    }
  }

  /** A room's verdict after a step is the one it had, or that of the thread that got through finish. */
  lemma RoomVerdict(root: Root, sys: System, act: Action)
    requires Act(root, sys, act).room.finished
    ensures var r := Act(root, sys, act).room;
            || r == sys.room
            || (act.Go? && act.tid in sys.threads && sys.threads[act.tid] == Finishing(r.winner, r.loser, r.reason))
  {
    match act
    case StartTick(_, nowMs) => TickSectionIsLater(root, sys.room, nowMs);
    case StartQuit(_, player) => QuitSectionIsLater(sys.room, player);
    case Submit(_, _) =>
    case Go(_, _) =>
  }

  lemma {:induction false} RunIsTraced(root: Root, sys: System, acts: seq<Action>)
    requires !sys.room.finished && sys.threads == map[]
    ensures Traced(root, sys, acts)
  {
    if acts != [] {
      var init, act := acts[..|acts| - 1], acts[|acts| - 1];
      RunIsTraced(root, sys, init);
      assert acts == init + [act];
      var s, t := Exec(root, sys, init), Exec(root, sys, acts);
      assert t == Act(root, s, act);
      forall tid | tid in t.threads && t.threads[tid].Finishing?
        ensures HasOrigin(root, sys, acts, t.threads[tid].winner, t.threads[tid].loser, t.threads[tid].reason)
      {
        var pc := t.threads[tid];
        NewVerdicts(root, s, act, tid);
        if Notices(root, s, act, pc.winner, pc.loser, pc.reason) {
          FreshOrigin(root, sys, init, act, pc.winner, pc.loser, pc.reason);
        } else {
          OriginStays(root, sys, init, act, pc.winner, pc.loser, pc.reason);
        }
      }
      if t.room.finished {
        RoomVerdict(root, s, act);
        OriginStays(root, sys, init, act, t.room.winner, t.room.loser, t.room.reason);
      }
    }
  }

  /**
   Every verdict was right when it was found. Whatever the interleaving, the result of a finished room is
   the one some locked section of the run came to, and at that moment the loser was down or gone, the
   winner on time had strictly more hp, or a draw was a tie.
   */
  lemma VerdictWasJust(root: Root, roomId: int, id1: int, id2: int, mode: int, createdMs: int, acts: seq<Action>)
    ensures var sys := Idle(NewRoom(roomId, id1, id2, mode, createdMs));
            var r := Exec(root, sys, acts).room;
            r.finished ==> HasOrigin(root, sys, acts, r.winner, r.loser, r.reason)
  {
    RunIsTraced(root, Idle(NewRoom(roomId, id1, id2, mode, createdMs)), acts);
  }

  /* ---------- who is alive ---------- */

  predicate Condemns(pc: Pc, id: int) {
    pc.Finishing? && pc.loser == id && (pc.reason == Kill || pc.reason == OpponentLeft)
  }

  /** A thread is on its way to settle the room against this player, who is down or gone. */
  ghost predicate Condemned(sys: System, id: int) {
    exists tid :: tid in sys.threads && Condemns(sys.threads[tid], id)
  }

  /** Nobody dies in an unfinished room without a thread on its way to say so. */
  ghost predicate DeathsAreKnown(sys: System) {
    !sys.room.finished ==>
      && (!sys.room.arena.p1.alive ==> Condemned(sys, sys.room.arena.p1.id))
      && (!sys.room.arena.p2.alive ==> Condemned(sys, sys.room.arena.p2.id))
  }

  lemma CondemnedStays(root: Root, sys: System, act: Action, id: int)
    requires Condemned(sys, id) && !Act(root, sys, act).room.finished
    ensures Condemned(Act(root, sys, act), id)
  {
    var tid :| tid in sys.threads && Condemns(sys.threads[tid], id);
    var t := Act(root, sys, act);
    SettlingFinishes(root, sys, act);
    assert tid in t.threads && Condemns(t.threads[tid], id);
  }

  /** Who dies in a section is who its outcome condemns. */
  lemma SectionCondemns(root: Root, r: Room, nowMs: int, player: int, s: Side)
    requires r.arena.Get(s).alive
    ensures var sec := TickSection(root, r, nowMs);
            !sec.room.arena.Get(s).alive ==>
              sec.outcome.Settle? && sec.outcome.loser == r.arena.Get(s).id && sec.outcome.reason == Kill
    ensures var sec := QuitSection(r, player);
            !sec.room.arena.Get(s).alive ==>
              sec.outcome.Settle? && sec.outcome.loser == r.arena.Get(s).id && sec.outcome.reason == OpponentLeft
  {
    RecordsKeepStage(root, r.arena.(tick := r.arena.tick + 1), r.pending);
  }

  lemma ActKnowsDeaths(root: Root, sys: System, act: Action, s: Side)
    requires DeathsAreKnown(sys) && !Act(root, sys, act).room.finished && !Act(root, sys, act).room.arena.Get(s).alive
    ensures Condemned(Act(root, sys, act), sys.room.arena.Get(s).id)
  {
    SettlingFinishes(root, sys, act);
    if !sys.room.arena.Get(s).alive {
      CondemnedStays(root, sys, act, sys.room.arena.Get(s).id);
    } else {
      var t := Act(root, sys, act);
      match act
      case StartTick(tid, nowMs) =>
        SectionCondemns(root, sys.room, nowMs, 0, s);
        assert tid in t.threads && Condemns(t.threads[tid], sys.room.arena.Get(s).id);
      case StartQuit(tid, player) =>
        SectionCondemns(root, sys.room, 0, player, s);
        assert tid in t.threads && Condemns(t.threads[tid], sys.room.arena.Get(s).id);
      case Submit(_, _) =>
      case Go(_, _) =>
    }
  }

  lemma ActIsLater(root: Root, sys: System, act: Action)
    ensures Later(sys.room, Act(root, sys, act).room)
  {
    match act
    case StartTick(_, nowMs) => TickSectionIsLater(root, sys.room, nowMs);
    case StartQuit(_, player) => QuitSectionIsLater(sys.room, player);
    case Submit(_, _) =>
    case Go(_, _) =>
  }

  lemma {:induction false} RunKnowsDeaths(root: Root, sys: System, acts: seq<Action>)
    requires DeathsAreKnown(sys)
    ensures DeathsAreKnown(Exec(root, sys, acts))
  {
    if acts != [] {
      var init, act := acts[..|acts| - 1], acts[|acts| - 1];
      RunKnowsDeaths(root, sys, init);
      var s, t := Exec(root, sys, init), Exec(root, sys, acts);
      ActIsLater(root, s, act);
      if !t.room.finished {
        if !t.room.arena.p1.alive { ActKnowsDeaths(root, s, act, First); }
        if !t.room.arena.p2.alive { ActKnowsDeaths(root, s, act, Second); }
      }
    }
  }

  /** In every reachable unfinished room a player is dead exactly when some thread is on its way to say so. */
  lemma DeadIffCondemned(
      root: Root, roomId: int, id1: int, id2: int, mode: int, createdMs: int, acts: seq<Action>, s: Side)
    requires id1 != id2
    ensures var sys := Exec(root, Idle(NewRoom(roomId, id1, id2, mode, createdMs)), acts);
            !sys.room.finished ==> (!sys.room.arena.Get(s).alive <==> Condemned(sys, sys.room.arena.Get(s).id))
  {
    var start := Idle(NewRoom(roomId, id1, id2, mode, createdMs));
    RunKnowsDeaths(root, start, acts);
    IdsStay(root, start, acts);
    var phase := ExecKeeps(root, start, Open, acts);
    var sys := Exec(root, start, acts);
    if !sys.room.finished && Condemned(sys, sys.room.arena.Get(s).id) {
      var tid :| tid in sys.threads && Condemns(sys.threads[tid], sys.room.arena.Get(s).id);
      assert Bystander(sys.room, sys.threads[tid]);
    }
  }

  /**
   The winner of a room that is being settled is alive exactly when no thread is on its way to settle
   against it: a second death or departure is the only thing that can come between.
   */
  lemma WinnerIsAliveExactly(
      root: Root, roomId: int, id1: int, id2: int, mode: int, createdMs: int, acts: seq<Action>, tid: nat, clock: int)
    requires id1 != id2
    requires var sys := Exec(root, Idle(NewRoom(roomId, id1, id2, mode, createdMs)), acts);
             !sys.room.finished && tid in sys.threads && sys.threads[tid].Finishing? && sys.threads[tid].reason != Draw
    ensures var sys := Exec(root, Idle(NewRoom(roomId, id1, id2, mode, createdMs)), acts);
            var r := Act(root, sys, Go(tid, clock)).room;
            && r.finished && r.winner == sys.threads[tid].winner && r.arena.Find(r.winner).Some?
            && (r.arena.Get(r.arena.Find(r.winner).value).alive <==> !Condemned(sys, r.winner))
  {
    var start := Idle(NewRoom(roomId, id1, id2, mode, createdMs));
    var sys := Exec(root, start, acts);
    var phase := ExecKeeps(root, start, Open, acts);
    IdsStay(root, start, acts);
    assert Bystander(sys.room, sys.threads[tid]);
    DeadIffCondemned(root, roomId, id1, id2, mode, createdMs, acts, First);
    DeadIffCondemned(root, roomId, id1, id2, mode, createdMs, acts, Second);
  }

  /* ---------- a call without interference ---------- */

  /** One thread runs n steps in a row. */
  function Steps(tid: nat, clock: int, n: nat): seq<Action> {
    if n == 0 then [] else [Go(tid, clock)] + Steps(tid, clock, n - 1)
  }

  lemma {:induction false} ExecConcat(root: Root, sys: System, acts: seq<Action>, more: seq<Action>)
    ensures Exec(root, sys, acts + more) == Exec(root, Exec(root, sys, acts), more)
  {
    if more == [] {
      assert acts + more == acts;
    } else {
      assert (acts + more)[..|acts + more| - 1] == acts + more[..|more| - 1];
      ExecConcat(root, sys, acts, more[..|more| - 1]);
    }
  }

  lemma FirstStep(root: Root, sys: System, tid: nat, clock: int, n: nat)
    requires 0 < n && tid in sys.threads
    ensures Exec(root, sys, Steps(tid, clock, n)) == Exec(root, Resume(sys, tid, clock), Steps(tid, clock, n - 1))
  {
    ExecConcat(root, sys, [Go(tid, clock)], Steps(tid, clock, n - 1));
    assert [Go(tid, clock)][..0] == [];
  }

  lemma {:induction false} SendingDrains(root: Root, sys: System, tid: nat, clock: int, todo: seq<Event>)
    requires tid in sys.threads && sys.threads[tid] == Sending(todo)
    ensures Exec(root, sys, Steps(tid, clock, |todo| + 1)) == System(sys.room, sys.threads - {tid}, sys.log + todo)
    decreases |todo|
  {
    FirstStep(root, sys, tid, clock, |todo| + 1);
    var s := Resume(sys, tid, clock);
    if todo == [] {
      assert sys.log + todo == sys.log;
    } else {
      SendingDrains(root, s, tid, clock, todo[1..]);
      assert sys.log + [todo[0]] + todo[1..] == sys.log + todo;
      assert s.threads - {tid} == sys.threads - {tid};
    }
  }

  /** The steps a call takes when nobody disturbs it end where the atomic call of module Battle ends. */
  lemma UndisturbedCall(root: Root, sys: System, tid: nat, sec: Section, clock: int) returns (n: nat)
    requires tid !in sys.threads && (sec.room.finished ==> sec.outcome.Nothing?)
    ensures var t := Conclude(sec, clock);
            Exec(root, Launch(sys, tid, sec), Steps(tid, clock, n)) == System(t.room, sys.threads, sys.log + t.events)
  {
    var s := Launch(sys, tid, sec);
    assert s.threads - {tid} == sys.threads;
    match sec.outcome
    case Nothing =>
      n := 0;
      assert sys.log + [] == sys.log;
    case Broadcast(events) =>
      n := |events| + 1;
      SendingDrains(root, s, tid, clock, events);
    case Settle(winner, loser, reason) =>
      var f := FinishRoom(sec.room, winner, loser, reason, clock);
      n := |ResultEvents(f)| + 3;
      FirstStep(root, s, tid, clock, n);
      var s1 := Resume(s, tid, clock);
      FirstStep(root, s1, tid, clock, n - 1);
      var s2 := Resume(s1, tid, clock);
      SendingDrains(root, s2, tid, clock, ResultEvents(f));
      assert s2.threads - {tid} == sys.threads;
  }

  /* ---------- what does not hold at this granularity ---------- */

  /** An instance of that: both players leave at once, and the first to be settled against makes the other win. */
  lemma WinnerMayBeDead(root: Root)
    ensures var r := Exec(root, Idle(NewRoom(1001, 1, 2, 0, 0)), [StartQuit(0, 1), StartQuit(1, 2), Go(0, 5)]).room;
            r.finished && r.winner == 2 && r.reason == OpponentLeft && !r.arena.p2.alive
  {
    var acts := [StartQuit(0, 1), StartQuit(1, 2), Go(0, 5)];
    assert acts[..2][..1][..0] == [] && acts[..2][..1] == acts[..1] && acts[..1][..0] == [];
    var s0 := Idle(NewRoom(1001, 1, 2, 0, 0));
    var s1 := Act(root, s0, acts[0]);
    var s2 := Act(root, s1, acts[1]);
    assert Exec(root, s0, acts[..1]) == s1;
    assert Exec(root, s0, acts[..2]) == s2;
    assert s1.threads == map[0 := Finishing(2, 1, OpponentLeft)];
    assert s2.threads[0] == Finishing(2, 1, OpponentLeft);
  }
}
