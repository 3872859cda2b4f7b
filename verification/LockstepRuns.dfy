/**
 Lockstep over whole runs: any number of threads, one step per locked section, and as the special case
 runs of calls that nobody interrupts. Frames are made inside a tick's locked section; the log shows
 that they are also sent in that order, because one thread does all the ticking.
 */
module LockstepRuns {
  import opened Options
  import opened Battle
  import opened Replica
  import opened Lockstep
  import opened Settlement
  import Laws = BattleLaws

  /* ---------- runs of threads ---------- */

  /** The step starts a tick whose section makes a frame. */
  ghost predicate Broadcasts(root: Root, sys: System, act: Action) {
    act.StartTick? && act.tid !in sys.threads && TickSection(root, sys.room, act.nowMs).outcome.Broadcast?
  }

  function FrameOf(root: Root, sys: System, act: Action): Frame
    requires act.StartTick?
  {
    BuildFrame(TickSection(root, sys.room, act.nowMs).room, !sys.room.started)
  }

  /** The frames a run has made, in order. */
  ghost function Produced(root: Root, sys: System, acts: seq<Action>): seq<Frame> {
    if acts == [] then []
    else
      var init, last := acts[..|acts| - 1], acts[|acts| - 1];
      Produced(root, sys, init)
      + if Broadcasts(root, Exec(root, sys, init), last) then [FrameOf(root, Exec(root, sys, init), last)] else []
  }

  /** The arena as the last frame left it. */
  ghost function Shown(root: Root, sys: System, acts: seq<Action>): Arena {
    if acts == [] then sys.room.arena
    else
      var init, last := acts[..|acts| - 1], acts[|acts| - 1];
      if Broadcasts(root, Exec(root, sys, init), last) then Exec(root, sys, acts).room.arena else Shown(root, sys, init)
  }

  predicate TickerOnly(act: Action, ticker: nat) {
    (act.StartTick? ==> act.tid == ticker) && (act.StartQuit? ==> act.tid != ticker)
  }

  /** One thread ticks the room, and does nothing else. */
  predicate OneTicker(acts: seq<Action>, ticker: nat) {
    forall k :: 0 <= k < |acts| ==> TickerOnly(acts[k], ticker)
  }

  /**
   The guard of lockstep, looked at just before a frame is made: at the opening no living player's move is
   waiting; later, whoever has left since the last frame was standing still, and the other player is about
   to attack it from within reach for all the hp it had. Usually nobody has left.
   */
  ghost predicate Guard(root: Root, a: Arena, r: Room) {
    if !r.started then QuietAt(r)
    else Traceless(root, a, r, First) && Traceless(root, a, r, Second)
  }

  ghost predicate GuardedAt(root: Root, sys: System, acts: seq<Action>, k: nat)
    requires k < |acts|
  {
    Broadcasts(root, Exec(root, sys, acts[..k]), acts[k]) ==>
      Guard(root, Shown(root, sys, acts[..k]), Exec(root, sys, acts[..k]).room)
  }

  /** If step k makes a frame, a client that has replayed all frames so far agrees with the server after it. */
  ghost predicate InStepAt(root: Root, w: World, sys: System, acts: seq<Action>, k: nat)
    requires k < |acts|
  {
    Broadcasts(root, Exec(root, sys, acts[..k]), acts[k]) ==>
      Replay(root, w, Produced(root, sys, acts[..k + 1])) == Mirror(Exec(root, sys, acts[..k + 1]).room.arena)
  }

  /** v is the client's world and a the arena of the last frame: the server differs by departures only. */
  ghost predicate Present(v: World, a: Arena, r: Room) {
    if !r.started then Unopened(r) else v == Mirror(a) && Shadow(a, r.arena)
  }

  /** This holds until the battle is over, or only waits for the ticking thread to say so. */
  ghost predicate Tracked(v: World, a: Arena, sys: System, ticker: nat) {
    && sys.room.mode == 0 && sys.room.arena.p1.id != sys.room.arena.p2.id
    && (sys.room.finished || (ticker in sys.threads && sys.threads[ticker].Finishing?) || Present(v, a, sys.room))
  }

  lemma QuitTracks(v: World, a: Arena, r: Room, player: int)
    requires Present(v, a, r) && r.mode == 0 && r.arena.p1.id != r.arena.p2.id
    ensures var r' := QuitSection(r, player).room;
            Present(v, a, r') && r'.mode == 0 && r'.arena.p1.id != r'.arena.p2.id && r'.finished == r.finished
  {
  }

  lemma SubmitTracks(v: World, a: Arena, r: Room, player: int, op: Op)
    requires Present(v, a, r)
    ensures Present(v, a, SubmitOp(r, player, op))
  {
  }

  lemma BroadcastTracks(root: Root, v: World, a: Arena, r: Room, nowMs: int)
    requires Present(v, a, r) && r.mode == 0 && r.arena.p1.id != r.arena.p2.id && !r.finished
    requires TickSection(root, r, nowMs).outcome.Broadcast?
    ensures var r' := TickSection(root, r, nowMs).room;
            && r'.started && !r'.finished && r'.mode == 0 && r'.arena.p1.id != r'.arena.p2.id
            && (ApplyFrame(root, v, BuildFrame(r', !r.started)) == Mirror(r'.arena) <==> Guard(root, a, r))
  {
    TickSectionKeeps(root, r, nowMs);
    if r.started {
      GapTick(root, a, r, nowMs);
    } else {
      OpeningTick(root, r, v);
    }
  }

  /** One step of any thread: a frame keeps the client in step exactly under the guard, nothing else disturbs it. */
  lemma StepTracks(root: Root, v: World, a: Arena, sys: System, act: Action, ticker: nat)
    requires Tracked(v, a, sys, ticker) && TickerOnly(act, ticker)
    ensures var t := Act(root, sys, act);
            if Broadcasts(root, sys, act) then
              var v' := ApplyFrame(root, v, FrameOf(root, sys, act));
              && (v' == Mirror(t.room.arena) <==> Guard(root, a, sys.room))
              && (Guard(root, a, sys.room) ==> Tracked(v', t.room.arena, t, ticker))
            else Tracked(v, a, t, ticker)
  {
    match act
    case StartTick(tid, nowMs) =>
      TickSectionKeeps(root, sys.room, nowMs);
      if Broadcasts(root, sys, act) { BroadcastTracks(root, v, a, sys.room, nowMs); }
    case StartQuit(tid, player) =>
      QuitSectionIsLater(sys.room, player);
      if Present(v, a, sys.room) { QuitTracks(v, a, sys.room, player); }
    case Submit(player, op) =>
      if Present(v, a, sys.room) { SubmitTracks(v, a, sys.room, player, op); }
    case Go(tid, clock) =>
  }

  lemma {:induction false} RunTracks(root: Root, w: World, sys: System, acts: seq<Action>, k: nat, ticker: nat)
    requires Tracked(w, sys.room.arena, sys, ticker) && OneTicker(acts, ticker) && k <= |acts|
    requires forall j :: 0 <= j < k ==> GuardedAt(root, sys, acts, j)
    ensures Tracked(Replay(root, w, Produced(root, sys, acts[..k])), Shown(root, sys, acts[..k]),
                    Exec(root, sys, acts[..k]), ticker)
  {
    if k != 0 {
      RunTracks(root, w, sys, acts, k - 1, ticker);
      assert GuardedAt(root, sys, acts, k - 1);
      OneMoreStep(root, w, sys, acts, k - 1, ticker);
    }
  }

  lemma OneMoreStep(root: Root, w: World, sys: System, acts: seq<Action>, k: nat, ticker: nat)
    requires k < |acts| && OneTicker(acts, ticker)
    requires Tracked(Replay(root, w, Produced(root, sys, acts[..k])), Shown(root, sys, acts[..k]),
                     Exec(root, sys, acts[..k]), ticker)
    ensures InStepAt(root, w, sys, acts, k) <==> GuardedAt(root, sys, acts, k)
    ensures GuardedAt(root, sys, acts, k) ==>
              Tracked(Replay(root, w, Produced(root, sys, acts[..k + 1])), Shown(root, sys, acts[..k + 1]),
                      Exec(root, sys, acts[..k + 1]), ticker)
  {
    var init, act, more := acts[..k], acts[k], acts[..k + 1];
    assert more[..|more| - 1] == init && more[|more| - 1] == act;
    var v, a, s := Replay(root, w, Produced(root, sys, init)), Shown(root, sys, init), Exec(root, sys, init);
    StepTracks(root, v, a, s, act, ticker);
    if Broadcasts(root, s, act) {
      ReplayOne(root, w, Produced(root, sys, init), FrameOf(root, s, act));
    } else {
      assert Produced(root, sys, init) + [] == Produced(root, sys, init);
    }
  }

  lemma StartIsTracked(w: World, roomId: int, id1: int, id2: int, createdMs: int, ticker: nat)
    requires id1 != id2
    ensures var sys := Settlement.Idle(NewRoom(roomId, id1, id2, 0, createdMs)); Tracked(w, sys.room.arena, sys, ticker)
  {
  }

  /**
   The lockstep theorem. In every run of a mode-0 room with two different players and one ticking thread,
   however its locked sections interleave with those of other threads: a client that replays the frames
   made so far agrees with the server after every frame, if and only if the guard held before every frame.
   */
  lemma LockstepExactly(
      root: Root, w: World, roomId: int, id1: int, id2: int, createdMs: int, acts: seq<Action>, ticker: nat)
    requires id1 != id2 && OneTicker(acts, ticker)
    ensures var sys := Settlement.Idle(NewRoom(roomId, id1, id2, 0, createdMs));
            (forall k :: 0 <= k < |acts| ==> InStepAt(root, w, sys, acts, k)) <==>
            (forall k :: 0 <= k < |acts| ==> GuardedAt(root, sys, acts, k))
  {
    var sys := Settlement.Idle(NewRoom(roomId, id1, id2, 0, createdMs));
    StartIsTracked(w, roomId, id1, id2, createdMs, ticker);
    if forall k :: 0 <= k < |acts| ==> GuardedAt(root, sys, acts, k) {
      forall k | 0 <= k < |acts| ensures InStepAt(root, w, sys, acts, k) {
        RunTracks(root, w, sys, acts, k, ticker);
        OneMoreStep(root, w, sys, acts, k, ticker);
      }
    } else {
      var k := FirstUnguarded(root, sys, acts);
      RunTracks(root, w, sys, acts, k, ticker);
      OneMoreStep(root, w, sys, acts, k, ticker);
      assert !InStepAt(root, w, sys, acts, k);
    }
  }

  lemma FirstUnguarded(root: Root, sys: System, acts: seq<Action>) returns (k: nat)
    requires exists k :: 0 <= k < |acts| && !GuardedAt(root, sys, acts, k)
    ensures k < |acts| && !GuardedAt(root, sys, acts, k)
    ensures forall j :: 0 <= j < k ==> GuardedAt(root, sys, acts, j)
  {
    var flags := seq(|acts|, i requires 0 <= i < |acts| => GuardedAt(root, sys, acts, i));
    var i :| 0 <= i < |acts| && !GuardedAt(root, sys, acts, i);
    assert !flags[i];
    k := FirstFalse(flags);
    forall j | 0 <= j < k ensures GuardedAt(root, sys, acts, j) {
      assert flags[j];
    }
  }

  lemma FirstFalse(flags: seq<bool>) returns (k: nat)
    requires false in flags
    ensures k < |flags| && !flags[k] && forall j :: 0 <= j < k ==> flags[j]
  {
    k := 0;
    while flags[k]
      invariant k < |flags|
      invariant forall j :: 0 <= j < k ==> flags[j]
      decreases |flags| - k
    {
      k := k + 1;
    }
  }

  /** No thread is between noticing a death or departure and settling it when step k makes a frame. */
  ghost predicate NoGapAt(root: Root, sys: System, acts: seq<Action>, k: nat)
    requires k < |acts|
  {
    var s := Exec(root, sys, acts[..k]);
    Broadcasts(root, s, acts[k]) ==>
      QuietAt(s.room) && !Condemned(s, s.room.arena.p1.id) && !Condemned(s, s.room.arena.p2.id)
  }

  /** Without gaps, and with a quiet opening, the client is in step after every frame. */
  lemma LockstepWithoutGaps(
      root: Root, w: World, roomId: int, id1: int, id2: int, createdMs: int, acts: seq<Action>, ticker: nat)
    requires id1 != id2 && OneTicker(acts, ticker)
    requires forall k :: 0 <= k < |acts| ==>
             NoGapAt(root, Settlement.Idle(NewRoom(roomId, id1, id2, 0, createdMs)), acts, k)
    ensures forall k :: 0 <= k < |acts| ==>
            InStepAt(root, w, Settlement.Idle(NewRoom(roomId, id1, id2, 0, createdMs)), acts, k)
  {
    var sys := Settlement.Idle(NewRoom(roomId, id1, id2, 0, createdMs));
    forall k | 0 <= k < |acts| ensures GuardedAt(root, sys, acts, k) {
      assert NoGapAt(root, sys, acts, k);
      DeadIffCondemned(root, roomId, id1, id2, 0, createdMs, acts[..k], First);
      DeadIffCondemned(root, roomId, id1, id2, 0, createdMs, acts[..k], Second);
    }
    LockstepExactly(root, w, roomId, id1, id2, createdMs, acts, ticker);
  }

  /* ---------- frames are sent as they were made ---------- */

  /** What the ticking thread has still to send to a player. */
  ghost function Unsent(sys: System, ticker: nat, pid: int): seq<Frame> {
    if ticker in sys.threads && sys.threads[ticker].Sending? then FramesTo(sys.threads[ticker].todo, pid) else []
  }

  predicate SendsNoFrame(pc: Pc) {
    pc.Sending? ==> forall k :: 0 <= k < |pc.todo| ==> !pc.todo[k].PushFrame?
  }

  ghost predicate InOrder(sys: System, frames: seq<Frame>, ticker: nat, pid: int) {
    && sys.room.mode == 0 && sys.room.arena.p1.id != sys.room.arena.p2.id
    && (pid == sys.room.arena.p1.id || pid == sys.room.arena.p2.id)
    && FramesTo(sys.log, pid) + Unsent(sys, ticker, pid) == frames
    && forall tid :: tid in sys.threads && tid != ticker ==> SendsNoFrame(sys.threads[tid])
  }

  lemma FramesOfSingle(e: Event, pid: int)
    ensures FramesTo([e], pid) == if e.PushFrame? && e.to == pid then [e.frame] else []
  {
    assert [e][..0] == [];
  }

  lemma SendOne(log: seq<Event>, todo: seq<Event>, pid: int)
    requires todo != []
    ensures FramesTo(log + [todo[0]], pid) + FramesTo(todo[1..], pid) == FramesTo(log, pid) + FramesTo(todo, pid)
    ensures !todo[0].PushFrame? ==> FramesTo(log + [todo[0]], pid) == FramesTo(log, pid)
  {
    var e, rest := todo[0], todo[1..];
    assert todo == [e] + rest;
    FramesConcat(log, [e], pid);
    FramesConcat([e], rest, pid);
    FramesOfSingle(e, pid);
    Regroup(FramesTo(log, pid), FramesTo([e], pid), FramesTo(rest, pid));
  }

  lemma Regroup(a: seq<Frame>, b: seq<Frame>, c: seq<Frame>)
    ensures (a + b) + c == a + (b + c) && a + [] == a
  {
  }

  lemma ResultHasNoFrame(r: Room)
    ensures forall k :: 0 <= k < |ResultEvents(r)| ==> !ResultEvents(r)[k].PushFrame?
  {
    ResultIsSettlement(r);
  }

  lemma GoKeepsOrder(sys: System, frames: seq<Frame>, tid: nat, clock: int, ticker: nat, pid: int)
    requires InOrder(sys, frames, ticker, pid) && tid in sys.threads
    ensures InOrder(Resume(sys, tid, clock), frames, ticker, pid)
  {
    if sys.threads[tid].Sending? {
      SendKeepsOrder(sys, frames, tid, clock, ticker, pid);
    } else {
      ResultHasNoFrame(sys.room);
      NoFrames(ResultEvents(sys.room), pid);
    }
  }

  lemma SendKeepsOrder(sys: System, frames: seq<Frame>, tid: nat, clock: int, ticker: nat, pid: int)
    requires InOrder(sys, frames, ticker, pid) && tid in sys.threads && sys.threads[tid].Sending?
    ensures InOrder(Resume(sys, tid, clock), frames, ticker, pid)
  {
    if tid == ticker {
      TickerSends(sys, frames, tid, clock, pid);
    } else {
      OtherSends(sys, frames, tid, clock, ticker, pid);
    }
  }

  lemma TickerSends(sys: System, frames: seq<Frame>, tid: nat, clock: int, pid: int)
    requires InOrder(sys, frames, tid, pid) && tid in sys.threads && sys.threads[tid].Sending?
    ensures InOrder(Resume(sys, tid, clock), frames, tid, pid)
  {
    var todo, s := sys.threads[tid].todo, Resume(sys, tid, clock);
    assert Unsent(sys, tid, pid) == FramesTo(todo, pid);
    if todo == [] {
      assert Unsent(s, tid, pid) == [] == FramesTo(todo, pid);
    } else {
      SendOne(sys.log, todo, pid);
      assert Unsent(s, tid, pid) == FramesTo(todo[1..], pid);
    }
  }

  lemma OtherSends(sys: System, frames: seq<Frame>, tid: nat, clock: int, ticker: nat, pid: int)
    requires InOrder(sys, frames, ticker, pid) && tid in sys.threads && sys.threads[tid].Sending? && tid != ticker
    ensures InOrder(Resume(sys, tid, clock), frames, ticker, pid)
  {
    var todo, s := sys.threads[tid].todo, Resume(sys, tid, clock);
    if todo != [] {
      RestSendsNoFrame(todo);
      SendOne(sys.log, todo, pid);
    }
    assert Unsent(s, ticker, pid) == Unsent(sys, ticker, pid);
  }

  lemma RestSendsNoFrame(todo: seq<Event>)
    requires todo != [] && SendsNoFrame(Sending(todo))
    ensures !todo[0].PushFrame? && SendsNoFrame(Sending(todo[1..]))
  {
  }

  lemma TickKeepsOrder(root: Root, sys: System, frames: seq<Frame>, tid: nat, nowMs: int, pid: int)
    requires InOrder(sys, frames, tid, pid) && tid !in sys.threads
    ensures var act := StartTick(tid, nowMs);
            InOrder(Act(root, sys, act),
                    frames + (if Broadcasts(root, sys, act) then [FrameOf(root, sys, act)] else []), tid, pid)
  {
    TickSectionKeeps(root, sys.room, nowMs);
    var sec := TickSection(root, sys.room, nowMs);
    assert FramesTo(sys.log, pid) + [] == frames == frames + [];
    if sec.outcome.Broadcast? {
      FramesOfPair(sys.room.arena.p1.id, sys.room.arena.p2.id, BuildFrame(sec.room, !sys.room.started), pid);
    }
  }

  lemma StepKeepsOrder(root: Root, sys: System, frames: seq<Frame>, act: Action, ticker: nat, pid: int)
    requires InOrder(sys, frames, ticker, pid) && TickerOnly(act, ticker)
    ensures InOrder(Act(root, sys, act),
                    frames + (if Broadcasts(root, sys, act) then [FrameOf(root, sys, act)] else []), ticker, pid)
  {
    assert frames + [] == frames;
    match act
    case StartTick(tid, nowMs) => if tid !in sys.threads { TickKeepsOrder(root, sys, frames, tid, nowMs, pid); }
    case StartQuit(tid, player) => QuitSectionIsLater(sys.room, player);
    case Submit(_, _) =>
    case Go(tid, clock) => if tid in sys.threads { GoKeepsOrder(sys, frames, tid, clock, ticker, pid); }
  }

  /** The frames in the log, followed by those the ticking thread has still to send, are the frames made, in order. */
  lemma {:induction false} FramesAreSentInOrder(root: Root, sys: System, acts: seq<Action>, ticker: nat, pid: int)
    requires sys.room.mode == 0 && sys.room.arena.p1.id != sys.room.arena.p2.id && sys.threads == map[] && sys.log == []
    requires pid == sys.room.arena.p1.id || pid == sys.room.arena.p2.id
    requires OneTicker(acts, ticker)
    ensures InOrder(Exec(root, sys, acts), Produced(root, sys, acts), ticker, pid)
  {
    if acts != [] {
      var init := acts[..|acts| - 1];
      FramesAreSentInOrder(root, sys, init, ticker, pid);
      StepKeepsOrder(root, Exec(root, sys, init), Produced(root, sys, init), acts[|acts| - 1], ticker, pid);
    }
  }

  /* ---------- runs of calls that nobody interrupts ---------- */

  /** What the client of player pid holds after a run of atomic calls, starting from any world. */
  function ClientAfter(root: Root, w: World, r: Room, calls: seq<Call>, pid: int): World {
    Replay(root, w, FramesTo(Run(root, r, calls).events, pid))
  }

  /** Agreement, asked for while the battle is on: the client is told of nothing else. */
  ghost predicate InStep(root: Root, w: World, r: Room, calls: seq<Call>, pid: int) {
    var s := Run(root, r, calls).room;
    s.started && !s.finished ==> ClientAfter(root, w, r, calls, pid) == Mirror(s.arena)
  }

  /** No move is waiting when the room opens. */
  ghost predicate QuietOpening(root: Root, r: Room, calls: seq<Call>) {
    forall k :: 0 <= k < |calls| ==> QuietCall(root, r, calls, k)
  }

  /** Call number k is not an opening tick that finds a move waiting. */
  ghost predicate QuietCall(root: Root, r: Room, calls: seq<Call>, k: nat)
    requires k < |calls|
  {
    calls[k].CallTick? ==> QuietAt(Run(root, r, calls[..k]).room)
  }

  /** The first step of a call; thread 0 ticks, thread 1 handles departures. */
  function FirstStepOf(call: Call): Action {
    match call
    case CallSubmit(player, op) => Submit(player, op)
    case CallQuit(player, _) => StartQuit(1, player)
    case CallTick(nowMs, _) => StartTick(0, nowMs)
  }

  lemma {:induction false} StepsAreGos(tid: nat, clock: int, n: nat)
    ensures forall k :: 0 <= k < |Steps(tid, clock, n)| ==> Steps(tid, clock, n)[k] == Go(tid, clock)
  {
    if n != 0 { StepsAreGos(tid, clock, n - 1); }
  }

  lemma Started(root: Root, sys: System, act: Action)
    ensures Exec(root, sys, [act]) == Act(root, sys, act)
  {
    assert [act][..0] == [];
    assert Exec(root, sys, []) == sys;
  }

  /** A call's steps: the first one, then nothing but Go. */
  lemma CallAsSteps(root: Root, sys: System, call: Call) returns (rest: seq<Action>)
    requires sys.threads == map[]
    ensures forall k :: 0 <= k < |rest| ==> rest[k].Go?
    ensures var u := Do(root, sys.room, call);
            Exec(root, sys, [FirstStepOf(call)] + rest) == System(u.room, map[], sys.log + u.events)
  {
    rest := [];
    var act := FirstStepOf(call);
    Started(root, sys, act);
    match call
    case CallSubmit(player, op) =>
      assert sys.log + [] == sys.log && [act] + rest == [act];
    case CallQuit(player, finishMs) =>
      var n := UndisturbedCall(root, sys, 1, QuitSection(sys.room, player), finishMs);
      rest := Steps(1, finishMs, n);
      StepsAreGos(1, finishMs, n);
      ExecConcat(root, sys, [act], rest);
    case CallTick(nowMs, finishMs) =>
      TickSectionKeeps(root, sys.room, nowMs);
      var n := UndisturbedCall(root, sys, 0, TickSection(root, sys.room, nowMs), finishMs);
      rest := Steps(0, finishMs, n);
      StepsAreGos(0, finishMs, n);
      ExecConcat(root, sys, [act], rest);
  }

  lemma GosAreHarmless(root: Root, sys: System, acts: seq<Action>, k: nat, ticker: nat)
    requires k < |acts| && acts[k].Go?
    ensures TickerOnly(acts[k], ticker) && GuardedAt(root, sys, acts, k)
  {
  }

  lemma PrefixGuards(root: Root, sys: System, acts: seq<Action>, more: seq<Action>, k: nat)
    requires k < |acts|
    ensures GuardedAt(root, sys, acts + more, k) <==> GuardedAt(root, sys, acts, k)
  {
    assert (acts + more)[..k] == acts[..k] && (acts + more)[k] == acts[k];
  }

  /** Nobody dies between atomic calls of an unfinished room, so a tick only has to look at the opening. */
  lemma FirstStepIsGuarded(root: Root, sys: System, acts: seq<Action>, call: Call)
    requires var r := Exec(root, sys, acts).room;
             (r.finished || (r.arena.p1.alive && r.arena.p2.alive)) && (call.CallTick? ==> QuietAt(r))
    ensures GuardedAt(root, sys, acts + [FirstStepOf(call)], |acts|)
  {
    var more := acts + [FirstStepOf(call)];
    assert more[..|acts|] == acts && more[|acts|] == FirstStepOf(call);
  }

  /**
   A run of atomic calls is one of the runs of threads: same room, same messages, nobody under way at the
   end. Its frames are guarded as soon as its opening is quiet.
   */
  lemma {:induction false} AtomicRun(root: Root, r: Room, calls: seq<Call>) returns (acts: seq<Action>)
    requires Laws.Sound(r) && !r.finished && QuietOpening(root, r, calls)
    ensures var t := Run(root, r, calls); Exec(root, Settlement.Idle(r), acts) == System(t.room, map[], t.events)
    ensures OneTicker(acts, 0)
    ensures forall k :: 0 <= k < |acts| ==> GuardedAt(root, Settlement.Idle(r), acts, k)
  {
    acts := [];
    if calls != [] {
      var init, call := calls[..|calls| - 1], calls[|calls| - 1];
      QuietInit(root, r, calls);
      var before := AtomicRun(root, r, init);
      assert QuietCall(root, r, calls, |calls| - 1);
      Laws.RunIsSound(root, r, init);
      acts := AddCall(root, r, init, before, call);
    }
  }

  lemma QuietInit(root: Root, r: Room, calls: seq<Call>)
    requires calls != [] && QuietOpening(root, r, calls)
    ensures QuietOpening(root, r, calls[..|calls| - 1])
  {
    var init := calls[..|calls| - 1];
    forall k | 0 <= k < |init| ensures QuietCall(root, r, init, k) {
      assert QuietCall(root, r, calls, k);
      assert init[..k] == calls[..k] && init[k] == calls[k];
    }
  }

  lemma AddCall(root: Root, r: Room, calls: seq<Call>, before: seq<Action>, call: Call) returns (acts: seq<Action>)
    requires var t := Run(root, r, calls); Exec(root, Settlement.Idle(r), before) == System(t.room, map[], t.events)
    requires Laws.Sound(Run(root, r, calls).room) && (call.CallTick? ==> QuietAt(Run(root, r, calls).room))
    requires OneTicker(before, 0)
    requires forall k :: 0 <= k < |before| ==> GuardedAt(root, Settlement.Idle(r), before, k)
    ensures var t := Run(root, r, calls);
            var u := Do(root, t.room, call);
            Exec(root, Settlement.Idle(r), acts) == System(u.room, map[], t.events + u.events)
    ensures OneTicker(acts, 0)
    ensures forall k :: 0 <= k < |acts| ==> GuardedAt(root, Settlement.Idle(r), acts, k)
  {
    var sys, first := Settlement.Idle(r), FirstStepOf(call);
    var rest := CallAsSteps(root, Exec(root, sys, before), call);
    acts := before + ([first] + rest);
    ExecConcat(root, sys, before, [first] + rest);
    FirstStepIsGuarded(root, sys, before, call);
    CallIsGuarded(root, sys, before, first, rest);
  }

  lemma CallIsGuarded(root: Root, sys: System, before: seq<Action>, first: Action, rest: seq<Action>)
    requires OneTicker(before, 0) && TickerOnly(first, 0) && forall k :: 0 <= k < |rest| ==> rest[k].Go?
    requires forall k :: 0 <= k < |before| ==> GuardedAt(root, sys, before, k)
    requires GuardedAt(root, sys, before + [first], |before|)
    ensures OneTicker(before + ([first] + rest), 0)
    ensures forall k :: 0 <= k < |before + ([first] + rest)| ==> GuardedAt(root, sys, before + ([first] + rest), k)
  {
    var acts := before + ([first] + rest);
    assert acts == (before + [first]) + rest;
    forall k | 0 <= k < |acts| ensures TickerOnly(acts[k], 0) && GuardedAt(root, sys, acts, k) {
      if k < |before| {
        assert acts[k] == before[k] && GuardedAt(root, sys, before, k);
        PrefixGuards(root, sys, before, [first] + rest, k);
      } else if k == |before| {
        assert acts[k] == first;
        PrefixGuards(root, sys, before + [first], rest, k);
      } else {
        assert acts[k] == rest[k - |before| - 1];
        GosAreHarmless(root, sys, acts, k, 0);
      }
    }
  }

  /** After a quiet run of atomic calls the client is in step, or the room has not opened. */
  lemma QuietRunIsPresent(
      root: Root, w: World, roomId: int, id1: int, id2: int, createdMs: int, calls: seq<Call>, pid: int)
    requires id1 != id2 && (pid == id1 || pid == id2)
    requires QuietOpening(root, NewRoom(roomId, id1, id2, 0, createdMs), calls)
    ensures var r := NewRoom(roomId, id1, id2, 0, createdMs);
            var s := Run(root, r, calls).room;
            && s.mode == 0 && s.arena.p1.id == id1 && s.arena.p2.id == id2
            && (s.finished || if s.started then ClientAfter(root, w, r, calls, pid) == Mirror(s.arena) else Unopened(s))
  {
    var r := NewRoom(roomId, id1, id2, 0, createdMs);
    var sys := Settlement.Idle(r);
    var acts := AtomicRun(root, r, calls);
    StartIsTracked(w, roomId, id1, id2, createdMs, 0);
    RunTracks(root, w, sys, acts, |acts|, 0);
    assert acts[..|acts|] == acts;
    FramesAreSentInOrder(root, sys, acts, 0, pid);
    IdsStay(root, sys, acts);
    Laws.RunIsSound(root, r, calls);
    var t := Run(root, r, calls);
    assert FramesTo(t.events, pid) + [] == FramesTo(t.events, pid);
    if !t.room.finished && t.room.started {
      AliveShadow(Shown(root, sys, acts), t.room.arena);
    }
  }

  lemma AliveShadow(a: Arena, b: Arena)
    requires Shadow(a, b) && b.p1.alive && b.p2.alive
    ensures Mirror(a) == Mirror(b)
  {
  }

  /** An opening tick that finds a move waiting puts the client out of step. */
  lemma LoudTick(root: Root, w: World, r: Room, calls: seq<Call>, tick: Call, pid: int)
    requires tick.CallTick? && !QuietAt(Run(root, r, calls).room)
    requires Unopened(Run(root, r, calls).room)
             && (pid == Run(root, r, calls).room.arena.p1.id || pid == Run(root, r, calls).room.arena.p2.id)
    ensures !InStep(root, w, r, calls + [tick], pid)
  {
    var t := Run(root, r, calls);
    var u := Do(root, t.room, tick);
    assert (calls + [tick])[..|calls|] == calls;
    assert Run(root, r, calls + [tick]) == Turn(u.room, t.events + u.events);
    TickSectionKeeps(root, t.room, tick.nowMs);
    FramesOfCall(root, t.room, tick, pid);
    FramesConcat(t.events, u.events, pid);
    var frames := FramesTo(t.events, pid);
    ReplayOne(root, w, frames, BuildFrame(u.room, true));
    OpeningTick(root, t.room, Replay(root, w, frames));
  }

  /**
   The case of atomic calls, in which nothing gets between a departure and its settlement: the client agrees
   with the server after every call if and only if no move was pending at the opening tick.
   */
  lemma AtomicLockstep(
      root: Root, w: World, roomId: int, id1: int, id2: int, createdMs: int, calls: seq<Call>, pid: int)
    requires id1 != id2 && (pid == id1 || pid == id2)
    ensures var r := NewRoom(roomId, id1, id2, 0, createdMs);
            (forall k :: 0 <= k <= |calls| ==> InStep(root, w, r, calls[..k], pid)) <==> QuietOpening(root, r, calls)
  {
    var r := NewRoom(roomId, id1, id2, 0, createdMs);
    if QuietOpening(root, r, calls) {
      forall k | 0 <= k <= |calls| ensures InStep(root, w, r, calls[..k], pid) {
        QuietPrefix(root, r, calls, k);
        QuietRunIsPresent(root, w, roomId, id1, id2, createdMs, calls[..k], pid);
      }
    } else {
      var k := LoudRun(root, w, roomId, id1, id2, createdMs, calls, pid);
    }
  }

  lemma LoudRun(root: Root, w: World, roomId: int, id1: int, id2: int, createdMs: int, calls: seq<Call>, pid: int)
    returns (k: nat)
    requires id1 != id2 && (pid == id1 || pid == id2)
    requires !QuietOpening(root, NewRoom(roomId, id1, id2, 0, createdMs), calls)
    ensures 0 < k <= |calls| && !InStep(root, w, NewRoom(roomId, id1, id2, 0, createdMs), calls[..k], pid)
  {
    var r := NewRoom(roomId, id1, id2, 0, createdMs);
    k := FirstLoudCall(root, r, calls);
    QuietPrefix(root, r, calls, k);
    QuietRunIsPresent(root, w, roomId, id1, id2, createdMs, calls[..k], pid);
    LoudTick(root, w, r, calls[..k], calls[k], pid);
    assert calls[..k] + [calls[k]] == calls[..k + 1];
    k := k + 1;
  }

  lemma QuietPrefix(root: Root, r: Room, calls: seq<Call>, n: nat)
    requires n <= |calls| && forall k :: 0 <= k < n ==> QuietCall(root, r, calls, k)
    ensures QuietOpening(root, r, calls[..n])
  {
    forall k | 0 <= k < n ensures QuietCall(root, r, calls[..n], k) {
      assert QuietCall(root, r, calls, k);
      assert calls[..n][..k] == calls[..k] && calls[..n][k] == calls[k];
    }
  }

  lemma FirstLoudCall(root: Root, r: Room, calls: seq<Call>) returns (k: nat)
    requires !QuietOpening(root, r, calls)
    ensures k < |calls| && !QuietCall(root, r, calls, k)
    ensures forall j :: 0 <= j < k ==> QuietCall(root, r, calls, j)
  {
    var flags := seq(|calls|, i requires 0 <= i < |calls| => QuietCall(root, r, calls, i));
    var i :| 0 <= i < |calls| && !QuietCall(root, r, calls, i);
    assert !flags[i];
    k := FirstFalse(flags);
    forall j | 0 <= j < k ensures QuietCall(root, r, calls, j) {
      assert flags[j];
    }
  }
}
