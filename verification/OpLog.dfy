/**
 What becomes of an accepted operation: it is consumed by the next tick and listed in that tick's
 frame, once, in the order its player sent it. Only a tick that ends the battle sends no frame.
 */
module OpLog {
  import opened Battle
  import opened OrderIndependence
  import L = Lockstep

  /** The operations of some frames, frame after frame. */
  function Listed(frames: seq<Frame>): seq<OpRecord> {
    if frames == [] then [] else Listed(frames[..|frames| - 1]) + frames[|frames| - 1].ops
  }

  /** What one call adds to the accepted operations. */
  function Entry(r: Room, call: Call): seq<OpRecord> {
    if call.CallSubmit? && !r.finished && r.arena.Find(call.player).Some? then [OpRecord(call.player, call.op)] else []
  }

  /** The operations SubmitOp accepted during a run. */
  function Accepted(root: Root, r: Room, calls: seq<Call>): seq<OpRecord> {
    if calls == [] then []
    else
      var init := calls[..|calls| - 1];
      Accepted(root, r, init) + Entry(Run(root, r, init).room, calls[|calls| - 1])
  }

  /** Everything in the queue comes from a living player of the room. */
  ghost predicate AllHeard(r: Room) {
    !r.finished ==> r.arena.p1.alive && r.arena.p2.alive
                    && forall k :: 0 <= k < |r.pending| ==> r.arena.Find(r.pending[k].player).Some?
  }

  lemma {:induction false} NothingIsDropped(root: Root, a: Arena, recs: seq<OpRecord>)
    requires a.p1.alive && a.p2.alive && forall k :: 0 <= k < |recs| ==> a.Find(recs[k].player).Some?
    ensures Kept(root, a, recs) == recs
  {
    if recs != [] {
      var init, last := recs[..|recs| - 1], recs[|recs| - 1];
      NothingIsDropped(root, a, init);
      RecordsKeepStage(root, a, init);
      StageDecidesHeard(a, ApplyAll(root, a, init), last);
      assert recs == init + [last] && a.Find(recs[|recs| - 1].player).Some?;
    }
  }

  lemma QueueIsKnown(r: Room, a: Arena)
    requires AllHeard(r) && !r.finished && a.p1.id == r.arena.p1.id && a.p2.id == r.arena.p2.id
    ensures forall k :: 0 <= k < |r.pending| ==> a.Find(r.pending[k].player).Some?
  {
    forall k | 0 <= k < |r.pending| ensures a.Find(r.pending[k].player).Some? {
      assert r.arena.Find(r.pending[k].player).Some?;
    }
  }

  lemma TickConsumesAll(root: Root, r: Room)
    requires AllHeard(r) && !r.finished
    ensures Consumed(root, r).frameOps == r.pending
    ensures SameStage(r.arena.(tick := r.arena.tick + 1), Consumed(root, r).arena)
  {
    var a := r.arena.(tick := r.arena.tick + 1);
    QueueIsKnown(r, a);
    NothingIsDropped(root, a, r.pending);
    RecordsKeepStage(root, a, r.pending);
  }

  lemma SectionKeepsBatch(root: Root, r: Room, nowMs: int)
    requires !r.finished
    ensures var s := TickSection(root, r, nowMs).room;
            s.frameOps == Consumed(root, r).frameOps && s.pending == [] && s.finished == r.finished
  {
  }

  lemma ListedOne(frames: seq<Frame>, frame: Frame)
    ensures Listed(frames + [frame]) == Listed(frames) + frame.ops
  {
    assert (frames + [frame])[..|frames|] == frames;
  }

  /** What the frames do not list yet, and never will once the room is finished. */
  function Unlisted(r: Room): seq<OpRecord> {
    if r.finished && r.reason != OpponentLeft then r.frameOps else r.pending
  }

  /** The books of a run so far: what its frames list, what is still unlisted, what was accepted. */
  ghost predicate Ledger(t: Turn, accepted: seq<OpRecord>, pid: int) {
    && t.room.mode == 0 && t.room.arena.p1.id != t.room.arena.p2.id
    && (pid == t.room.arena.p1.id || pid == t.room.arena.p2.id)
    && AllHeard(t.room)
    && Adds(L.FramesTo(t.events, pid), Unlisted(t.room), accepted)
  }

  lemma QueueGrows(root: Root, r: Room, player: int, op: Op)
    requires AllHeard(r)
    ensures var s := SubmitOp(r, player, op);
            AllHeard(s) && Unlisted(s) == Unlisted(r) + Entry(r, CallSubmit(player, op))
  {
    var s := SubmitOp(r, player, op);
    if s != r {
      forall k | 0 <= k < |s.pending| ensures s.arena.Find(s.pending[k].player).Some? {
        if k < |r.pending| { assert s.pending[k] == r.pending[k]; }
      }
    } else {
      assert Unlisted(r) + [] == Unlisted(r);
    }
  }

  /** The accounting of one player, as a step of a run has to preserve it. */
  ghost predicate Adds(frames: seq<Frame>, unlisted: seq<OpRecord>, accepted: seq<OpRecord>) {
    forall id :: Of(Listed(frames), id) + Of(unlisted, id) == Of(accepted, id)
  }

  lemma AddsSubmitted(frames: seq<Frame>, unlisted: seq<OpRecord>, accepted: seq<OpRecord>, rec: OpRecord)
    requires Adds(frames, unlisted, accepted)
    ensures Adds(frames, unlisted + [rec], accepted + [rec])
  {
    forall id ensures Of(Listed(frames), id) + Of(unlisted + [rec], id) == Of(accepted + [rec], id) {
      OfSnoc(unlisted, rec, id);
      OfSnoc(accepted, rec, id);
      assert Of(Listed(frames), id) + Of(unlisted, id) == Of(accepted, id);
    }
  }

  lemma AddsListed(frames: seq<Frame>, frame: Frame, unlisted: seq<OpRecord>, accepted: seq<OpRecord>)
    requires Adds(frames, unlisted, accepted) && frame.ops == SortOps(unlisted)
    ensures Adds(frames + [frame], [], accepted)
  {
    ListedOne(frames, frame);
    SortOpsLaws(unlisted);
    forall id ensures Of(Listed(frames + [frame]), id) + Of([], id) == Of(accepted, id) {
      OfConcat(Listed(frames), frame.ops, id);
      assert Of(unlisted, id) == Of(frame.ops, id);
      assert Of(Listed(frames), id) + Of(unlisted, id) == Of(accepted, id);
    }
  }

  /** What a tick does to the queue and the frames. */
  lemma TickMovesTheQueue(root: Root, r: Room, nowMs: int, finishMs: int, pid: int)
    requires r.mode == 0 && r.arena.p1.id != r.arena.p2.id && (pid == r.arena.p1.id || pid == r.arena.p2.id)
    requires AllHeard(r) && !r.finished
    ensures var t := Tick(root, r, nowMs, finishMs);
            && AllHeard(t.room) && t.room.pending == [] && t.room.frameOps == r.pending
            && (t.room.finished ==> t.room.reason != OpponentLeft && L.FramesTo(t.events, pid) == [])
            && (!t.room.finished ==>
               exists frame: Frame :: frame.ops == SortOps(r.pending) && L.FramesTo(t.events, pid) == [frame])
  {
    TickConsumesAll(root, r);
    SectionKeepsBatch(root, r, nowMs);
    L.TickSectionKeeps(root, r, nowMs);
    L.FramesOfCall(root, r, CallTick(nowMs, finishMs), pid);
    var sec := TickSection(root, r, nowMs);
    if sec.outcome.Broadcast? {
      assert BuildFrame(sec.room, !r.started).ops == SortOps(r.pending);
    }
  }

  lemma SubmitKeepsLedger(root: Root, t: Turn, accepted: seq<OpRecord>, player: int, op: Op, pid: int)
    requires Ledger(t, accepted, pid)
    ensures Ledger(Turn(SubmitOp(t.room, player, op), t.events), accepted + Entry(t.room, CallSubmit(player, op)), pid)
  {
    QueueGrows(root, t.room, player, op);
    if !t.room.finished && t.room.arena.Find(player).Some? {
      AddsSubmitted(L.FramesTo(t.events, pid), Unlisted(t.room), accepted, OpRecord(player, op));
    } else {
      assert accepted + [] == accepted;
    }
  }

  lemma QuitKeepsLedger(root: Root, t: Turn, accepted: seq<OpRecord>, player: int, finishMs: int, pid: int)
    requires Ledger(t, accepted, pid)
    ensures var u := OnPlayerQuit(t.room, player, finishMs); Ledger(Turn(u.room, t.events + u.events), accepted, pid)
  {
    var u := OnPlayerQuit(t.room, player, finishMs);
    L.FramesOfCall(root, t.room, CallQuit(player, finishMs), pid);
    L.FramesConcat(t.events, u.events, pid);
    assert u.events == [] || L.FramesTo(u.events, pid) == [];
    assert L.FramesTo(t.events, pid) + [] == L.FramesTo(t.events, pid);
    assert Unlisted(u.room) == Unlisted(t.room);
  }

  lemma TickKeepsLedger(root: Root, t: Turn, accepted: seq<OpRecord>, nowMs: int, finishMs: int, pid: int)
    requires Ledger(t, accepted, pid)
    ensures var u := Tick(root, t.room, nowMs, finishMs); Ledger(Turn(u.room, t.events + u.events), accepted, pid)
  {
    var u := Tick(root, t.room, nowMs, finishMs);
    var frames := L.FramesTo(t.events, pid);
    L.FramesConcat(t.events, u.events, pid);
    assert frames + [] == frames;
    L.FramesOfCall(root, t.room, CallTick(nowMs, finishMs), pid);
    if !t.room.finished {
      TickMovesTheQueue(root, t.room, nowMs, finishMs, pid);
      if !u.room.finished {
        var frame: Frame :| frame.ops == SortOps(t.room.pending) && L.FramesTo(u.events, pid) == [frame];
        AddsListed(frames, frame, t.room.pending, accepted);
      }
    }
  }

  /**
   For every player the operations in the broadcast frames, frame after frame, are the ones the room
   accepted, in order and each once. Missing are only those still waiting, and those consumed by the
   tick that ended the battle.
   */
  lemma {:induction false} FramesListAcceptedOps(
      root: Root, roomId: int, id1: int, id2: int, createdMs: int, calls: seq<Call>, pid: int, id: int)
    requires id1 != id2 && (pid == id1 || pid == id2)
    ensures var r := NewRoom(roomId, id1, id2, 0, createdMs);
            var t := Run(root, r, calls);
            Of(Listed(L.FramesTo(t.events, pid)), id) + Of(Unlisted(t.room), id) == Of(Accepted(root, r, calls), id)
  {
    LedgerOfRun(root, NewRoom(roomId, id1, id2, 0, createdMs), calls, pid);
    var t := Run(root, NewRoom(roomId, id1, id2, 0, createdMs), calls);
    assert Adds(L.FramesTo(t.events, pid), Unlisted(t.room),
      Accepted(root, NewRoom(roomId, id1, id2, 0, createdMs), calls));
  }

  lemma {:induction false} LedgerOfRun(root: Root, r: Room, calls: seq<Call>, pid: int)
    requires Ledger(Turn(r, []), [], pid)
    ensures Ledger(Run(root, r, calls), Accepted(root, r, calls), pid)
  {
    if calls != [] {
      var init, last := calls[..|calls| - 1], calls[|calls| - 1];
      LedgerOfRun(root, r, init, pid);
      var t, acc := Run(root, r, init), Accepted(root, r, init);
      assert acc + [] == acc;
      match last {
        case CallSubmit(player, op) =>
          assert t.events + [] == t.events;
          SubmitKeepsLedger(root, t, acc, player, op, pid);
        case CallQuit(player, finishMs) => QuitKeepsLedger(root, t, acc, player, finishMs, pid);
        case CallTick(nowMs, finishMs) => TickKeepsLedger(root, t, acc, nowMs, finishMs, pid);
      }
    }
  }

  /**
   In every run the frame that a tick sends to either player lists the queue the tick found: the same
   operations, sorted by player id, each player's own order kept.
   */
  lemma FrameListsTheQueue(
      root: Root, roomId: int, id1: int, id2: int, createdMs: int, calls: seq<Call>, nowMs: int, finishMs: int,
      pid: int)
    requires id1 != id2 && (pid == id1 || pid == id2)
    ensures var r := Run(root, NewRoom(roomId, id1, id2, 0, createdMs), calls).room;
            var t := Tick(root, r, nowMs, finishMs);
            var frame := BuildFrame(t.room, !r.started);
            !r.finished && !t.room.finished ==>
              && L.FramesTo(t.events, pid) == [frame]
              && multiset(frame.ops) == multiset(r.pending) && SortedByPlayer(frame.ops)
              && Interleaving(r.pending, frame.ops)
  {
    LedgerOfRun(root, NewRoom(roomId, id1, id2, 0, createdMs), calls, pid);
    var r := Run(root, NewRoom(roomId, id1, id2, 0, createdMs), calls).room;
    if !r.finished {
      L.FramesOfCall(root, r, CallTick(nowMs, finishMs), pid);
      TickMovesTheQueue(root, r, nowMs, finishMs, pid);
      SortOpsLaws(r.pending);
    }
  }

  /** Every accepted operation takes effect at the next tick: the batch applied is the whole queue. */
  lemma NextTickAppliesTheQueue(root: Root, roomId: int, id1: int, id2: int, createdMs: int, calls: seq<Call>)
    requires id1 != id2
    ensures var r := Run(root, NewRoom(roomId, id1, id2, 0, createdMs), calls).room;
            !r.finished ==> Consumed(root, r).frameOps == r.pending
  {
    LedgerOfRun(root, NewRoom(roomId, id1, id2, 0, createdMs), calls, id1);
    var r := Run(root, NewRoom(roomId, id1, id2, 0, createdMs), calls).room;
    if !r.finished { TickConsumesAll(root, r); }
  }
}
