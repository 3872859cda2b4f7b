/**
 What an unstable sort can do. The server sorts a frame by player alone, so it may return the records of one
 player in any order. Which queues are safe whatever it returns, exactly.
 */
module AnySort {
  import opened Options
  import opened Battle
  import opened OrderIndependence
  import opened Batches
  import opened Lockstep
  import opened FrameOrder
  import W = Walk
  import P = LockstepPremises

  /* ---------- what a sort by player alone may do ---------- */

  /** What a sort by player may return, stable or not. */
  ghost predicate Sorting(listed: seq<OpRecord>, ops: seq<OpRecord>) {
    SortedByPlayer(ops) && multiset(ops) == multiset(listed)
  }

  predicate ListsMove(recs: seq<OpRecord>, id: int, op: Op) {
    op.Move? && OpRecord(id, op) in recs
  }

  predicate ListsAttack(recs: seq<OpRecord>, id: int, target: int) {
    OpRecord(id, Atk(target)) in recs
  }

  predicate ListsSkill(recs: seq<OpRecord>, id: int, target: int) {
    OpRecord(id, Skill(target)) in recs
  }

  /** Whom side s would hit by aiming at u is whom it would hit by aiming at v. */
  predicate SameAim(root: Root, a: Arena, s: Side, u: int, v: int, range: real) {
    && Reaches(root, a, s, u, First, range) == Reaches(root, a, s, v, First, range)
    && Reaches(root, a, s, u, Second, range) == Reaches(root, a, s, v, Second, range)
  }

  /** The order of side s's records cannot matter: its moves, and what its attacks and skills hit, are alike. */
  ghost predicate OrderProof(root: Root, a: Arena, recs: seq<OpRecord>, s: Side) {
    var id := a.Get(s).id;
    && (a.Get(s).alive ==> forall m, n :: ListsMove(recs, id, m) && ListsMove(recs, id, n) ==> m == n)
    && (AttackReady(a, s) ==>
          forall u, v :: ListsAttack(recs, id, u) && ListsAttack(recs, id, v) ==> SameAim(root, a, s, u, v, 8.0))
    && (SkillReady(a, s) ==>
          forall u, v :: ListsSkill(recs, id, u) && ListsSkill(recs, id, v) ==> SameAim(root, a, s, u, v, 15.0))
  }

  lemma {:induction false} FirstsAreListed(recs: seq<OpRecord>, id: int)
    ensures FirstAttack(recs, id).Some? ==> ListsAttack(recs, id, FirstAttack(recs, id).value)
    ensures FirstSkill(recs, id).Some? ==> ListsSkill(recs, id, FirstSkill(recs, id).value)
    ensures W.LastMove(recs, id).Some? ==> ListsMove(recs, id, W.LastMove(recs, id).value)
  {
    if recs != [] {
      var init, last := recs[..|recs| - 1], recs[|recs| - 1];
      FirstsAreListed(init, id);
      assert recs == init + [last];
    }
  }

  lemma SameListing(recs: seq<OpRecord>, recs': seq<OpRecord>, id: int)
    requires multiset(recs) == multiset(recs')
    ensures forall op :: OpRecord(id, op) in recs <==> OpRecord(id, op) in recs'
  {
    assert forall rec :: rec in recs <==> rec in multiset(recs);
    assert forall rec :: rec in recs' <==> rec in multiset(recs');
  }

  /* ---------- queues that survive any sort ---------- */

  /** What side s does in two orders of the same records. */
  lemma SafeSide(root: Root, a: Arena, listed: seq<OpRecord>, ops: seq<OpRecord>, s: Side)
    requires multiset(ops) == multiset(listed) && OrderProof(root, a, listed, s)
    ensures a.Get(s).alive ==> W.LastMove(ops, a.Get(s).id) == W.LastMove(listed, a.Get(s).id)
    ensures DamageBy(root, a, s, ops, First) == DamageBy(root, a, s, listed, First)
    ensures DamageBy(root, a, s, ops, Second) == DamageBy(root, a, s, listed, Second)
  {
    var id := a.Get(s).id;
    SameListing(ops, listed, id);
    FirstsAreListed(ops, id);
    FirstsAreListed(listed, id);
    FirstsOfPermutation(ops, listed, id);
    LastMoveOfPermutation(ops, listed, id);
    var m, u, v := W.LastMove(ops, id), FirstAttack(ops, id), FirstSkill(ops, id);
    if m.Some? { assert ListsMove(listed, id, m.value); }
    if u.Some? { assert ListsAttack(listed, id, u.value); }
    if v.Some? { assert ListsSkill(listed, id, v.value); }
    if AttackReady(a, s) && u.Some? { assert SameAim(root, a, s, u.value, FirstAttack(listed, id).value, 8.0); }
    if SkillReady(a, s) && v.Some? { assert SameAim(root, a, s, v.value, FirstSkill(listed, id).value, 15.0); }
  }

  lemma SafeOrder(root: Root, a: Arena, listed: seq<OpRecord>, ops: seq<OpRecord>)
    requires multiset(ops) == multiset(listed)
    requires OrderProof(root, a, listed, First) && OrderProof(root, a, listed, Second)
    ensures SameForSide(root, a, ops, listed, First) && SameForSide(root, a, ops, listed, Second)
  {
    SafeSide(root, a, listed, ops, First);
    SafeSide(root, a, listed, ops, Second);
  }

  /* ---------- queues that do not ---------- */

  lemma PullOut(recs: seq<OpRecord>, rec: OpRecord) returns (pre: seq<OpRecord>, post: seq<OpRecord>)
    requires rec in recs
    ensures recs == pre + [rec] + post
    ensures multiset(recs) == multiset(pre + post + [rec]) == multiset([rec] + pre + post)
  {
    var k :| 0 <= k < |recs| && recs[k] == rec;
    pre, post := recs[..k], recs[k + 1..];
    assert recs == pre + [rec] + post;
  }

  lemma {:induction false} FirstsOfConcat(pre: seq<OpRecord>, post: seq<OpRecord>, id: int)
    ensures FirstAttack(pre + post, id) ==
            if FirstAttack(pre, id).Some? then FirstAttack(pre, id) else FirstAttack(post, id)
    ensures FirstSkill(pre + post, id) ==
            if FirstSkill(pre, id).Some? then FirstSkill(pre, id) else FirstSkill(post, id)
  {
    if post == [] {
      assert pre + post == pre;
    } else {
      var init, last := post[..|post| - 1], post[|post| - 1];
      FirstsOfConcat(pre, init, id);
      assert pre + post == (pre + init) + [last];
      FirstsOneMore(pre + init, last, id);
    }
  }

  /** Sorting a list keeps what each player does first and last. */
  lemma SortKeepsFirsts(recs: seq<OpRecord>, id: int)
    ensures Sorting(recs, SortOps(recs))
    ensures FirstAttack(SortOps(recs), id) == FirstAttack(recs, id)
            && FirstSkill(SortOps(recs), id) == FirstSkill(recs, id)
    ensures W.LastMove(SortOps(recs), id) == W.LastMove(recs, id)
  {
    SortOpsLaws(recs);
    assert Of(SortOps(recs), id) == Of(recs, id);
    FirstsAreOwn(recs, id);
    FirstsAreOwn(SortOps(recs), id);
    LastMoveIsOwn(recs, id);
    LastMoveIsOwn(SortOps(recs), id);
  }

  /** A move of the list may come last. */
  lemma MoveComesLast(listed: seq<OpRecord>, id: int, m: Op) returns (ops: seq<OpRecord>)
    requires ListsMove(listed, id, m)
    ensures Sorting(listed, ops) && W.LastMove(ops, id) == Some(m)
  {
    var rec := OpRecord(id, m);
    var pre, post := PullOut(listed, rec);
    ops := SortOps(pre + post + [rec]);
    SortKeepsFirsts(pre + post + [rec], id);
    LastMoveOfSnoc(pre + post, rec);
  }

  lemma FirstsOfOne(rec: OpRecord, id: int)
    ensures FirstAttack([rec], id) == if rec.player == id && rec.op.Atk? then Some(rec.op.target) else None
    ensures FirstSkill([rec], id) == if rec.player == id && rec.op.Skill? then Some(rec.op.target) else None
  {
    assert [rec][..0] == [];
  }

  /** A record of the list may come first; it decides its player's first attack or skill, and nothing else changes. */
  lemma RecordComesFirst(listed: seq<OpRecord>, rec: OpRecord) returns (ops: seq<OpRecord>)
    requires rec in listed
    ensures Sorting(listed, ops)
    ensures forall id :: FirstAttack(ops, id) ==
                         if rec.player == id && rec.op.Atk? then Some(rec.op.target) else FirstAttack(listed, id)
    ensures forall id :: FirstSkill(ops, id) ==
                         if rec.player == id && rec.op.Skill? then Some(rec.op.target) else FirstSkill(listed, id)
  {
    var pre, post := PullOut(listed, rec);
    var moved := [rec] + pre + post;
    ops := SortOps(moved);
    SortOpsLaws(moved);
    forall id
      ensures FirstAttack(ops, id) ==
              if rec.player == id && rec.op.Atk? then Some(rec.op.target) else FirstAttack(listed, id)
      ensures FirstSkill(ops, id) ==
              if rec.player == id && rec.op.Skill? then Some(rec.op.target) else FirstSkill(listed, id)
    {
      SortKeepsFirsts(moved, id);
      FirstsOfOne(rec, id);
      FirstsOfConcat([rec] + pre, post, id);
      FirstsOfConcat([rec], pre, id);
      FirstsOfConcat(pre + [rec], post, id);
      FirstsOfConcat(pre, [rec], id);
    }
  }

  lemma UnsafeMove(root: Root, a: Arena, listed: seq<OpRecord>, s: Side, m: Op, n: Op) returns (ops: seq<OpRecord>)
    requires var id := a.Get(s).id; a.Get(s).alive && ListsMove(listed, id, m) && ListsMove(listed, id, n) && m != n
    ensures Sorting(listed, ops) && !SameForSide(root, a, ops, listed, s)
  {
    ops := MoveComesLast(listed, a.Get(s).id, if W.LastMove(listed, a.Get(s).id) == Some(m) then n else m);
  }

  /** Which side u and v would not hit alike. */
  lemma DifferentAim(root: Root, a: Arena, s: Side, u: int, v: int, w: int, range: real) returns (z: int, t: Side)
    requires !SameAim(root, a, s, u, v, range)
    ensures z in {u, v} && Reaches(root, a, s, z, t, range) != Reaches(root, a, s, w, t, range)
  {
    t := if Reaches(root, a, s, u, First, range) == Reaches(root, a, s, v, First, range) then Second else First;
    z := if Reaches(root, a, s, u, t, range) == Reaches(root, a, s, w, t, range) then v else u;
  }

  lemma UnsafeAttack(root: Root, a: Arena, listed: seq<OpRecord>, s: Side, u: int, v: int)
    returns (ops: seq<OpRecord>, t: Side)
    requires a.p1.id != a.p2.id && AttackReady(a, s) && !SameAim(root, a, s, u, v, 8.0)
    requires ListsAttack(listed, a.Get(s).id, u) && ListsAttack(listed, a.Get(s).id, v)
    ensures Sorting(listed, ops) && !SameForSide(root, a, ops, listed, t)
  {
    FirstsExist(listed, a.Get(s).id);
    var z: int;
    z, t := DifferentAim(root, a, s, u, v, FirstAttack(listed, a.Get(s).id).value, 8.0);
    ops := RecordComesFirst(listed, OpRecord(a.Get(s).id, Atk(z)));
    assert DamageBy(root, a, s.Other(), ops, t) == DamageBy(root, a, s.Other(), listed, t);
    assert SkillDamage(root, a, s, ops, t) == SkillDamage(root, a, s, listed, t);
  }

  lemma UnsafeSkill(root: Root, a: Arena, listed: seq<OpRecord>, s: Side, u: int, v: int)
    returns (ops: seq<OpRecord>, t: Side)
    requires a.p1.id != a.p2.id && SkillReady(a, s) && !SameAim(root, a, s, u, v, 15.0)
    requires ListsSkill(listed, a.Get(s).id, u) && ListsSkill(listed, a.Get(s).id, v)
    ensures Sorting(listed, ops) && !SameForSide(root, a, ops, listed, t)
  {
    FirstsExist(listed, a.Get(s).id);
    var z: int;
    z, t := DifferentAim(root, a, s, u, v, FirstSkill(listed, a.Get(s).id).value, 15.0);
    ops := RecordComesFirst(listed, OpRecord(a.Get(s).id, Skill(z)));
    assert DamageBy(root, a, s.Other(), ops, t) == DamageBy(root, a, s.Other(), listed, t);
    assert AttackDamage(root, a, s, ops, t) == AttackDamage(root, a, s, listed, t);
  }

  lemma UnsafeOrder(root: Root, a: Arena, listed: seq<OpRecord>, s: Side) returns (ops: seq<OpRecord>, t: Side)
    requires a.p1.id != a.p2.id && !OrderProof(root, a, listed, s)
    ensures Sorting(listed, ops) && !SameForSide(root, a, ops, listed, t)
  {
    var id := a.Get(s).id;
    if m, n :| ListsMove(listed, id, m) && ListsMove(listed, id, n) && m != n && a.Get(s).alive {
      t := s;
      ops := UnsafeMove(root, a, listed, s, m, n);
    } else if u, v :| ListsAttack(listed, id, u) && ListsAttack(listed, id, v) && !SameAim(root, a, s, u, v, 8.0)
                      && AttackReady(a, s) {
      ops, t := UnsafeAttack(root, a, listed, s, u, v);
    } else if u, v :| ListsSkill(listed, id, u) && ListsSkill(listed, id, v) && !SameAim(root, a, s, u, v, 15.0)
                      && SkillReady(a, s) {
      ops, t := UnsafeSkill(root, a, listed, s, u, v);
    }
  }

  /* ---------- the queue of a tick ---------- */

  lemma {:induction false} KeptMembers(root: Root, a: Arena, recs: seq<OpRecord>, rec: OpRecord)
    ensures rec in Kept(root, a, recs) <==> rec in recs && Heard(a, rec)
  {
    if recs != [] {
      var init, last := recs[..|recs| - 1], recs[|recs| - 1];
      KeptMembers(root, a, init, rec);
      RecordsKeepStage(root, a, init);
      StageDecidesHeard(a, ApplyAll(root, a, init), last);
      assert recs == init + [last];
    }
  }

  /** A living player's records are all listed. */
  lemma FrameListsLiving(root: Root, r: Room, nowMs: int, s: Side)
    requires r.arena.p1.id != r.arena.p2.id && !r.finished && r.arena.Get(s).alive
    ensures var listed, id := BuildFrame(TickSection(root, r, nowMs).room, false).ops, r.arena.Get(s).id;
            forall op :: OpRecord(id, op) in listed <==> OpRecord(id, op) in r.pending
  {
    var a, id := r.arena.(tick := r.arena.tick + 1), r.arena.Get(s).id;
    var kept := Kept(root, a, r.pending);
    P.FrameOpsOf(root, r, nowMs);
    SortOpsLaws(kept);
    SameListing(SortOps(kept), kept, id);
    forall op ensures OpRecord(id, op) in kept <==> OpRecord(id, op) in r.pending {
      KeptMembers(root, a, r.pending, OpRecord(id, op));
    }
  }

  lemma OrderProofOfQueue(root: Root, r: Room, nowMs: int, s: Side)
    requires r.arena.p1.id != r.arena.p2.id && !r.finished
    ensures var a, listed := r.arena.(tick := r.arena.tick + 1),
                             BuildFrame(TickSection(root, r, nowMs).room, false).ops;
            OrderProof(root, a, listed, s) <==> OrderProof(root, a, r.pending, s)
  {
    if r.arena.Get(s).alive {
      var a, id := r.arena.(tick := r.arena.tick + 1), r.arena.Get(s).id;
      var listed := BuildFrame(TickSection(root, r, nowMs).room, false).ops;
      FrameListsLiving(root, r, nowMs, s);
      assert forall m :: ListsMove(listed, id, m) <==> ListsMove(r.pending, id, m);
      assert forall u :: ListsAttack(listed, id, u) <==> ListsAttack(r.pending, id, u);
      assert forall u :: ListsSkill(listed, id, u) <==> ListsSkill(r.pending, id, u);
    }
  }

  lemma SafeQueue(root: Root, r: Room, ops: seq<OpRecord>, nowMs: int)
    requires IsSqrt(root) && r.arena.p1.id != r.arena.p2.id && r.started && !r.finished
    requires TickSection(root, r, nowMs).outcome.Broadcast?
    requires Sorting(BuildFrame(TickSection(root, r, nowMs).room, false).ops, ops)
    requires var a := r.arena.(tick := r.arena.tick + 1);
             OrderProof(root, a, r.pending, First) && OrderProof(root, a, r.pending, Second)
    ensures KeepsStep(root, r, ops, nowMs)
  {
    OrderProofOfQueue(root, r, nowMs, First);
    OrderProofOfQueue(root, r, nowMs, Second);
    SafeOrder(root, r.arena.(tick := r.arena.tick + 1), BuildFrame(TickSection(root, r, nowMs).room, false).ops, ops);
    FrameOrderExactly(root, r, ops, nowMs);
  }

  lemma UnsafeSorting(root: Root, r: Room, s: Side, nowMs: int) returns (ops: seq<OpRecord>, t: Side)
    requires r.arena.p1.id != r.arena.p2.id && !r.finished
    requires !OrderProof(root, r.arena.(tick := r.arena.tick + 1), r.pending, s)
    ensures var listed := BuildFrame(TickSection(root, r, nowMs).room, false).ops;
            Sorting(listed, ops) && !SameForSide(root, r.arena.(tick := r.arena.tick + 1), ops, listed, t)
  {
    var listed := BuildFrame(TickSection(root, r, nowMs).room, false).ops;
    OrderProofOfQueue(root, r, nowMs, s);
    ops, t := UnsafeOrder(root, r.arena.(tick := r.arena.tick + 1), listed, s);
  }

  lemma BadOrderIsSeen(root: Root, r: Room, ops: seq<OpRecord>, t: Side, nowMs: int)
    requires IsSqrt(root) && r.arena.p1.id != r.arena.p2.id && r.started && !r.finished
    requires TickSection(root, r, nowMs).outcome.Broadcast?
    requires var listed := BuildFrame(TickSection(root, r, nowMs).room, false).ops;
             multiset(ops) == multiset(listed) && !SameForSide(root, r.arena.(tick := r.arena.tick + 1), ops, listed, t)
    ensures !KeepsStep(root, r, ops, nowMs)
  {
    FrameOrderExactly(root, r, ops, nowMs);
    assert t == First || t == Second;
  }

  lemma UnsafeQueue(root: Root, r: Room, s: Side, nowMs: int) returns (ops: seq<OpRecord>)
    requires IsSqrt(root) && r.arena.p1.id != r.arena.p2.id && r.started && !r.finished
    requires TickSection(root, r, nowMs).outcome.Broadcast?
    requires !OrderProof(root, r.arena.(tick := r.arena.tick + 1), r.pending, s)
    ensures Sorting(BuildFrame(TickSection(root, r, nowMs).room, false).ops, ops) && !KeepsStep(root, r, ops, nowMs)
  {
    var t: Side;
    ops, t := UnsafeSorting(root, r, s, nowMs);
    BadOrderIsSeen(root, r, ops, t, nowMs);
  }

  /**
   Which queues survive a sort that looks at the player alone. Whatever order the sort of a tick's frame may
   return, the client in step stays in step: exactly if for each player that can act all moves waiting are the
   same move, and, if the cooldown is free, all its attacks waiting would hit the same side, or none, and so
   with its skills.
   */
  lemma AnySortExactly(root: Root, r: Room, nowMs: int)
    requires IsSqrt(root) && r.arena.p1.id != r.arena.p2.id && r.started && !r.finished
    requires TickSection(root, r, nowMs).outcome.Broadcast?
    ensures var frame := BuildFrame(TickSection(root, r, nowMs).room, false);
            var a := r.arena.(tick := r.arena.tick + 1);
            (forall ops :: Sorting(frame.ops, ops) ==> KeepsStep(root, r, ops, nowMs)) <==>
            OrderProof(root, a, r.pending, First) && OrderProof(root, a, r.pending, Second)
  {
    var a := r.arena.(tick := r.arena.tick + 1);
    if !OrderProof(root, a, r.pending, First) {
      var ops := UnsafeQueue(root, r, First, nowMs);
    } else if !OrderProof(root, a, r.pending, Second) {
      var ops := UnsafeQueue(root, r, Second, nowMs);
    } else {
      forall ops | Sorting(BuildFrame(TickSection(root, r, nowMs).room, false).ops, ops)
        ensures KeepsStep(root, r, ops, nowMs)
      {
        SafeQueue(root, r, ops, nowMs);
      }
    }
  }

  /** So with two different moves of one living player waiting, some sort by player puts clients out of step. */
  lemma UnstableOrderBreaksLockstep(root: Root, r: Room, s: Side, move1: Op, move2: Op, nowMs: int)
    returns (ops: seq<OpRecord>)
    requires IsSqrt(root) && r.arena.p1.id != r.arena.p2.id && r.started && !r.finished && r.arena.Get(s).alive
    requires TickSection(root, r, nowMs).outcome.Broadcast?
    requires var id := r.arena.Get(s).id;
             ListsMove(r.pending, id, move1) && ListsMove(r.pending, id, move2) && move1 != move2
    ensures Sorting(BuildFrame(TickSection(root, r, nowMs).room, false).ops, ops) && !KeepsStep(root, r, ops, nowMs)
  {
    ops := UnsafeQueue(root, r, s, nowMs);
  }

  /** And with two attacks of one player with a free cooldown, of which one reaches whom the other does not. */
  lemma SwappedAttacksBreakLockstep(
      root: Root, r: Room, s: Side, u: int, v: int, nowMs: int) returns (ops: seq<OpRecord>)
    requires IsSqrt(root) && r.arena.p1.id != r.arena.p2.id && r.started && !r.finished
    requires TickSection(root, r, nowMs).outcome.Broadcast?
    requires var a, id := r.arena.(tick := r.arena.tick + 1), r.arena.Get(s).id;
             && AttackReady(a, s) && !SameAim(root, a, s, u, v, 8.0)
             && ListsAttack(r.pending, id, u) && ListsAttack(r.pending, id, v)
    ensures Sorting(BuildFrame(TickSection(root, r, nowMs).room, false).ops, ops) && !KeepsStep(root, r, ops, nowMs)
  {
    ops := UnsafeQueue(root, r, s, nowMs);
  }
}
