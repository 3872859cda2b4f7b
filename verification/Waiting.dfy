/**
 How long a member waits, and why a ticket may be lost. A sweep lists exactly the members who have waited ten
 seconds or more when it reads the pool; what it removes later was on such a list. No ticket is lost without
 a step that accounts for it.
 */
module Waiting {
  import opened Options
  import opened Codec = MemberCodec
  import opened Matchmaking

  /** A range read of instance i lists exactly the members with an entry of 10 s or more. */
  lemma RangeReadIsExact(w: World, i: Instance, nowMs: int, member: string)
    requires w.PcOf(i).ToSweep?
    ensures var p, v := w.PcOf(i).pool, SweepRange(w, i, nowMs, true);
            && v.PcOf(i).Sweeping? && v.PcOf(i).pool == p && v.PoolAt(p) == w.PoolAt(p)
            && (member in v.PcOf(i).todo <==> Overdue(w, p, member, nowMs))
  {
    StaleIsExact(w.PoolAt(w.PcOf(i).pool), nowMs - MATCH_TIMEOUT_MS);
  }

  /** The member has an entry that is 10 s old, or older. */
  ghost predicate Overdue(w: World, p: Pool, member: string, nowMs: int) {
    exists e :: e in w.PoolAt(p) && e.member == member && 10000 <= nowMs - e.score
  }

  /** Step k is the range read of a sweep of pool p by instance i, and all these members were overdue then. */
  ghost predicate ReadAt(acts: seq<Action>, k: nat, i: Instance, p: Pool, members: seq<string>) {
    && k < |acts| && acts[k].DoSweepRange? && acts[k].i == i && Run(acts[..k]).PcOf(i) == ToSweep(p)
    && forall m :: m in members ==> Overdue(Run(acts[..k]), p, m, acts[k].nowMs)
  }

  lemma ReadStays(
      acts: seq<Action>, act: Action, k: nat, i: Instance, p: Pool, members: seq<string>, fewer: seq<string>)
    requires ReadAt(acts, k, i, p, members) && forall m :: m in fewer ==> m in members
    ensures ReadAt(acts + [act], k, i, p, fewer)
  {
    assert (acts + [act])[k] == acts[k] && (acts + [act])[..k] == acts[..k];
  }

  /** How an instance can come to be sweeping: it was, with the same list or one member more, or has just read it. */
  lemma SweepingComesFrom(w: World, act: Action, i: Instance)
    requires Step(w, act).PcOf(i).Sweeping?
    ensures var pc, before := Step(w, act).PcOf(i), w.PcOf(i);
            || pc == before
            || (before.Sweeping? && before.pool == pc.pool && before.todo != [] && pc.todo == before.todo[1..])
            || (act.DoSweepRange? && act.i == i && act.answered && before == ToSweep(pc.pool))
  {
    if act.DoJoin? { EvictMovesNobody(w, PoolOf(act.mode), EncodeMember(act.waiter), Superseded); }
    if act.DoLeave? { EvictMovesNobody(w, act.pool, EncodeMember(act.waiter), Left); }
    if act.DoSweepOne? && w.PcOf(act.i).Sweeping? && w.PcOf(act.i).todo != [] {
      EvictMovesNobody(w, w.PcOf(act.i).pool, w.PcOf(act.i).todo[0], Expired);
    }
  }

  lemma EvictMovesNobody(w: World, p: Pool, member: string, exit: Exit)
    ensures Evict(w, p, member, exit).pcs == w.pcs
  {
  }

  /**
   Whoever an instance is about to remove as timed out had waited 10 s or more in that pool when the instance
   read it, whatever happened since.
   */
  lemma {:induction false} SweepsListTheOverdue(acts: seq<Action>, i: Instance) returns (k: nat)
    requires Run(acts).PcOf(i).Sweeping?
    ensures ReadAt(acts, k, i, Run(acts).PcOf(i).pool, Run(acts).PcOf(i).todo)
  {
    var init, act := acts[..|acts| - 1], acts[|acts| - 1];
    var w, pc := Run(init), Run(acts).PcOf(i);
    assert acts == init + [act];
    SweepingComesFrom(w, act, i);
    if w.PcOf(i).Sweeping? {
      k := SweepsListTheOverdue(init, i);
      ReadStays(init, act, k, i, pc.pool, w.PcOf(i).todo, pc.todo);
    } else {
      k := |init|;
      forall m | m in pc.todo ensures Overdue(w, pc.pool, m, act.nowMs) {
        RangeReadIsExact(w, i, act.nowMs, m);
      }
      assert acts[..k] == init;
    }
  }

  /* ---------- why tickets are lost ---------- */

  /** The kind of step that loses a ticket in this way. */
  predicate Explains(act: Action, exit: Exit) {
    match exit
    case Left => act.DoLeave?
    case Expired => act.DoSweepOne? && act.applied
    case Superseded => act.DoJoin?
    case IncrFailed => act.DoIncr? && !(act.applied && act.answered)
    case ReplyLost => act.DoPair? && !act.answered
  }

  lemma EvictExplained(w: World, p: Pool, member: string, exit: Exit, t: nat)
    ensures var g := Evict(w, p, member, exit).gone; t in g ==> (t in w.gone && g[t] == w.gone[t]) || g[t] == exit
  {
  }

  lemma PairExplained(w: World, i: Instance, p: Pool, answered: bool, t: nat)
    ensures var g := Pair(w, i, p, answered).gone;
            t in g ==> (t in w.gone && g[t] == w.gone[t]) || (g[t] == ReplyLost && !answered)
  {
  }

  lemma IncrExplained(w: World, i: Instance, applied: bool, answered: bool, t: nat)
    ensures var g := Incr(w, i, applied, answered).gone;
            t in g ==> (t in w.gone && g[t] == w.gone[t]) || (g[t] == IncrFailed && !(applied && answered))
  {
  }

  lemma RoomsLoseNothing(w: World, act: Action)
    requires act.DoCreate? || act.DoPublish?
    ensures Step(w, act).gone == w.gone
  {
  }

  lemma StepExplainsLoss(w: World, act: Action, t: nat)
    requires t in Step(w, act).gone
    ensures (t in w.gone && Step(w, act).gone[t] == w.gone[t]) || Explains(act, Step(w, act).gone[t])
  {
    match act
    case DoJoin(mode, waiter, nowMs) => EvictExplained(w, PoolOf(mode), EncodeMember(waiter), Superseded, t);
    case DoLeave(p, waiter) => EvictExplained(w, p, EncodeMember(waiter), Left, t);
    case DoSweepOne(i, applied) =>
      if w.PcOf(i).Sweeping? && w.PcOf(i).todo != [] {
        EvictExplained(w, w.PcOf(i).pool, w.PcOf(i).todo[0], Expired, t);
      }
    case DoPair(i, p, answered) => PairExplained(w, i, p, answered, t);
    case DoIncr(i, applied, answered) => IncrExplained(w, i, applied, answered, t);
    case DoCreate(_) | DoPublish(_, _) => RoomsLoseNothing(w, act);
    case _ =>
  }

  /** Every lost ticket was lost by a step of the kind its loss is put down to. */
  lemma {:induction false} LossesHaveCauses(acts: seq<Action>, t: nat) returns (k: nat)
    requires t in Run(acts).gone
    ensures k < |acts| && Explains(acts[k], Run(acts).gone[t])
  {
    var init, act := acts[..|acts| - 1], acts[|acts| - 1];
    StepExplainsLoss(Run(init), act, t);
    if Explains(act, Run(acts).gone[t]) {
      k := |init|;
    } else {
      k := LossesHaveCauses(init, t);
    }
  }
}
