/**
 Within one tick the order in which different players' records are applied does not matter, as long
 as each player's own records stay in order. This is what lets the server apply records as they
 arrive and the clients apply them in player-id order.
 */
module OrderIndependence {
  import opened Options
  import opened Battle

  /** The records of one player, in order. */
  function Of(recs: seq<OpRecord>, id: int): seq<OpRecord> {
    if recs == [] then []
    else Of(recs[..|recs| - 1], id) + if recs[|recs| - 1].player == id then [recs[|recs| - 1]] else []
  }

  /** Same players' sequences: a reordering that keeps each player's own order. */
  ghost predicate Interleaving(recs: seq<OpRecord>, recs': seq<OpRecord>) {
    forall id :: Of(recs, id) == Of(recs', id)
  }

  ghost predicate SameSpot(f: Fighter, g: Fighter) {
    f.id == g.id && f.alive == g.alive && f.x == g.x && f.y == g.y
  }

  /** What operations leave alone: the tick, who is who, who is alive and where everyone stands. */
  ghost predicate SameStage(a: Arena, b: Arena) {
    a.tick == b.tick && SameSpot(a.p1, b.p1) && SameSpot(a.p2, b.p2)
  }

  lemma OpKeepsStage(root: Root, a: Arena, s: Side, op: Op)
    ensures SameStage(a, ApplyOp(root, a, s, op))
  {
  }

  lemma {:induction false} RecordsKeepStage(root: Root, a: Arena, recs: seq<OpRecord>)
    ensures SameStage(a, ApplyAll(root, a, recs))
  {
    if recs != [] {
      var init := recs[..|recs| - 1];
      RecordsKeepStage(root, a, init);
      var b, last := ApplyAll(root, a, init), recs[|recs| - 1];
      if Heard(b, last) { OpKeepsStage(root, b, b.Find(last.player).value, last.op); }
    }
  }

  lemma StageDecidesHeard(a: Arena, b: Arena, rec: OpRecord)
    requires SameStage(a, b)
    ensures a.Find(rec.player) == b.Find(rec.player) && Heard(a, rec) == Heard(b, rec)
  {
  }

  /* ---------- one operation as its effect on the two fighters ---------- */

  /** Damage that side s's operation deals to side t. */
  function DamageTo(root: Root, a: Arena, s: Side, op: Op, t: Side): int {
    ApplyOp(root, a, s, op).Get(t).hp - a.Get(t).hp
  }

  /** On the other side an operation changes nothing but hp, by an amount its own state decides. */
  lemma OpOnOther(root: Root, a: Arena, s: Side, op: Op)
    ensures var o := s.Other();
            ApplyOp(root, a, s, op).Get(o) == a.Get(o).(hp := a.Get(o).hp + DamageTo(root, a, s, op, o))
  {
  }

  /** The other side's record keeping and everybody's hp do not decide what an operation does. */
  ghost predicate SameForActor(a: Arena, b: Arena, s: Side) {
    SameStage(a, b) && b.Get(s) == a.Get(s).(hp := b.Get(s).hp)
  }

  /** f and g differ by the same hp and score as h and k. */
  ghost predicate SameGain(f: Fighter, f': Fighter, g: Fighter, g': Fighter) {
    && f' == f.(hp := f'.hp, score := f'.score)
    && g' == g.(hp := g'.hp, score := g'.score)
    && f'.hp - f.hp == g'.hp - g.hp
    && f'.score - f.score == g'.score - g.score
  }

  lemma StrikeOnActor(root: Root, a: Arena, b: Arena, s: Side, target: int, range: real, damage: int, points: int)
    requires SameStage(a, b)
    ensures var a', b' := Strike(root, a, s, target, range, damage, points),
                          Strike(root, b, s, target, range, damage, points);
            SameGain(a.p1, a'.p1, b.p1, b'.p1) && SameGain(a.p2, a'.p2, b.p2, b'.p2)
  {
    if a.Find(target).Some? {
      var t := a.Find(target).value;
      assert b.Find(target) == Some(t);
      assert Distance(root, a.Get(s).x, a.Get(s).y, a.Get(t).x, a.Get(t).y)
          == Distance(root, b.Get(s).x, b.Get(s).y, b.Get(t).x, b.Get(t).y);
    }
  }

  lemma OpOnActor(root: Root, a: Arena, b: Arena, s: Side, op: Op)
    requires SameForActor(a, b, s)
    ensures var a', b' := ApplyOp(root, a, s, op), ApplyOp(root, b, s, op);
            && b'.Get(s) == a'.Get(s).(hp := b.Get(s).hp + DamageTo(root, a, s, op, s))
            && DamageTo(root, a, s, op, s.Other()) == DamageTo(root, b, s, op, s.Other())
  {
    var p, q := a.Get(s), b.Get(s);
    match op
    case Move(_, _) =>
    case Atk(target) =>
      StrikeOnActor(root, a.Put(s, p.(lastAtk := a.tick)), b.Put(s, q.(lastAtk := b.tick)),
                    s, target, ATK_RANGE, ATK_DAMAGE, ATK_SCORE);
    case Skill(target) =>
      StrikeOnActor(root, a.Put(s, p.(lastSkill := a.tick)), b.Put(s, q.(lastSkill := b.tick)),
                    s, target, SKILL_RANGE, SKILL_DAMAGE, SKILL_SCORE);
    case Other =>
  }

  /** Operations of different players commute. */
  lemma OpsCommute(root: Root, a: Arena, s: Side, op: Op, op': Op)
    ensures var t := s.Other();
            ApplyOp(root, ApplyOp(root, a, s, op), t, op') == ApplyOp(root, ApplyOp(root, a, t, op'), s, op)
  {
    var t := s.Other();
    var b, c := ApplyOp(root, a, s, op), ApplyOp(root, a, t, op');
    OpOnOther(root, a, s, op);
    OpOnOther(root, a, t, op');
    OpKeepsStage(root, a, s, op);
    OpKeepsStage(root, a, t, op');
    OpOnActor(root, a, c, s, op);
    OpOnActor(root, a, b, t, op');
    OpOnOther(root, b, t, op');
    OpOnOther(root, c, s, op);
    assert ApplyOp(root, b, t, op').Get(s) == ApplyOp(root, c, s, op).Get(s);
    assert ApplyOp(root, b, t, op').Get(t) == ApplyOp(root, c, s, op).Get(t);
    OpKeepsStage(root, b, t, op');
    OpKeepsStage(root, c, s, op);
  }

  lemma RecordsCommute(root: Root, a: Arena, r: OpRecord, r': OpRecord)
    requires r.player != r'.player
    ensures Apply(root, Apply(root, a, r), r') == Apply(root, Apply(root, a, r'), r)
  {
    if Heard(a, r) {
      OpKeepsStage(root, a, a.Find(r.player).value, r.op);
      StageDecidesHeard(a, Apply(root, a, r), r');
    }
    if Heard(a, r') {
      OpKeepsStage(root, a, a.Find(r'.player).value, r'.op);
      StageDecidesHeard(a, Apply(root, a, r'), r);
    }
    if Heard(a, r) && Heard(a, r') {
      OpsCommute(root, a, a.Find(r.player).value, r.op, r'.op);
    }
  }

  /* ---------- whole batches ---------- */

  lemma {:induction false} OfConcat(recs: seq<OpRecord>, more: seq<OpRecord>, id: int)
    ensures Of(recs + more, id) == Of(recs, id) + Of(more, id)
  {
    if more == [] {
      assert recs + more == recs;
    } else {
      assert (recs + more)[..|recs + more| - 1] == recs + more[..|more| - 1];
      OfConcat(recs, more[..|more| - 1], id);
    }
  }

  lemma OfSnoc(recs: seq<OpRecord>, rec: OpRecord, id: int)
    ensures Of(recs + [rec], id) == Of(recs, id) + if rec.player == id then [rec] else []
  {
    assert (recs + [rec])[..|recs|] == recs;
  }

  lemma OfLast(recs: seq<OpRecord>, id: int)
    requires recs != []
    ensures var init, mine := Of(recs[..|recs| - 1], id), Of(recs, id);
            init == if recs[|recs| - 1].player == id then mine[..|mine| - 1] else mine
  {
  }

  lemma HasOwner(recs: seq<OpRecord>)
    requires recs != []
    ensures Of(recs, recs[|recs| - 1].player) != []
  {
  }

  lemma Reassociate(a: seq<OpRecord>, b: seq<OpRecord>, c: seq<OpRecord>)
    ensures a + b + c == a + (b + c)
  {
  }

  /** Splits recs at the last record of a player. */
  lemma {:induction false} SplitAtLast(recs: seq<OpRecord>, id: int) returns (pre: seq<OpRecord>, post: seq<OpRecord>)
    requires Of(recs, id) != []
    ensures var mine := Of(recs, id);
            recs == pre + [mine[|mine| - 1]] + post && mine[|mine| - 1].player == id
    ensures Of(post, id) == []
  {
    var init, last := recs[..|recs| - 1], recs[|recs| - 1];
    OfLast(recs, id);
    assert recs == init + [last];
    if last.player == id {
      pre, post := init, [];
      assert recs == pre + [last] + [];
    } else {
      var mine := Of(recs, id);
      pre, post := SplitAtLast(init, id);
      OfSnoc(post, last, id);
      Reassociate(pre + [mine[|mine| - 1]], post, [last]);
      post := post + [last];
    }
  }

  lemma {:induction false} AbsentFrom(recs: seq<OpRecord>, id: int, k: int)
    requires Of(recs, id) == [] && 0 <= k < |recs|
    ensures recs[k].player != id
  {
    if k < |recs| - 1 { AbsentFrom(recs[..|recs| - 1], id, k); }
  }

  lemma {:induction false} MoveToEnd(root: Root, a: Arena, pre: seq<OpRecord>, rec: OpRecord, post: seq<OpRecord>)
    requires Of(post, rec.player) == []
    ensures ApplyAll(root, a, pre + [rec] + post) == Apply(root, ApplyAll(root, a, pre + post), rec)
  {
    if post == [] {
      assert pre + post == pre && pre + [rec] + post == pre + [rec];
      assert (pre + [rec])[..|pre|] == pre;
    } else {
      var init, last := post[..|post| - 1], post[|post| - 1];
      AbsentFrom(post, rec.player, |post| - 1);
      MoveToEnd(root, a, pre, rec, init);
      assert (pre + [rec] + post)[..|pre| + |post|] == pre + [rec] + init;
      assert (pre + post)[..|pre| + |post| - 1] == pre + init;
      RecordsCommute(root, ApplyAll(root, a, pre + init), rec, last);
    }
  }

  /** Taking a player's last record out of a sequence takes it off that player's records. */
  lemma OfWithout(pre: seq<OpRecord>, rec: OpRecord, post: seq<OpRecord>, id: int)
    requires Of(post, rec.player) == []
    ensures var mine := Of(pre + [rec] + post, id);
            if id == rec.player then mine != [] && Of(pre + post, id) == mine[..|mine| - 1]
            else Of(pre + post, id) == mine
  {
    OfConcat(pre, post, id);
    OfConcat(pre + [rec], post, id);
    OfSnoc(pre, rec, id);
  }

  /** Any reordering that keeps each player's own order gives the same room state. */
  lemma {:induction false} OrderDoesNotMatter(root: Root, a: Arena, recs: seq<OpRecord>, recs': seq<OpRecord>)
    requires Interleaving(recs, recs')
    ensures ApplyAll(root, a, recs) == ApplyAll(root, a, recs')
    decreases |recs'|
  {
    if recs' == [] {
      if recs != [] { HasOwner(recs); }
    } else {
      var init, last := recs'[..|recs'| - 1], recs'[|recs'| - 1];
      assert Of(recs, last.player) == Of(recs', last.player);
      var pre, post := SplitAtLast(recs, last.player);
      MoveToEnd(root, a, pre, last, post);
      forall id ensures Of(pre + post, id) == Of(init, id) {
        assert Of(recs, id) == Of(recs', id);
        OfLast(recs', id);
        OfWithout(pre, last, post, id);
      }
      OrderDoesNotMatter(root, a, pre + post, init);
    }
  }

  /* ---------- the broadcast order ---------- */

  ghost predicate SortedByPlayer(recs: seq<OpRecord>) {
    forall i, j :: 0 <= i < j < |recs| ==> recs[i].player <= recs[j].player
  }

  lemma {:induction false} InsertOpContents(recs: seq<OpRecord>, rec: OpRecord)
    ensures multiset(InsertOp(recs, rec)) == multiset(recs) + multiset{rec}
  {
    if recs != [] && recs[|recs| - 1].player > rec.player {
      InsertOpContents(recs[..|recs| - 1], rec);
      assert recs == recs[..|recs| - 1] + [recs[|recs| - 1]];
    }
  }

  lemma InsertedIsOldOrNew(recs: seq<OpRecord>, rec: OpRecord, k: int)
    requires 0 <= k < |InsertOp(recs, rec)|
    ensures InsertOp(recs, rec)[k] == rec || InsertOp(recs, rec)[k] in recs
  {
    InsertOpContents(recs, rec);
    assert InsertOp(recs, rec)[k] in multiset(InsertOp(recs, rec));
  }

  lemma {:induction false} InsertOpKeeps(recs: seq<OpRecord>, rec: OpRecord)
    requires SortedByPlayer(recs)
    ensures SortedByPlayer(InsertOp(recs, rec))
  {
    if recs != [] && recs[|recs| - 1].player > rec.player {
      var init, last := recs[..|recs| - 1], recs[|recs| - 1];
      InsertOpKeeps(init, rec);
      var ins := InsertOp(init, rec);
      forall k | 0 <= k < |ins| ensures ins[k].player <= last.player {
        InsertedIsOldOrNew(init, rec, k);
      }
    }
  }

  lemma {:induction false} InsertOpOrder(recs: seq<OpRecord>, rec: OpRecord, id: int)
    ensures Of(InsertOp(recs, rec), id) == Of(recs + [rec], id)
  {
    if recs != [] && recs[|recs| - 1].player > rec.player {
      var init, last := recs[..|recs| - 1], recs[|recs| - 1];
      InsertOpOrder(init, rec, id);
      assert recs == init + [last];
      SwapLastTwo(init, InsertOp(init, rec), last, rec, id);
    }
  }

  lemma SwapLastTwo(init: seq<OpRecord>, ins: seq<OpRecord>, last: OpRecord, rec: OpRecord, id: int)
    requires Of(ins, id) == Of(init + [rec], id) && last.player != rec.player
    ensures Of(ins + [last], id) == Of(init + [last] + [rec], id)
  {
    OfSnoc(ins, last, id);
    OfSnoc(init, rec, id);
    OfSnoc(init, last, id);
    OfSnoc(init + [last], rec, id);
  }

  /** The frame's order: sorted, nothing lost or added, each player's own order kept. */
  lemma {:induction false} SortOpsLaws(recs: seq<OpRecord>)
    ensures SortedByPlayer(SortOps(recs))
    ensures multiset(SortOps(recs)) == multiset(recs)
    ensures Interleaving(recs, SortOps(recs))
  {
    if recs != [] {
      var init, last := recs[..|recs| - 1], recs[|recs| - 1];
      SortOpsLaws(init);
      InsertOpContents(SortOps(init), last);
      InsertOpKeeps(SortOps(init), last);
      assert recs == init + [last];
      forall id ensures Of(recs, id) == Of(SortOps(recs), id) {
        InsertOpOrder(SortOps(init), last, id);
        OfSnoc(SortOps(init), last, id);
        OfSnoc(init, last, id);
        assert Of(init, id) == Of(SortOps(init), id);
      }
    }
  }

  lemma {:induction false} SortedOwners(recs: seq<OpRecord>, id: int)
    requires SortedByPlayer(recs) && Of(recs, id) != []
    ensures recs != [] && id <= recs[|recs| - 1].player
  {
    if recs[|recs| - 1].player != id { SortedOwners(recs[..|recs| - 1], id); }
  }

  /** There is only one such order, so the model of the library sort is not a choice. */
  lemma {:induction false} SortedInterleavingIsUnique(recs: seq<OpRecord>, recs': seq<OpRecord>)
    requires SortedByPlayer(recs) && SortedByPlayer(recs') && Interleaving(recs, recs')
    ensures recs == recs'
  {
    if recs == [] {
      if recs' != [] { HasOwner(recs'); }
    } else {
      var z := recs[|recs| - 1];
      HasOwner(recs);
      SortedOwners(recs', z.player);
      var z' := recs'[|recs'| - 1];
      HasOwner(recs');
      SortedOwners(recs, z'.player);
      var init, init' := recs[..|recs| - 1], recs'[..|recs'| - 1];
      forall id ensures Of(init, id) == Of(init', id) {
        OfLast(recs, id);
        OfLast(recs', id);
      }
      SortedInterleavingIsUnique(init, init');
      assert z == Of(recs, z.player)[|Of(recs, z.player)| - 1] == z';
      assert recs == init + [z] && recs' == init' + [z'];
    }
  }

  /** Records that are not consumed make no difference; the consumed ones depend only on who is alive. */
  lemma {:induction false} KeptIsEnough(root: Root, a: Arena, recs: seq<OpRecord>)
    ensures ApplyAll(root, a, Kept(root, a, recs)) == ApplyAll(root, a, recs)
    ensures forall id :: Of(Kept(root, a, recs), id)
                         == if a.Find(id).Some? && a.Get(a.Find(id).value).alive then Of(recs, id) else []
  {
    if recs != [] {
      var init, last := recs[..|recs| - 1], recs[|recs| - 1];
      KeptIsEnough(root, a, init);
      RecordsKeepStage(root, a, init);
      StageDecidesHeard(a, ApplyAll(root, a, init), last);
      var kept := Kept(root, a, init);
      assert (kept + [last])[..|kept|] == kept;
      if !Heard(a, last) { assert kept + [] == kept; }
    }
  }
}
