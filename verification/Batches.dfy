/**
 What a batch of records comes to for health and cooldowns, read off the list: of a living player's attacks
 and skills in one tick only the first can count, and it hits whom it names if that one is in reach.
 */
module Batches {
  import opened Options
  import opened Battle
  import opened OrderIndependence

  /** The target of a player's first attack among some records. */
  function FirstAttack(recs: seq<OpRecord>, id: int): Option<int> {
    if recs == [] then None
    else
      var init, last := recs[..|recs| - 1], recs[|recs| - 1];
      if FirstAttack(init, id).Some? then FirstAttack(init, id)
      else if last.player == id && last.op.Atk? then Some(last.op.target) else None
  }

  function FirstSkill(recs: seq<OpRecord>, id: int): Option<int> {
    if recs == [] then None
    else
      var init, last := recs[..|recs| - 1], recs[|recs| - 1];
      if FirstSkill(init, id).Some? then FirstSkill(init, id)
      else if last.player == id && last.op.Skill? then Some(last.op.target) else None
  }

  /** Side t is whom the target id names, alive, and within range of side s. */
  predicate Reaches(root: Root, a: Arena, s: Side, target: int, t: Side, range: real) {
    var p, q := a.Get(s), a.Get(t);
    a.Find(target) == Some(t) && q.alive && Distance(root, p.x, p.y, q.x, q.y) <= range
  }

  predicate AttackReady(a: Arena, s: Side) {
    a.Get(s).alive && a.tick - a.Get(s).lastAtk >= 10
  }

  predicate SkillReady(a: Arena, s: Side) {
    a.Get(s).alive && a.tick - a.Get(s).lastSkill >= 40
  }

  function AttackDamage(root: Root, a: Arena, s: Side, recs: seq<OpRecord>, t: Side): int {
    var first := FirstAttack(recs, a.Get(s).id);
    if AttackReady(a, s) && first.Some? && Reaches(root, a, s, first.value, t, 8.0) then 10 else 0
  }

  function SkillDamage(root: Root, a: Arena, s: Side, recs: seq<OpRecord>, t: Side): int {
    var first := FirstSkill(recs, a.Get(s).id);
    if SkillReady(a, s) && first.Some? && Reaches(root, a, s, first.value, t, 15.0) then 25 else 0
  }

  /** What side s does to side t. */
  function DamageBy(root: Root, a: Arena, s: Side, recs: seq<OpRecord>, t: Side): int {
    AttackDamage(root, a, s, recs, t) + SkillDamage(root, a, s, recs, t)
  }

  /** What side t suffers from a batch. */
  function Damage(root: Root, a: Arena, recs: seq<OpRecord>, t: Side): int {
    DamageBy(root, a, First, recs, t) + DamageBy(root, a, Second, recs, t)
  }

  /* ---------- one record ---------- */

  lemma FirstsOneMore(recs: seq<OpRecord>, rec: OpRecord, id: int)
    ensures FirstAttack(recs + [rec], id) ==
            if FirstAttack(recs, id).Some? || rec.player != id || !rec.op.Atk? then FirstAttack(recs, id)
            else Some(rec.op.target)
    ensures FirstSkill(recs + [rec], id) ==
            if FirstSkill(recs, id).Some? || rec.player != id || !rec.op.Skill? then FirstSkill(recs, id)
            else Some(rec.op.target)
  {
    assert (recs + [rec])[..|recs|] == recs;
  }

  lemma StrikeEffect(root: Root, a: Arena, s: Side, target: int, range: real, damage: int, points: int, t: Side)
    ensures var b := Strike(root, a, s, target, range, damage, points);
            && b.Get(t).hp == a.Get(t).hp - (if Reaches(root, a, s, target, t, range) then damage else 0)
            && b.Get(t).lastAtk == a.Get(t).lastAtk && b.Get(t).lastSkill == a.Get(t).lastSkill
  {
  }

  /** An operation of side s, as far as side t's health and cooldowns go. */
  ghost predicate OpEffect(root: Root, a: Arena, s: Side, op: Op, b: Arena, t: Side) {
    var attacks := op.Atk? && a.tick - a.Get(s).lastAtk >= 10;
    var uses := op.Skill? && a.tick - a.Get(s).lastSkill >= 40;
    && b.Get(t).hp == a.Get(t).hp
                      - (if attacks && Reaches(root, a, s, op.target, t, 8.0) then 10 else 0)
                      - (if uses && Reaches(root, a, s, op.target, t, 15.0) then 25 else 0)
    && b.Get(t).lastAtk == (if attacks && s == t then a.tick else a.Get(t).lastAtk)
    && b.Get(t).lastSkill == (if uses && s == t then a.tick else a.Get(t).lastSkill)
  }

  lemma OpHasEffect(root: Root, a: Arena, s: Side, op: Op, t: Side)
    ensures OpEffect(root, a, s, op, ApplyOp(root, a, s, op), t)
  {
    var p := a.Get(s);
    match op
    case Move(_, _) =>
    case Atk(target) =>
      StrikeEffect(root, a.Put(s, p.(lastAtk := a.tick)), s, target, ATK_RANGE, ATK_DAMAGE, ATK_SCORE, t);
    case Skill(target) =>
      StrikeEffect(root, a.Put(s, p.(lastSkill := a.tick)), s, target, SKILL_RANGE, SKILL_DAMAGE, SKILL_SCORE, t);
    case Other =>
  }

  /* ---------- a batch ---------- */

  ghost predicate BatchEffect(root: Root, a: Arena, recs: seq<OpRecord>, b: Arena, t: Side) {
    var id := a.Get(t).id;
    && b.Get(t).hp == a.Get(t).hp - Damage(root, a, recs, t)
    && b.Get(t).lastAtk == (if AttackReady(a, t) && FirstAttack(recs, id).Some? then a.tick else a.Get(t).lastAtk)
    && b.Get(t).lastSkill == (if SkillReady(a, t) && FirstSkill(recs, id).Some? then a.tick else a.Get(t).lastSkill)
  }

  lemma DamageByOneMore(root: Root, a: Arena, s: Side, recs: seq<OpRecord>, rec: OpRecord, t: Side)
    ensures var id := a.Get(s).id;
            var attacks := rec.player == id && rec.op.Atk? && FirstAttack(recs, id).None? && AttackReady(a, s);
            var uses := rec.player == id && rec.op.Skill? && FirstSkill(recs, id).None? && SkillReady(a, s);
            DamageBy(root, a, s, recs + [rec], t) == DamageBy(root, a, s, recs, t)
              + (if attacks && Reaches(root, a, s, rec.op.target, t, 8.0) then 10 else 0)
              + (if uses && Reaches(root, a, s, rec.op.target, t, 15.0) then 25 else 0)
  {
    FirstsOneMore(recs, rec, a.Get(s).id);
  }

  lemma ReachIsStaged(root: Root, a: Arena, b: Arena, s: Side, target: int, t: Side, range: real)
    requires SameStage(a, b)
    ensures Reaches(root, a, s, target, t, range) == Reaches(root, b, s, target, t, range)
  {
  }

  lemma DeafRecord(root: Root, a: Arena, recs: seq<OpRecord>, rec: OpRecord, t: Side)
    requires a.p1.id != a.p2.id && !Heard(a, rec)
    ensures forall s: Side :: DamageBy(root, a, s, recs + [rec], t) == DamageBy(root, a, s, recs, t)
    ensures AttackReady(a, t) ==> FirstAttack(recs + [rec], a.Get(t).id) == FirstAttack(recs, a.Get(t).id)
    ensures SkillReady(a, t) ==> FirstSkill(recs + [rec], a.Get(t).id) == FirstSkill(recs, a.Get(t).id)
  {
    DamageByOneMore(root, a, First, recs, rec, t);
    DamageByOneMore(root, a, Second, recs, rec, t);
    FirstsOneMore(recs, rec, a.Get(t).id);
  }

  /** One more record that is heard, of side s. */
  lemma HeardRecord(root: Root, a: Arena, recs: seq<OpRecord>, b: Arena, s: Side, op: Op, t: Side)
    requires a.p1.id != a.p2.id && a.Get(s).alive && SameStage(a, b)
    requires BatchEffect(root, a, recs, b, s) && BatchEffect(root, a, recs, b, t)
    ensures BatchEffect(root, a, recs + [OpRecord(a.Get(s).id, op)], ApplyOp(root, b, s, op), t)
  {
    var rec := OpRecord(a.Get(s).id, op);
    OpHasEffect(root, b, s, op, t);
    DamageByOneMore(root, a, First, recs, rec, t);
    DamageByOneMore(root, a, Second, recs, rec, t);
    FirstsOneMore(recs, rec, a.Get(t).id);
    if op.Atk? { ReachIsStaged(root, a, b, s, op.target, t, 8.0); }
    if op.Skill? { ReachIsStaged(root, a, b, s, op.target, t, 15.0); }
  }

  /**
   A batch of any length: each side loses the damage the list says, and each living player spends the cooldown
   of its first attack and of its first skill, if free.
   */
  lemma {:induction false} BatchHasEffect(root: Root, a: Arena, recs: seq<OpRecord>)
    requires a.p1.id != a.p2.id
    ensures BatchEffect(root, a, recs, ApplyAll(root, a, recs), First)
    ensures BatchEffect(root, a, recs, ApplyAll(root, a, recs), Second)
  {
    if recs != [] {
      var init, last := recs[..|recs| - 1], recs[|recs| - 1];
      BatchHasEffect(root, a, init);
      RecordsKeepStage(root, a, init);
      var b := ApplyAll(root, a, init);
      StageDecidesHeard(a, b, last);
      assert recs == init + [last];
      if Heard(a, last) {
        var s := a.Find(last.player).value;
        HeardRecord(root, a, init, b, s, last.op, First);
        HeardRecord(root, a, init, b, s, last.op, Second);
      } else {
        DeafRecord(root, a, init, last, First);
        DeafRecord(root, a, init, last, Second);
      }
    }
  }

  /** The records that are kept list the same first attacks and skills of living players, and none of others. */
  lemma {:induction false} FirstsOfKept(root: Root, a: Arena, recs: seq<OpRecord>, s: Side)
    requires a.p1.id != a.p2.id
    ensures var id, kept := a.Get(s).id, Kept(root, a, recs);
            if a.Get(s).alive
            then FirstAttack(kept, id) == FirstAttack(recs, id) && FirstSkill(kept, id) == FirstSkill(recs, id)
            else FirstAttack(kept, id) == None && FirstSkill(kept, id) == None
  {
    if recs != [] {
      var init, last := recs[..|recs| - 1], recs[|recs| - 1];
      var id, kept := a.Get(s).id, Kept(root, a, init);
      FirstsOfKept(root, a, init, s);
      RecordsKeepStage(root, a, init);
      StageDecidesHeard(a, ApplyAll(root, a, init), last);
      assert recs == init + [last] && kept + [] == kept;
      FirstsOneMore(init, last, id);
      FirstsOneMore(kept, last, id);
      assert last.player == id ==> a.Find(last.player) == Some(s);
    }
  }

  /** A player's first attack and skill are a matter of its own records. */
  lemma {:induction false} FirstsAreOwn(recs: seq<OpRecord>, id: int)
    ensures FirstAttack(Of(recs, id), id) == FirstAttack(recs, id)
            && FirstSkill(Of(recs, id), id) == FirstSkill(recs, id)
  {
    if recs != [] {
      var init, last := recs[..|recs| - 1], recs[|recs| - 1];
      FirstsAreOwn(init, id);
      FirstsOneMore(Of(init, id), last, id);
      assert Of(init, id) + [] == Of(init, id);
    }
  }

  /** Whether a player attacks or uses a skill at all does not depend on the order. */
  lemma {:induction false} FirstsExist(recs: seq<OpRecord>, id: int)
    ensures FirstAttack(recs, id).Some? <==> exists rec :: rec in recs && rec.player == id && rec.op.Atk?
    ensures FirstSkill(recs, id).Some? <==> exists rec :: rec in recs && rec.player == id && rec.op.Skill?
  {
    if recs != [] {
      var init, last := recs[..|recs| - 1], recs[|recs| - 1];
      FirstsExist(init, id);
      assert forall rec :: rec in recs <==> rec in init || rec == last;
    }
  }

  lemma FirstsOfPermutation(recs: seq<OpRecord>, recs': seq<OpRecord>, id: int)
    requires multiset(recs) == multiset(recs')
    ensures FirstAttack(recs, id).Some? == FirstAttack(recs', id).Some?
    ensures FirstSkill(recs, id).Some? == FirstSkill(recs', id).Some?
  {
    FirstsExist(recs, id);
    FirstsExist(recs', id);
    assert forall rec :: rec in recs <==> rec in multiset(recs);
    assert forall rec :: rec in recs' <==> rec in multiset(recs');
  }

  /** The dead take no damage and make no steps. */
  lemma {:induction false} DeadAreLeftAlone(root: Root, a: Arena, recs: seq<OpRecord>, s: Side)
    requires a.p1.id != a.p2.id && !a.Get(s).alive
    ensures ApplyAll(root, a, recs).Get(s) == a.Get(s)
  {
    if recs != [] {
      var init, last := recs[..|recs| - 1], recs[|recs| - 1];
      DeadAreLeftAlone(root, a, init, s);
      RecordsKeepStage(root, a, init);
      var b := ApplyAll(root, a, init);
      if Heard(b, last) {
        DeadTakesNothing(root, b, b.Find(last.player).value, last.op, s);
      }
    }
  }

  lemma DeadTakesNothing(root: Root, a: Arena, t: Side, op: Op, s: Side)
    requires !a.Get(s).alive && t != s
    ensures ApplyOp(root, a, t, op).Get(s) == a.Get(s)
  {
  }
}
