/**
 The client's local world: a dictionary of players that broadcast frames rebuild and advance. The
 functions say what one frame does to the world; the class mutates the dictionary as the client does
 and is proved against them.
 */
module Replica {
  import opened Battle

  datatype Puppet = Puppet(
    x: real, y: real, hp: int, alive: bool,
    stepDx: real, stepDy: real, stepping: bool, lastAtk: int, lastSkill: int)

  datatype World = World(frameSeq: int, fs: map<int, Puppet>)

  const NO_WORLD := World(0, map[])

  function Max(a: real, b: real): real {
    if a < b then b else a
  }

  function Min(a: real, b: real): real {
    if b < a then b else a
  }

  function Spawn(e: Entity): Puppet {
    Puppet(e.x, e.y, e.hp, e.alive, 0.0, 0.0, false, 0, 0)
  }

  /** The world of a full frame; a repeated id overwrites. */
  function SpawnAll(entities: seq<Entity>): map<int, Puppet> {
    if entities == [] then map[]
    else
      var last := entities[|entities| - 1];
      SpawnAll(entities[..|entities| - 1])[last.id := Spawn(last)]
  }

  function Hit(root: Root, fs: map<int, Puppet>, pid: int, target: int, range: real, damage: int): map<int, Puppet>
    requires pid in fs
  {
    if target !in fs || !fs[target].alive then fs
    else if Distance(root, fs[pid].x, fs[pid].y, fs[target].x, fs[target].y) > range then fs
    else fs[target := fs[target].(hp := fs[target].hp - damage)]
  }

  function ApplyFsOp(root: Root, w: World, pid: int, op: Op): World {
    if pid !in w.fs || !w.fs[pid].alive then w
    else
      var s := w.fs[pid];
      match op
      case Move(dx, dy) => w.(fs := w.fs[pid := s.(stepDx := dx * CELL_W, stepDy := dy * CELL_H, stepping := true)])
      case Atk(target) =>
        if w.frameSeq - s.lastAtk < ATK_COOLDOWN_FRAMES then w
        else w.(fs := Hit(root, w.fs[pid := s.(lastAtk := w.frameSeq)], pid, target, ATK_RANGE, ATK_DAMAGE))
      case Skill(target) =>
        if w.frameSeq - s.lastSkill < SKILL_COOLDOWN_FRAMES then w
        else w.(fs := Hit(root, w.fs[pid := s.(lastSkill := w.frameSeq)], pid, target, SKILL_RANGE, SKILL_DAMAGE))
      case Other => w
  }

  function ApplyFsOps(root: Root, w: World, ops: seq<OpRecord>): World {
    if ops == [] then w
    else
      var last := ops[|ops| - 1];
      ApplyFsOp(root, ApplyFsOps(root, w, ops[..|ops| - 1]), last.player, last.op)
  }

  function StepPuppet(root: Root, s: Puppet): Puppet {
    if !s.alive || !s.stepping then s
    else
      var remain := Norm(root, s.stepDx, s.stepDy);
      if STEP >= remain then
        s.(x := Min(Max(s.x + s.stepDx, 0.0), MAP_SIZE), y := Min(Max(s.y + s.stepDy, 0.0), MAP_SIZE),
          stepping := false)
      else
        var mx, my := Part(s.stepDx, remain), Part(s.stepDy, remain);
        s.(x := Min(Max(s.x + mx, 0.0), MAP_SIZE), y := Min(Max(s.y + my, 0.0), MAP_SIZE),
           stepDx := s.stepDx - mx, stepDy := s.stepDy - my)
  }

  function CheckDeath(s: Puppet): Puppet {
    if s.alive && s.hp <= 0 then s.(alive := false, hp := 0) else s
  }

  function StepAll(root: Root, fs: map<int, Puppet>): map<int, Puppet> {
    map pid | pid in fs :: StepPuppet(root, fs[pid])
  }

  function CheckDeaths(fs: map<int, Puppet>): map<int, Puppet> {
    map pid | pid in fs :: CheckDeath(fs[pid])
  }

  function ApplyFrame(root: Root, w: World, frame: Frame): World {
    if frame.full then World(frame.seqNo, SpawnAll(frame.entities))
    else if w.fs == map[] then w.(frameSeq := frame.seqNo)
    else
      var v := ApplyFsOps(root, w.(frameSeq := frame.seqNo), frame.ops);
      v.(fs := CheckDeaths(StepAll(root, v.fs)))
  }

  /** The world after a sequence of frames. */
  function Replay(root: Root, w: World, frames: seq<Frame>): World {
    if frames == [] then w
    else ApplyFrame(root, Replay(root, w, frames[..|frames| - 1]), frames[|frames| - 1])
  }

  lemma SomeKey<T>(keys: set<T>) returns (k: T)
    requires keys != {}
    ensures k in keys
  {
    k :| k in keys;
  }

  class Bot {
    const root: Root
    var frameSeq: int
    var fs: map<int, Puppet>

    constructor (root: Root)
      ensures View() == NO_WORLD && this.root == root
    {
      this.root := root;
      frameSeq, fs := 0, map[];
    }

    function View(): World
      reads this
    {
      World(frameSeq, fs)
    }

    method ApplyOp(pid: int, op: Op)
      modifies this`fs
      ensures View() == ApplyFsOp(root, old(View()), pid, op)
    {
      if pid !in fs || !fs[pid].alive { return; }
      match op
      case Move(dx, dy) =>
        fs := fs[pid := fs[pid].(stepDx := dx * CELL_W, stepDy := dy * CELL_H, stepping := true)];
      case Atk(target) =>
        if frameSeq - fs[pid].lastAtk < ATK_COOLDOWN_FRAMES { return; }
        fs := fs[pid := fs[pid].(lastAtk := frameSeq)];
        Strike(pid, target, ATK_RANGE, ATK_DAMAGE);
      case Skill(target) =>
        if frameSeq - fs[pid].lastSkill < SKILL_COOLDOWN_FRAMES { return; }
        fs := fs[pid := fs[pid].(lastSkill := frameSeq)];
        Strike(pid, target, SKILL_RANGE, SKILL_DAMAGE);
      case Other =>
    }

    method Strike(pid: int, target: int, range: real, damage: int)
      requires pid in fs
      modifies this`fs
      ensures fs == Hit(root, old(fs), pid, target, range, damage)
    {
      if target !in fs || !fs[target].alive { return; }
      if Distance(root, fs[pid].x, fs[pid].y, fs[target].x, fs[target].y) > range { return; }
      fs := fs[target := fs[target].(hp := fs[target].hp - damage)];
    }

    /** The body of the walking loop, for one player. */
    method StepOne(p: Puppet) returns (s: Puppet)
      ensures s == StepPuppet(root, p)
    {
      s := p;
      if s.alive && s.stepping {
        var remainX, remainY := s.stepDx, s.stepDy;
        var remain := Norm(root, remainX, remainY);
        if STEP >= remain {
          s := s.(x := Min(Max(s.x + remainX, 0.0), MAP_SIZE), y := Min(Max(s.y + remainY, 0.0), MAP_SIZE));
          s := s.(stepping := false);
        } else {
          var mx, my := Part(remainX, remain), Part(remainY, remain);
          s := s.(x := Min(Max(s.x + mx, 0.0), MAP_SIZE), y := Min(Max(s.y + my, 0.0), MAP_SIZE));
          s := s.(stepDx := s.stepDx - mx, stepDy := s.stepDy - my);
        }
      }
    }

    /** The players may be visited in any order: nobody's step reads another player. */
    method StepEveryone()
      modifies this`fs
      ensures fs == StepAll(root, old(fs))
    {
      var todo := fs.Keys;
      while todo != {}
        invariant todo <= fs.Keys && fs.Keys == old(fs.Keys)
        invariant forall pid :: pid in fs ==>
          fs[pid] == if pid in todo then old(fs)[pid] else StepPuppet(root, old(fs)[pid])
      {
        ghost var some := SomeKey(todo);
        var pid :| pid in todo;
        todo := todo - {pid};
        var s := StepOne(fs[pid]);
        fs := fs[pid := s];
      }
      assert todo == {};
      assert fs == StepAll(root, old(fs)) by {
        assert fs.Keys == StepAll(root, old(fs)).Keys;
        assert forall pid :: pid in fs ==> fs[pid] == StepAll(root, old(fs))[pid];
      }
    }

    method MarkDeaths()
      modifies this`fs
      ensures fs == CheckDeaths(old(fs))
    {
      var todo := fs.Keys;
      while todo != {}
        invariant todo <= fs.Keys && fs.Keys == old(fs.Keys)
        invariant forall pid :: pid in fs ==>
          fs[pid] == if pid in todo then old(fs)[pid] else CheckDeath(old(fs)[pid])
      {
        ghost var some := SomeKey(todo);
        var pid :| pid in todo;
        todo := todo - {pid};
        if fs[pid].alive && fs[pid].hp <= 0 {
          fs := fs[pid := fs[pid].(alive := false, hp := 0)];
        }
      }
      assert todo == {};
      assert fs == CheckDeaths(old(fs)) by {
        assert fs.Keys == CheckDeaths(old(fs)).Keys;
        assert forall pid :: pid in fs ==> fs[pid] == CheckDeaths(old(fs))[pid];
      }
    }

    method OnFrame(frame: Frame)
      modifies this
      ensures View() == ApplyFrame(root, old(View()), frame)
    {
      frameSeq := frame.seqNo;
      if frame.full {
        fs := map[];
        for i := 0 to |frame.entities|
          invariant frameSeq == frame.seqNo
          invariant fs == SpawnAll(frame.entities[..i])
        {
          assert frame.entities[..i + 1][..i] == frame.entities[..i];
          fs := fs[frame.entities[i].id := Spawn(frame.entities[i])];
        }
        assert frame.entities[..|frame.entities|] == frame.entities;
        return;
      }
      if fs == map[] { return; }
      ghost var start := View();
      for i := 0 to |frame.ops|
        invariant View() == ApplyFsOps(root, start, frame.ops[..i])
      {
        assert frame.ops[..i + 1][..i] == frame.ops[..i];
        ApplyOp(frame.ops[i].player, frame.ops[i].op);
      }
      assert frame.ops[..|frame.ops|] == frame.ops;
      StepEveryone();
      MarkDeaths();
    }
  }
}
