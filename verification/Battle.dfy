/**
 The two-player battle room as functions on values. A method of the server's room is cut where the
 source releases the room's mutex: TickSection and QuitSection are the parts that run before that
 point, FinishRoom is the locked part of finish, ResultEvents is what pushResult sends. Tick and
 OnPlayerQuit put the parts back together for the case where no other thread gets in between.
 */
module Battle {
  import opened Options

  /* ---------- constants ---------- */

  const MAP_SIZE := 100.0
  const MAX_HP := 100
  const MOVE_SPEED := 60.0
  const ATK_RANGE := 8.0
  const ATK_DAMAGE := 10
  const ATK_SCORE := 2
  const SKILL_RANGE := 15.0
  const SKILL_DAMAGE := 25
  const SKILL_SCORE := 5
  const TICK_MS := 50
  const ATK_COOLDOWN_FRAMES := 500 / TICK_MS
  const SKILL_COOLDOWN_FRAMES := 2000 / TICK_MS
  const TIMEOUT_MS := 60 * 1000
  const CELL_W := 2.0
  const CELL_H := 4.0
  const SPAWN_OFFSET := 20.0
  const WIN_SCORE := 10
  const LOSE_SCORE := 1
  const STEP := MOVE_SPEED * 0.05  // the distance one tick allows

  /** Square root, handed in by the caller. Nothing is assumed of it unless IsSqrt is required. */
  type Root = real -> real

  ghost predicate IsSqrt(root: Root) {
    forall v: real {:trigger root(v)} :: 0.0 <= v ==> 0.0 <= root(v) && root(v) * root(v) == v
  }

  function DistSq(x1: real, y1: real, x2: real, y2: real): real {
    (x1 - x2) * (x1 - x2) + (y1 - y2) * (y1 - y2)
  }

  function Distance(root: Root, x1: real, y1: real, x2: real, y2: real): real {
    root(DistSq(x1, y1, x2, y2))
  }

  function Norm(root: Root, dx: real, dy: real): real {
    root(dx * dx + dy * dy)
  }

  function Clamp(v: real, lo: real, hi: real): real {
    if v < lo then lo else if v > hi then hi else v
  }

  /* ---------- data ---------- */

  datatype Op = Move(dx: real, dy: real) | Atk(target: int) | Skill(target: int) | Other

  datatype OpRecord = OpRecord(player: int, op: Op)

  datatype Fighter = Fighter(
    id: int, x: real, y: real, hp: int, alive: bool,
    stepDx: real, stepDy: real, stepping: bool,
    lastAtk: int, lastSkill: int, score: int)

  datatype Side = First | Second {
    function Other(): Side {
      if First? then Second else First
    }
  }

  /** The part of a room that operations act on. */
  datatype Arena = Arena(tick: int, p1: Fighter, p2: Fighter) {
    function Get(s: Side): Fighter {
      if s.First? then p1 else p2
    }

    function Put(s: Side, f: Fighter): Arena {
      if s.First? then this.(p1 := f) else this.(p2 := f)
    }

    function Find(id: int): Option<Side> {
      if p1.id == id then Some(First) else if p2.id == id then Some(Second) else None
    }
  }

  datatype Entity = Entity(id: int, x: real, y: real, hp: int, alive: bool)

  datatype Frame = Frame(roomId: int, seqNo: int, full: bool, entities: seq<Entity>, ops: seq<OpRecord>)

  datatype Snapshot = Snapshot(roomId: int, tick: int, full: bool, entities: seq<Entity>)

  datatype Reason = NoReason | Kill | Timeout | Draw | OpponentLeft

  datatype BattleResult = BattleResult(roomId: int, winner: int, loser: int, reason: Reason, durationS: int)

  /** What a room hands to its sink. */
  datatype Event =
    | PushFrame(to: int, frame: Frame)
    | PushSnapshot(to: int, snap: Snapshot)
    | SubmitScore(player: int, delta: int)
    | PushResult(to: int, result: BattleResult)

  datatype Room = Room(
    roomId: int, createdMs: int, finishMs: int, finished: bool, started: bool, mode: int,
    winner: int, loser: int, reason: Reason,
    pending: seq<OpRecord>, frameOps: seq<OpRecord>, arena: Arena)

  /** A room after a call, with the events the call sent to the sink. */
  datatype Turn = Turn(room: Room, events: seq<Event>)

  function NewFighter(id: int): Fighter {
    Fighter(id, 0.0, 0.0, MAX_HP, true, 0.0, 0.0, false, 0, 0, 0)
  }

  function NewRoom(roomId: int, id1: int, id2: int, mode: int, createdMs: int): Room {
    Room(roomId, createdMs, 0, false, false, mode, 0, 0, NoReason, [], [],
         Arena(0, NewFighter(id1), NewFighter(id2)))
  }

  /* ---------- operations ---------- */

  function SubmitOp(r: Room, player: int, op: Op): Room {
    if r.finished || r.arena.Find(player).None? then r
    else r.(pending := r.pending + [OpRecord(player, op)])
  }

  /** The hit test and its effect, shared by attack and skill; the cooldown is already spent. */
  function Strike(root: Root, a: Arena, s: Side, target: int, range: real, damage: int, points: int): Arena {
    match a.Find(target)
    case None => a
    case Some(ts) =>
      var p, t := a.Get(s), a.Get(ts);
      if !t.alive || Distance(root, p.x, p.y, t.x, t.y) > range then a
      else
        var b := a.Put(ts, t.(hp := t.hp - damage));
        b.Put(s, b.Get(s).(score := b.Get(s).score + points))
  }

  function ApplyOp(root: Root, a: Arena, s: Side, op: Op): Arena {
    var p := a.Get(s);
    match op
    case Move(dx, dy) => a.Put(s, p.(stepDx := dx * CELL_W, stepDy := dy * CELL_H, stepping := true))
    case Atk(target) =>
      if a.tick - p.lastAtk < ATK_COOLDOWN_FRAMES then a
      else Strike(root, a.Put(s, p.(lastAtk := a.tick)), s, target, ATK_RANGE, ATK_DAMAGE, ATK_SCORE)
    case Skill(target) =>
      if a.tick - p.lastSkill < SKILL_COOLDOWN_FRAMES then a
      else Strike(root, a.Put(s, p.(lastSkill := a.tick)), s, target, SKILL_RANGE, SKILL_DAMAGE, SKILL_SCORE)
    case Other => a
  }

  /** A record is consumed when its player is in the room and alive. */
  predicate Heard(a: Arena, rec: OpRecord) {
    a.Find(rec.player).Some? && a.Get(a.Find(rec.player).value).alive
  }

  function Apply(root: Root, a: Arena, rec: OpRecord): Arena {
    if Heard(a, rec) then ApplyOp(root, a, a.Find(rec.player).value, rec.op) else a
  }

  /** Records applied in the order given. */
  function ApplyAll(root: Root, a: Arena, recs: seq<OpRecord>): Arena {
    if recs == [] then a
    else Apply(root, ApplyAll(root, a, recs[..|recs| - 1]), recs[|recs| - 1])
  }

  /** The records among recs that are consumed, in arrival order. */
  function Kept(root: Root, a: Arena, recs: seq<OpRecord>): seq<OpRecord> {
    if recs == [] then []
    else
      var init, last := recs[..|recs| - 1], recs[|recs| - 1];
      Kept(root, a, init) + if Heard(ApplyAll(root, a, init), last) then [last] else []
  }

  /* ---------- frames ---------- */

  function InsertOp(ops: seq<OpRecord>, rec: OpRecord): seq<OpRecord> {
    if ops != [] && ops[|ops| - 1].player > rec.player
    then InsertOp(ops[..|ops| - 1], rec) + [ops[|ops| - 1]]
    else ops + [rec]
  }

  /** Player-id order, each player's own order kept. */
  function SortOps(ops: seq<OpRecord>): seq<OpRecord> {
    if ops == [] then [] else InsertOp(SortOps(ops[..|ops| - 1]), ops[|ops| - 1])
  }

  function EntityOf(f: Fighter): Entity {
    Entity(f.id, f.x, f.y, f.hp, f.alive)
  }

  function Entities(a: Arena): seq<Entity> {
    [EntityOf(a.p1), EntityOf(a.p2)]
  }

  function BuildFrame(r: Room, full: bool): Frame {
    Frame(r.roomId, r.arena.tick, full, if full then Entities(r.arena) else [], SortOps(r.frameOps))
  }

  function BuildSnapshot(r: Room, full: bool): Snapshot {
    Snapshot(r.roomId, r.arena.tick, full, Entities(r.arena))
  }

  function BroadcastEvents(r: Room, full: bool): seq<Event> {
    if r.mode == 0
    then [PushFrame(r.arena.p1.id, BuildFrame(r, full)), PushFrame(r.arena.p2.id, BuildFrame(r, full))]
    else [PushSnapshot(r.arena.p1.id, BuildSnapshot(r, full)), PushSnapshot(r.arena.p2.id, BuildSnapshot(r, full))]
  }

  /* ---------- settlement ---------- */

  /** The locked part of finish: only the first caller changes anything. */
  function FinishRoom(r: Room, winner: int, loser: int, reason: Reason, nowMs: int): Room {
    if r.finished then r
    else r.(finished := true, finishMs := nowMs, winner := winner, loser := loser, reason := reason)
  }

  /** Go's integer division truncates toward zero. */
  function TruncDiv(n: int, d: int): int
    requires 0 < d
  {
    if n >= 0 then n / d else -(-n / d)
  }

  function ToInt32(n: int): int {
    (n + 0x8000_0000) % 0x1_0000_0000 - 0x8000_0000
  }

  function ScoreEvents(winner: int, loser: int): seq<Event> {
    if winner != 0 then [SubmitScore(winner, WIN_SCORE), SubmitScore(loser, LOSE_SCORE)] else []
  }

  function ResultOf(r: Room): BattleResult {
    BattleResult(r.roomId, r.winner, r.loser, r.reason, ToInt32(TruncDiv(r.finishMs - r.createdMs, 1000)))
  }

  /** A result goes to a player unless its id is 0. */
  function PushTo(id: int, result: BattleResult): seq<Event> {
    if id != 0 then [PushResult(id, result)] else []
  }

  function ResultEvents(r: Room): seq<Event> {
    ScoreEvents(r.winner, r.loser) + PushTo(r.arena.p1.id, ResultOf(r)) + PushTo(r.arena.p2.id, ResultOf(r))
  }

  function Finish(r: Room, winner: int, loser: int, reason: Reason, nowMs: int): Turn {
    var f := FinishRoom(r, winner, loser, reason, nowMs);
    Turn(f, if r.finished then [] else ResultEvents(f))
  }

  /* ---------- a tick ---------- */

  /** A displacement, cut off at the edges of the map. */
  function Shift(p: Fighter, dx: real, dy: real): Fighter {
    p.(x := Clamp(p.x + dx, 0.0, MAP_SIZE), y := Clamp(p.y + dy, 0.0, MAP_SIZE))
  }

  /** What one tick covers of a displacement along one axis when the whole way is remain long. */
  function Part(d: real, remain: real): real
    requires remain != 0.0
  {
    d * (STEP / remain)
  }

  /** One tick of walking for one player. */
  function Advance(root: Root, p: Fighter): Fighter {
    if !p.alive || !p.stepping then p
    else
      var remain := Norm(root, p.stepDx, p.stepDy);
      if STEP >= remain then Shift(p, p.stepDx, p.stepDy).(stepping := false)
      else
        var mx, my := Part(p.stepDx, remain), Part(p.stepDy, remain);
        Shift(p, mx, my).(stepDx := p.stepDx - mx, stepDy := p.stepDy - my)
  }

  function Walk(root: Root, a: Arena): Arena {
    a.(p1 := Advance(root, a.p1), p2 := Advance(root, a.p2))
  }

  /** The first player, in p1, p2 order, that has to be declared dead. */
  function FirstDead(a: Arena): Option<Side> {
    if a.p1.alive && a.p1.hp <= 0 then Some(First)
    else if a.p2.alive && a.p2.hp <= 0 then Some(Second)
    else None
  }

  function Bury(a: Arena, s: Side): Arena {
    a.Put(s, a.Get(s).(alive := false, hp := 0))
  }

  /** What a locked section leaves for its thread to do once the mutex is free. */
  datatype Outcome = Nothing | Broadcast(events: seq<Event>) | Settle(winner: int, loser: int, reason: Reason)

  datatype Section = Section(room: Room, outcome: Outcome)

  /** The tick counter advances and the pending records are consumed. */
  function Consumed(root: Root, r: Room): Room {
    var a := r.arena.(tick := r.arena.tick + 1);
    r.(arena := ApplyAll(root, a, r.pending), frameOps := Kept(root, a, r.pending), pending := [])
  }

  function Opened(r: Room): Room {
    var far := MAP_SIZE - SPAWN_OFFSET;
    r.(started := true,
       arena := r.arena.(p1 := r.arena.p1.(x := SPAWN_OFFSET, y := SPAWN_OFFSET),
                         p2 := r.arena.p2.(x := far, y := far)))
  }

  function TimeoutVerdict(a: Arena): Outcome {
    if a.p1.hp > a.p2.hp then Settle(a.p1.id, a.p2.id, Timeout)
    else if a.p1.hp < a.p2.hp then Settle(a.p2.id, a.p1.id, Timeout)
    else Settle(0, 0, Draw)
  }

  /** Death first, then the time limit, otherwise the frame goes out. */
  function Judge(r: Room, nowMs: int): Section {
    match FirstDead(r.arena)
    case Some(s) =>
      var a := Bury(r.arena, s);
      Section(r.(arena := a), Settle(a.Get(s.Other()).id, a.Get(s).id, Kill))
    case None =>
      Section(r, if nowMs - r.createdMs > TIMEOUT_MS then TimeoutVerdict(r.arena)
                 else Broadcast(BroadcastEvents(r, false)))
  }

  function TickSection(root: Root, r: Room, nowMs: int): Section {
    if r.finished then Section(r, Nothing)
    else
      var c := Consumed(root, r);
      if !c.started then Section(Opened(c), Broadcast(BroadcastEvents(Opened(c), true)))
      else Judge(c.(arena := Walk(root, c.arena)), nowMs)
  }

  function QuitSection(r: Room, player: int): Section {
    if r.finished || r.arena.Find(player).None? then Section(r, Nothing)
    else
      var s := r.arena.Find(player).value;
      if !r.arena.Get(s).alive then Section(r, Nothing)
      else
        var a := Bury(r.arena, s);
        Section(r.(arena := a), Settle(a.Get(s.Other()).id, a.Get(s).id, OpponentLeft))
  }

  /** The rest of a call after its locked section, nothing happening in between. */
  function Conclude(sec: Section, finishMs: int): Turn {
    match sec.outcome
    case Nothing => Turn(sec.room, [])
    case Broadcast(events) => Turn(sec.room, events)
    case Settle(winner, loser, reason) => Finish(sec.room, winner, loser, reason, finishMs)
  }

  /** nowMs and finishMs are the two clock readings of the source. */
  function Tick(root: Root, r: Room, nowMs: int, finishMs: int): Turn {
    Conclude(TickSection(root, r, nowMs), finishMs)
  }

  function OnPlayerQuit(r: Room, player: int, finishMs: int): Turn {
    Conclude(QuitSection(r, player), finishMs)
  }

  /* ---------- runs ---------- */

  datatype Call =
    | CallSubmit(player: int, op: Op)
    | CallQuit(player: int, finishMs: int)
    | CallTick(nowMs: int, finishMs: int)

  function Do(root: Root, r: Room, call: Call): Turn {
    match call
    case CallSubmit(player, op) => Turn(SubmitOp(r, player, op), [])
    case CallQuit(player, finishMs) => OnPlayerQuit(r, player, finishMs)
    case CallTick(nowMs, finishMs) => Tick(root, r, nowMs, finishMs)
  }

  /** A whole run: every call atomic, any calls in any order. */
  function Run(root: Root, r: Room, calls: seq<Call>): Turn {
    if calls == [] then Turn(r, [])
    else
      var t := Run(root, r, calls[..|calls| - 1]);
      var u := Do(root, t.room, calls[|calls| - 1]);
      Turn(u.room, t.events + u.events)
  }
}
