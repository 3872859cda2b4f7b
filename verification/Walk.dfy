/**
 A move is carried out in steps of length 3, each cut off at the edges of the map. Whatever was cut
 off on the way, the walk ends where one jump by the whole displacement would, after
 max(1, ceil(length / 3)) ticks.
 */
module Walk {
  import opened Options
  import opened Battle
  import opened OrderIndependence
  import Laws = BattleLaws

  function Ceil(v: real): int {
    -((-v).Floor)
  }

  /** max(1, ceil(length / 3)) */
  function WalkTicks(length: real): (n: int)
    ensures 1 <= n && length <= 3.0 * n as real && (1 < n ==> 3.0 * (n - 1) as real < length)
  {
    var n := Ceil(length / STEP);
    assert (n - 1) as real < length / STEP <= n as real;
    if n < 1 then 1 else n
  }

  function AdvanceN(root: Root, f: Fighter, n: nat): Fighter {
    if n == 0 then f else Advance(root, AdvanceN(root, f, n - 1))
  }

  /* ---------- arithmetic ---------- */

  lemma SquareIsStrict(v: real, w: real)
    requires 0.0 <= v < w
    ensures v * v < w * w
  {
    assert w * w - v * v == (w - v) * (w + v);
    assert 0.0 < w - v && 0.0 < w + v;
  }

  lemma RootIsUnique(v: real, w: real)
    requires 0.0 <= v && 0.0 <= w && v * v == w * w
    ensures v == w
  {
    if v < w { SquareIsStrict(v, w); }
    if w < v { SquareIsStrict(w, v); }
  }

  lemma NormScales(root: Root, dx: real, dy: real, s: real)
    requires IsSqrt(root) && 0.0 <= s
    ensures Norm(root, dx * s, dy * s) == s * Norm(root, dx, dy)
  {
    var n, m := Norm(root, dx, dy), Norm(root, dx * s, dy * s);
    Laws.NormLaw(root, dx, dy);
    Laws.NormLaw(root, dx * s, dy * s);
    calc {
      m * m;
      (dx * s) * (dx * s) + (dy * s) * (dy * s);
      (s * s) * (dx * dx + dy * dy);
      (s * s) * (n * n);
      (s * n) * (s * n);
    }
    assert 0.0 <= s * n;
    RootIsUnique(m, s * n);
  }

  lemma SameNorm(root: Root, dx: real, dy: real, dx': real, dy': real)
    requires dx == dx' && dy == dy'
    ensures Norm(root, dx, dy) == Norm(root, dx', dy')
  {
  }

  ghost predicate SameSign(a: real, b: real) {
    (0.0 <= a && 0.0 <= b) || (a <= 0.0 && b <= 0.0)
  }

  lemma FractionsHaveSameSign(d: real, c: real, q: real)
    requires 0.0 <= c && 0.0 <= q
    ensures SameSign(c * d, q * d)
  {
    if 0.0 <= d {
      assert 0.0 <= c * d && 0.0 <= q * d;
    } else {
      assert 0.0 <= c * -d && 0.0 <= q * -d;
    }
  }

  /** With the fraction c behind, (1 - c) of the length is left. */
  lemma LengthLeft(root: Root, dx: real, dy: real, c: real)
    requires IsSqrt(root) && c <= 1.0
    ensures Norm(root, dx - c * dx, dy - c * dy) == (1.0 - c) * Norm(root, dx, dy)
  {
    var s := 1.0 - c;
    NormScales(root, dx, dy, s);
    SameNorm(root, dx * s, dy * s, dx - c * dx, dy - c * dy);
  }

  /** A full step covers the part c of the displacement along an axis, and the rest points the same way. */
  lemma PartOfAxis(d: real, n: real) returns (c: real)
    requires STEP < n
    ensures 0.0 <= c <= 1.0 && c * n == STEP && Part(d, n) == c * d && SameSign(Part(d, n), d - Part(d, n))
  {
    c := STEP / n;
    assert c * n == STEP;
    assert 0.0 <= c <= 1.0;
    FractionsHaveSameSign(d, c, 1.0 - c);
    assert (1.0 - c) * d == d - c * d;
  }

  /** A full step takes exactly 3 off the length. */
  lemma RestLength(root: Root, dx: real, dy: real)
    requires IsSqrt(root) && STEP < Norm(root, dx, dy)
    ensures var n := Norm(root, dx, dy); Norm(root, dx - Part(dx, n), dy - Part(dy, n)) == n - STEP
  {
    var n := Norm(root, dx, dy);
    var c := PartOfAxis(dx, n);
    var d := PartOfAxis(dy, n);
    assert c == d by { SameFactor(c, d, n); }
    LengthLeft(root, dx, dy, c);
    SameNorm(root, dx - c * dx, dy - c * dy, dx - Part(dx, n), dy - Part(dy, n));
  }

  lemma SameFactor(c: real, d: real, n: real)
    requires 0.0 < n && c * n == d * n
    ensures c == d
  {
    assert (c - d) * n == 0.0;
  }

  /* ---------- the walk of one player ---------- */

  /** Where f's displacement points, cut off at the map. */
  function TargetX(f: Fighter): real { Clamp(f.x + f.stepDx, 0.0, MAP_SIZE) }

  function TargetY(f: Fighter): real { Clamp(f.y + f.stepDy, 0.0, MAP_SIZE) }

  /** g stands where f's displacement points, cut off at the map, and has stopped. */
  ghost predicate Landed(f: Fighter, g: Fighter) {
    !g.stepping && g.x == TargetX(f) && g.y == TargetY(f)
  }

  /** g is still under way to where f's displacement points, with the length left to go. */
  ghost predicate UnderWay(root: Root, f: Fighter, g: Fighter, left: real) {
    && Laws.InMap(g) && g.alive && g.stepping && Norm(root, g.stepDx, g.stepDy) == left
    && TargetX(g) == TargetX(f) && TargetY(g) == TargetY(f)
  }

  /** Cutting off on the way does not change where a walk in one direction is cut off in the end. */
  lemma ClampGoesOn(x: real, p: real, rest: real)
    requires 0.0 <= x <= MAP_SIZE && SameSign(p, rest)
    ensures Clamp(Clamp(x + p, 0.0, MAP_SIZE) + rest, 0.0, MAP_SIZE) == Clamp(x + (p + rest), 0.0, MAP_SIZE)
  {
  }

  lemma AxisGoesOn(x: real, d: real, n: real)
    requires 0.0 <= x <= MAP_SIZE && STEP < n
    ensures Clamp(Clamp(x + Part(d, n), 0.0, MAP_SIZE) + (d - Part(d, n)), 0.0, MAP_SIZE) == Clamp(x + d, 0.0, MAP_SIZE)
  {
    var c := PartOfAxis(d, n);
    ClampGoesOn(x, Part(d, n), d - Part(d, n));
  }

  lemma FullStep(root: Root, f: Fighter, g: Fighter, left: real)
    requires IsSqrt(root) && UnderWay(root, f, g, left) && STEP < left
    ensures UnderWay(root, f, Advance(root, g), left - STEP)
  {
    RestLength(root, g.stepDx, g.stepDy);
    AxisGoesOn(g.x, g.stepDx, left);
    AxisGoesOn(g.y, g.stepDy, left);
  }

  lemma LastStep(root: Root, f: Fighter, g: Fighter, left: real)
    requires UnderWay(root, f, g, left) && left <= STEP
    ensures Landed(f, Advance(root, g))
  {
  }

  lemma {:induction false} StillUnderWay(root: Root, f: Fighter, k: nat)
    requires IsSqrt(root) && Laws.InMap(f) && f.alive && f.stepping
    requires k == 0 || STEP * k as real < Norm(root, f.stepDx, f.stepDy)
    ensures UnderWay(root, f, AdvanceN(root, f, k), Norm(root, f.stepDx, f.stepDy) - STEP * k as real)
  {
    if k != 0 {
      StillUnderWay(root, f, k - 1);
      FullStep(root, f, AdvanceN(root, f, k - 1), Norm(root, f.stepDx, f.stepDy) - STEP * (k - 1) as real);
    }
  }

  lemma LandsOn(root: Root, f: Fighter, n: nat)
    requires IsSqrt(root) && Laws.InMap(f) && f.alive && f.stepping && 0 < n
    requires Norm(root, f.stepDx, f.stepDy) <= STEP * (n - 1) as real + STEP
    requires n == 1 || STEP * (n - 1) as real < Norm(root, f.stepDx, f.stepDy)
    ensures Landed(f, AdvanceN(root, f, n))
  {
    StillUnderWay(root, f, n - 1);
    LastStep(root, f, AdvanceN(root, f, n - 1), Norm(root, f.stepDx, f.stepDy) - STEP * (n - 1) as real);
  }

  lemma WalksUntil(root: Root, f: Fighter, n: nat, k: nat)
    requires IsSqrt(root) && Laws.InMap(f) && f.alive && f.stepping && k < n
    requires n == 1 || STEP * (n - 1) as real < Norm(root, f.stepDx, f.stepDy)
    ensures AdvanceN(root, f, k).stepping
  {
    assert k as real <= (n - 1) as real;
    StillUnderWay(root, f, k);
  }

  /** The walk arrives where the jump would, on tick WalkTicks and not before. */
  lemma WalkLands(root: Root, f: Fighter)
    requires IsSqrt(root) && Laws.InMap(f) && f.alive && f.stepping
    ensures var n := WalkTicks(Norm(root, f.stepDx, f.stepDy));
            Landed(f, AdvanceN(root, f, n)) && forall k: nat :: k < n ==> AdvanceN(root, f, k).stepping
  {
    var n := WalkTicks(Norm(root, f.stepDx, f.stepDy));
    forall k: nat | k < n ensures AdvanceN(root, f, k).stepping {
      WalksUntil(root, f, n, k);
    }
    LandsOn(root, f, n);
  }

  lemma {:induction false} ArrivedStays(root: Root, f: Fighter, n: nat, k: nat)
    requires n <= k && !AdvanceN(root, f, n).stepping
    ensures AdvanceN(root, f, k) == AdvanceN(root, f, n)
  {
    if n < k { ArrivedStays(root, f, n, k - 1); }
  }

  /* ---------- the walk inside a room ---------- */

  /** The fields that walking reads and writes. */
  ghost predicate SameMotion(f: Fighter, g: Fighter) {
    && f.x == g.x && f.y == g.y && f.alive == g.alive
    && f.stepDx == g.stepDx && f.stepDy == g.stepDy && f.stepping == g.stepping
  }

  lemma MotionDecidesAdvance(root: Root, f: Fighter, g: Fighter)
    requires SameMotion(f, g)
    ensures SameMotion(Advance(root, f), Advance(root, g))
  {
  }

  /** f once it has taken an order to move. */
  function Ordered(f: Fighter, order: Option<Op>): Fighter {
    if order.Some? && order.value.Move?
    then f.(stepDx := order.value.dx * CELL_W, stepDy := order.value.dy * CELL_H, stepping := true)
    else f
  }

  /** A player's last move among some records. */
  function LastMove(recs: seq<OpRecord>, id: int): Option<Op> {
    if recs == [] then None
    else
      var last := recs[|recs| - 1];
      if last.player == id && last.op.Move? then Some(last.op) else LastMove(recs[..|recs| - 1], id)
  }

  lemma {:induction false} LastMoveIsMove(recs: seq<OpRecord>, id: int)
    ensures LastMove(recs, id).Some? ==> LastMove(recs, id).value.Move?
  {
    if recs != [] { LastMoveIsMove(recs[..|recs| - 1], id); }
  }

  /** Of all records in a batch only a player's own last move touches its motion. */
  lemma {:induction false} BatchMotion(root: Root, a: Arena, recs: seq<OpRecord>, s: Side)
    requires a.p1.id != a.p2.id && a.Get(s).alive
    ensures SameMotion(ApplyAll(root, a, recs).Get(s), Ordered(a.Get(s), LastMove(recs, a.Get(s).id)))
    ensures SameStage(a, ApplyAll(root, a, recs))
  {
    if recs != [] {
      var init, last := recs[..|recs| - 1], recs[|recs| - 1];
      BatchMotion(root, a, init, s);
      var b := ApplyAll(root, a, init);
      RecordsKeepStage(root, a, recs);
      if Heard(b, last) { OpMotion(root, b, b.Find(last.player).value, last.op, s); }
      assert b.Get(s).id == a.Get(s).id && b.Get(s).alive;
      assert last.player == a.Get(s).id ==> b.Find(last.player) == Some(s);
    }
  }

  lemma OpMotion(root: Root, a: Arena, t: Side, op: Op, s: Side)
    ensures SameMotion(ApplyOp(root, a, t, op).Get(s), if t == s then Ordered(a.Get(s), Some(op)) else a.Get(s))
  {
  }

  /** A tick of a running room, seen from one player's motion. */
  lemma TickMotion(root: Root, r: Room, nowMs: int, finishMs: int, s: Side)
    requires r.arena.p1.id != r.arena.p2.id && r.arena.Get(s).alive && r.started && !r.finished
    requires !Tick(root, r, nowMs, finishMs).room.finished
    ensures var r' := Tick(root, r, nowMs, finishMs).room;
            && SameMotion(r'.arena.Get(s),
               Advance(root, Ordered(r.arena.Get(s), LastMove(r.pending, r.arena.Get(s).id))))
            && r'.pending == [] && r'.started && r'.arena.p1.id == r.arena.p1.id && r'.arena.p2.id == r.arena.p2.id
  {
    var a := r.arena.(tick := r.arena.tick + 1);
    BatchMotion(root, a, r.pending, s);
    var c := Consumed(root, r).arena;
    MotionDecidesAdvance(root, c.Get(s), Ordered(r.arena.Get(s), LastMove(r.pending, r.arena.Get(s).id)));
  }

  /** No further move by this player is submitted. */
  predicate NoMoveBy(calls: seq<Call>, id: int) {
    forall k :: 0 <= k < |calls| && calls[k].CallSubmit? && calls[k].player == id ==> !calls[k].op.Move?
  }

  ghost predicate Marching(root: Root, r: Room, s: Side, t: Room, n: nat) {
    var f, id := r.arena.Get(s), r.arena.Get(s).id;
    var g := Ordered(f, LastMove(r.pending, id));
    && t.started && t.arena.p1.id == r.arena.p1.id && t.arena.p2.id == r.arena.p2.id && t.arena.Get(s).alive
    && (if n == 0 then SameMotion(t.arena.Get(s), f) && LastMove(t.pending, id) == LastMove(r.pending, id)
        else SameMotion(t.arena.Get(s), AdvanceN(root, g, n)) && LastMove(t.pending, id) == None)
  }

  lemma MarchTick(root: Root, r: Room, s: Side, t: Room, n: nat, nowMs: int, finishMs: int)
    requires r.arena.p1.id != r.arena.p2.id && Marching(root, r, s, t, n) && !t.finished
    requires !Tick(root, t, nowMs, finishMs).room.finished
    ensures Marching(root, r, s, Tick(root, t, nowMs, finishMs).room, n + 1)
  {
    var id := r.arena.Get(s).id;
    var g := Ordered(r.arena.Get(s), LastMove(r.pending, id));
    var h := Ordered(t.arena.Get(s), LastMove(t.pending, id));
    TickMotion(root, t, nowMs, finishMs, s);
    assert SameMotion(h, AdvanceN(root, g, n));
    MotionDecidesAdvance(root, h, AdvanceN(root, g, n));
    Laws.AdvanceKeepsRecord(root, h);
  }

  lemma MarchSubmit(root: Root, r: Room, s: Side, t: Room, n: nat, player: int, op: Op)
    requires Marching(root, r, s, t, n) && (player == r.arena.Get(s).id ==> !op.Move?)
    ensures Marching(root, r, s, SubmitOp(t, player, op), n)
  {
    assert (t.pending + [OpRecord(player, op)])[..|t.pending|] == t.pending;
  }

  lemma QuitEndsOrDoesNothing(r: Room, player: int, finishMs: int)
    requires !OnPlayerQuit(r, player, finishMs).room.finished
    ensures OnPlayerQuit(r, player, finishMs).room == r
  {
  }

  lemma FinishedStays(root: Root, r: Room, call: Call)
    ensures r.finished ==> Do(root, r, call).room.finished
  {
  }

  lemma MarchCall(root: Root, r: Room, s: Side, t: Room, n: nat, call: Call)
    requires r.arena.p1.id != r.arena.p2.id && Marching(root, r, s, t, n) && !t.finished
    requires !Do(root, t, call).room.finished
    requires call.CallSubmit? && call.player == r.arena.Get(s).id ==> !call.op.Move?
    ensures Marching(root, r, s, Do(root, t, call).room, if call.CallTick? then n + 1 else n)
  {
    match call
    case CallTick(nowMs, finishMs) => MarchTick(root, r, s, t, n, nowMs, finishMs);
    case CallQuit(player, finishMs) => QuitEndsOrDoesNothing(t, player, finishMs);
    case CallSubmit(player, op) => MarchSubmit(root, r, s, t, n, player, op);
  }

  lemma {:induction false} March(root: Root, r: Room, s: Side, calls: seq<Call>)
    requires r.arena.p1.id != r.arena.p2.id && r.arena.Get(s).alive && r.started && !r.finished
    requires NoMoveBy(calls, r.arena.Get(s).id) && !Run(root, r, calls).room.finished
    ensures Marching(root, r, s, Run(root, r, calls).room, Laws.Ticks(calls))
  {
    if calls != [] {
      var init, last := calls[..|calls| - 1], calls[|calls| - 1];
      var t := Run(root, r, init).room;
      FinishedStays(root, t, last);
      March(root, r, s, init);
      MarchCall(root, r, s, t, Laws.Ticks(init), last);
    }
  }

  /** What n ticks of walking make of an order to move. */
  lemma OrderedWalk(root: Root, f: Fighter, dx: real, dy: real, n: nat)
    requires IsSqrt(root) && Laws.InMap(f) && f.alive
    ensures var g, m := AdvanceN(root, Ordered(f, Some(Move(dx, dy))), n), WalkTicks(Norm(root, 2.0 * dx, 4.0 * dy));
            && (n < m ==> g.stepping)
            && (m <= n ==>
               !g.stepping && g.x == Clamp(f.x + 2.0 * dx, 0.0, 100.0) && g.y == Clamp(f.y + 4.0 * dy, 0.0, 100.0))
  {
    var f', m := Ordered(f, Some(Move(dx, dy))), WalkTicks(Norm(root, 2.0 * dx, 4.0 * dy));
    SameNorm(root, dx * CELL_W, dy * CELL_H, 2.0 * dx, 4.0 * dy);
    WalkLands(root, f');
    if m <= n { ArrivedStays(root, f', m, n); }
  }

  /**
   The fragmented walk refines one jump. A move by (dx, dy) is the last one waiting for player s in a
   running room; no further move of that player comes. Then, whatever else is submitted, after
   max(1, ceil(length / 3)) ticks the player stands at start + (2 dx, 4 dy), cut off at the map, and
   stays there; before that it is still walking.
   */
  lemma WalkRefinesJump(root: Root, r: Room, s: Side, dx: real, dy: real, calls: seq<Call>)
    requires IsSqrt(root) && Laws.Sound(r) && r.arena.p1.id != r.arena.p2.id && r.started && !r.finished
    requires LastMove(r.pending, r.arena.Get(s).id) == Some(Move(dx, dy))
    requires NoMoveBy(calls, r.arena.Get(s).id) && !Run(root, r, calls).room.finished
    ensures var f, g := r.arena.Get(s), Run(root, r, calls).room.arena.Get(s);
            var n, m := Laws.Ticks(calls), WalkTicks(Norm(root, 2.0 * dx, 4.0 * dy));
            && (n < m ==> n == 0 || g.stepping)
            && (m <= n ==>
               !g.stepping && g.x == Clamp(f.x + 2.0 * dx, 0.0, 100.0) && g.y == Clamp(f.y + 4.0 * dy, 0.0, 100.0))
  {
    March(root, r, s, calls);
    OrderedWalk(root, r.arena.Get(s), dx, dy, Laws.Ticks(calls));
  }
}
