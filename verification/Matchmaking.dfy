/**
 Matchmaking across any number of game instances that share one Redis. Every Redis command and every
 locked update of an instance's room table is one step; steps of different instances, and of requests
 that come in meanwhile, interleave freely. Each join gets a ticket, a number that exists only in this
 model, so that what became of it can be told.
 */
module Matchmaking {
  import opened Options
  import opened Codec = MemberCodec

  /* ---------- the sorted set of waiting members ---------- */

  datatype Pool = Fs | Ss

  /** Mode 0 is frame sync, every other mode is state sync. */
  function PoolOf(mode: int): Pool {
    if mode == 0 then Fs else Ss
  }

  datatype Entry = Entry(score: int, member: string, ticket: nat)

  predicate LexLess(a: string, b: string) {
    b != "" && (a == "" || a[0] < b[0] || (a[0] == b[0] && LexLess(a[1..], b[1..])))
  }

  /** Redis order: by score, equal scores by member. */
  predicate Less(e: Entry, f: Entry) {
    e.score < f.score || (e.score == f.score && LexLess(e.member, f.member))
  }

  lemma {:induction false} LexTransitive(a: string, b: string, c: string)
    requires LexLess(a, b) && LexLess(b, c)
    ensures LexLess(a, c)
  {
    if a != "" && a[0] == b[0] && b[0] == c[0] { LexTransitive(a[1..], b[1..], c[1..]); }
  }

  lemma {:induction false} LexTotal(a: string, b: string)
    ensures LexLess(a, b) || a == b || LexLess(b, a)
  {
    if a != "" && b != "" && a[0] == b[0] {
      LexTotal(a[1..], b[1..]);
      if a[1..] == b[1..] { assert a == [a[0]] + a[1..] == [b[0]] + b[1..] == b; }
    }
  }

  lemma {:induction false} LexIrreflexive(a: string)
    ensures !LexLess(a, a)
  {
    if a != "" { LexIrreflexive(a[1..]); }
  }

  /** a comes before b in a dictionary: at some place the two part, where a ends or has the smaller character. */
  ghost predicate Precedes(a: string, b: string) {
    exists k :: 0 <= k <= |a| && k < |b| && a[..k] == b[..k] && (k == |a| || a[k] < b[k])
  }

  lemma {:induction false} LexLessIsPrecedes(a: string, b: string)
    requires LexLess(a, b)
    ensures Precedes(a, b)
  {
    if a == "" || a[0] < b[0] {
      assert a[..0] == b[..0];
    } else {
      LexLessIsPrecedes(a[1..], b[1..]);
      var c, d := a[1..], b[1..];
      var k :| 0 <= k <= |c| && k < |d| && c[..k] == d[..k] && (k == |c| || c[k] < d[k]);
      assert a[..k + 1] == [a[0]] + c[..k] && b[..k + 1] == [b[0]] + d[..k];
    }
  }

  lemma LessTransitive(e: Entry, f: Entry, g: Entry)
    requires Less(e, f) && Less(f, g)
    ensures Less(e, g)
  {
    if e.score == f.score == g.score { LexTransitive(e.member, f.member, g.member); }
  }

  ghost predicate Sorted(pool: seq<Entry>) {
    forall i, j :: 0 <= i < j < |pool| ==> Less(pool[i], pool[j])
  }

  ghost predicate OneEntryPerMember(pool: seq<Entry>) {
    forall e, f :: e in pool && f in pool && e.member == f.member ==> e == f
  }

  function Remove(pool: seq<Entry>, member: string): seq<Entry> {
    if pool == [] then []
    else if pool[0].member == member then Remove(pool[1..], member)
    else [pool[0]] + Remove(pool[1..], member)
  }

  function Insert(pool: seq<Entry>, e: Entry): seq<Entry> {
    if pool == [] || Less(e, pool[0]) then [e] + pool else [pool[0]] + Insert(pool[1..], e)
  }

  lemma {:induction false} RemoveLaws(pool: seq<Entry>, member: string)
    requires Sorted(pool)
    ensures Sorted(Remove(pool, member))
    ensures forall e :: e in Remove(pool, member) <==> e in pool && e.member != member
  {
    if pool != [] {
      RemoveLaws(pool[1..], member);
      var rest := Remove(pool[1..], member);
      assert forall e :: e in pool <==> e == pool[0] || e in pool[1..];
      forall k | 0 <= k < |rest| ensures Less(pool[0], rest[k]) {
        assert rest[k] in rest && rest[k] in pool[1..];
      }
    }
  }

  lemma {:induction false} InsertLaws(pool: seq<Entry>, e: Entry)
    requires Sorted(pool) && forall f :: f in pool ==> f.member != e.member
    ensures Sorted(Insert(pool, e))
    ensures forall f :: f in Insert(pool, e) <==> f in pool || f == e
  {
    if pool != [] {
      assert forall f :: f in pool <==> f == pool[0] || f in pool[1..];
      if Less(e, pool[0]) {
        forall k | 0 <= k < |pool| ensures Less(e, pool[k]) {
          if 0 < k { LessTransitive(e, pool[0], pool[k]); }
        }
      } else {
        InsertLaws(pool[1..], e);
        LexTotal(e.member, pool[0].member);
        assert Less(pool[0], e);
        var rest := Insert(pool[1..], e);
        forall k | 0 <= k < |rest| ensures Less(pool[0], rest[k]) {
          assert rest[k] in rest;
        }
      }
    }
  }

  function EntryOf(pool: seq<Entry>, member: string): Option<Entry> {
    if pool == [] then None
    else if pool[0].member == member then Some(pool[0])
    else EntryOf(pool[1..], member)
  }

  lemma {:induction false} EntryOfLaws(pool: seq<Entry>, member: string)
    ensures EntryOf(pool, member).Some? ==>
            EntryOf(pool, member).value in pool && EntryOf(pool, member).value.member == member
    ensures EntryOf(pool, member).None? ==> forall e :: e in pool ==> e.member != member
  {
    if pool != [] {
      EntryOfLaws(pool[1..], member);
      assert forall e :: e in pool <==> e == pool[0] || e in pool[1..];
    }
  }

  /** ZRANGEBYSCORE -1e18 limit */
  function Stale(pool: seq<Entry>, limit: int): seq<string> {
    if pool == [] then []
    else (if pool[0].score <= limit then [pool[0].member] else []) + Stale(pool[1..], limit)
  }

  lemma {:induction false} StaleIsExact(pool: seq<Entry>, limit: int)
    ensures forall e :: e in pool && e.score <= limit ==> e.member in Stale(pool, limit)
    ensures forall m :: m in Stale(pool, limit) ==> exists e :: e in pool && e.member == m && e.score <= limit
  {
    if pool != [] {
      StaleIsExact(pool[1..], limit);
      assert forall e :: e in pool <==> e == pool[0] || e in pool[1..];
    }
  }

  /* ---------- the world ---------- */

  /** The advertised address of a game instance; different instances have different addresses. */
  type Instance = string

  /** What a player asked for when it joined. */
  datatype Ticket = Ticket(mode: int, waiter: Waiter)

  /** What one run of the pairing script took, and what it left behind. */
  datatype Pop = Pop(pool: Pool, first: Entry, second: Entry, rest: seq<Entry>)

  datatype Created = Created(id: int, owner: Instance, pop: nat, mode: int, player1: int, player2: int)

  /** How a ticket ends without a room. */
  datatype Exit = Left | Expired | Superseded | IncrFailed | ReplyLost

  /** Where an instance's match loop stands between two commands. */
  datatype Pc =
    | Ready
    | Popped(pop: nat)
    | Numbered(pop: nat, id: int)
    | Publishing(room: nat, stage: nat)
    | ToSweep(pool: Pool)
    | Sweeping(pool: Pool, todo: seq<string>)

  datatype World = World(
    // Redis
    fs: seq<Entry>, ss: seq<Entry>, counter: Option<int>,
    results: map<int, int>, routes: map<int, Instance>,
    // the instances: match loops and room tables
    pcs: map<Instance, Pc>, held: set<(Instance, int)>, finished: set<int>,
    // history
    tickets: seq<Ticket>, pops: seq<Pop>, created: seq<Created>, gone: map<nat, Exit>, answers: seq<(int, int)>) {

    function PoolAt(p: Pool): seq<Entry> {
      if p.Fs? then fs else ss
    }

    function SetPool(p: Pool, entries: seq<Entry>): World {
      if p.Fs? then this.(fs := entries) else this.(ss := entries)
    }

    function PcOf(i: Instance): Pc {
      if i in pcs then pcs[i] else Ready
    }
  }

  const EMPTY := World([], [], None, map[], map[], map[], {}, {}, [], [], [], map[], [])

  const START_SEQ := 1000
  const MATCH_TIMEOUT_MS := 10000

  /* ---------- steps ---------- */

  /** ZREM of one member. */
  function Evict(w: World, p: Pool, member: string, exit: Exit): World {
    match EntryOf(w.PoolAt(p), member)
    case None => w
    case Some(e) => w.SetPool(p, Remove(w.PoolAt(p), member)).(gone := w.gone[e.ticket := exit])
  }

  /** ZADD of a member: a new score for a member already there, otherwise a new member. */
  function Join(w: World, mode: int, waiter: Waiter, nowMs: int): World {
    var p, member := PoolOf(mode), EncodeMember(waiter);
    var v := Evict(w, p, member, Superseded);
    v.SetPool(p, Insert(v.PoolAt(p), Entry(nowMs, member, |w.tickets|))).(tickets := w.tickets + [Ticket(mode, waiter)])
  }

  function PlayerOf(e: Entry): int {
    ParseMember(e.member).playerId
  }

  /** The atomic pairing script; without an answer the instance gives up the tick, whatever was taken. */
  function Pair(w: World, i: Instance, p: Pool, answered: bool): World {
    var pool := w.PoolAt(p);
    if w.PcOf(i) != Ready then w
    else if |pool| < 2 then if answered then w.(pcs := w.pcs[i := ToSweep(p)]) else w
    else
      var v := w.SetPool(p, pool[2..]).(pops := w.pops + [Pop(p, pool[0], pool[1], pool[2..])]);
      if answered then v.(pcs := w.pcs[i := Popped(|w.pops|)])
      else v.(gone := w.gone[pool[0].ticket := ReplyLost][pool[1].ticket := ReplyLost])
  }

  function NextId(w: World): int {
    match w.counter case None => 1 case Some(n) => n + 1
  }

  /** INCR; an error may come back although the counter has moved. */
  function Incr(w: World, i: Instance, applied: bool, answered: bool): World {
    match w.PcOf(i)
    case Popped(n) =>
      if n >= |w.pops| then w
      else if applied && answered then w.(counter := Some(NextId(w)), pcs := w.pcs[i := Numbered(n, NextId(w))])
      else
        w.(counter := if applied then Some(NextId(w)) else w.counter, pcs := w.pcs[i := Ready],
           gone := w.gone[w.pops[n].first.ticket := IncrFailed][w.pops[n].second.ticket := IncrFailed])
    case _ => w
  }

  /** The mode a match tick works for when it takes members from a pool. */
  function ModeOf(p: Pool): int {
    if p.Fs? then 0 else 1
  }

  /** The room an instance makes of pop number n. */
  function RoomOf(id: int, i: Instance, n: nat, q: Pop): Created {
    Created(id, i, n, ModeOf(q.pool), PlayerOf(q.first), PlayerOf(q.second))
  }

  /** The room goes into the instance's table before anything is published. */
  function Create(w: World, i: Instance): World {
    match w.PcOf(i)
    case Numbered(n, id) =>
      if n >= |w.pops| then w
      else
        w.(held := w.held + {(i, id)},
           created := w.created + [RoomOf(id, i, n, w.pops[n])],
           pcs := w.pcs[i := Publishing(|w.created|, 0)])
    case _ => w
  }

  /** The three SETEX commands after creation; an error is ignored. */
  function Publish(w: World, i: Instance, applied: bool): World {
    match w.PcOf(i)
    case Publishing(k, stage) =>
      if k >= |w.created| || w.created[k].pop >= |w.pops| then w
      else
        var room := w.created[k];
        w.(pcs := w.pcs[i := if stage < 2 then Publishing(k, stage + 1) else ToSweep(w.pops[room.pop].pool)],
           results := if !applied || 2 <= stage then w.results
                      else w.results[(if stage == 0 then room.player1 else room.player2) := room.id],
           routes := if applied && 2 <= stage then w.routes[room.id := i] else w.routes)
    case _ => w
  }

  function SweepRange(w: World, i: Instance, nowMs: int, answered: bool): World {
    match w.PcOf(i)
    case ToSweep(p) =>
      w.(pcs := w.pcs[i := if answered then Sweeping(p, Stale(w.PoolAt(p), nowMs - MATCH_TIMEOUT_MS)) else Ready])
    case _ => w
  }

  function SweepOne(w: World, i: Instance, applied: bool): World {
    match w.PcOf(i)
    case Sweeping(p, todo) =>
      if todo == [] then w.(pcs := w.pcs[i := Ready])
      else (if applied then Evict(w, p, todo[0], Expired) else w).(pcs := w.pcs[i := Sweeping(p, todo[1..])])
    case _ => w
  }

  datatype Action =
    | DoInit
    | DoJoin(mode: int, waiter: Waiter, nowMs: int)
    | DoLeave(pool: Pool, waiter: Waiter)                 // one of the two ZREM commands of LeaveMatch
    | DoPair(i: Instance, pool: Pool, answered: bool)
    | DoIncr(i: Instance, applied: bool, answered: bool)
    | DoCreate(i: Instance)
    | DoPublish(i: Instance, applied: bool)
    | DoSweepRange(i: Instance, nowMs: int, answered: bool)
    | DoSweepOne(i: Instance, applied: bool)
    | DoQuery(player: int)                                // GET of the result key
    | DoDropResult(player: int)                           // DEL after a query, or the key's TTL
    | DoDropRoute(id: int)                                // the route's TTL
    | DoFinish(i: Instance, id: int)                      // the battle in a room ends
    | DoCleanup(i: Instance, id: int)                     // a finished room leaves the table

  function Step(w: World, act: Action): World {
    match act
    case DoInit => if w.counter.None? then w.(counter := Some(START_SEQ)) else w
    case DoJoin(mode, waiter, nowMs) => Join(w, mode, waiter, nowMs)
    case DoLeave(p, waiter) => Evict(w, p, EncodeMember(waiter), Left)
    case DoPair(i, p, answered) => Pair(w, i, p, answered)
    case DoIncr(i, applied, answered) => Incr(w, i, applied, answered)
    case DoCreate(i) => Create(w, i)
    case DoPublish(i, applied) => Publish(w, i, applied)
    case DoSweepRange(i, nowMs, answered) => SweepRange(w, i, nowMs, answered)
    case DoSweepOne(i, applied) => SweepOne(w, i, applied)
    case DoQuery(player) => if player in w.results then w.(answers := w.answers + [(player, w.results[player])]) else w
    case DoDropResult(player) => w.(results := w.results - {player})
    case DoDropRoute(id) => w.(routes := w.routes - {id})
    case DoFinish(i, id) => if (i, id) in w.held then w.(finished := w.finished + {id}) else w
    case DoCleanup(i, id) => if id in w.finished then w.(held := w.held - {(i, id)}) else w
  }

  function Run(acts: seq<Action>): World {
    if acts == [] then EMPTY else Step(Run(acts[..|acts| - 1]), acts[|acts| - 1])
  }
}
