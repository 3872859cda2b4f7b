/**
 The matchmaking methods of one game instance in the order the source runs their commands, with nobody
 in between unless a method says so. Each command is one step of module Matchmaking, so everything proved
 there of arbitrary interleavings holds of these methods too; here is what a method achieves when it is
 left alone.
 */
module GameService {
  import opened Options
  import opened Codec = MemberCodec
  import opened Matchmaking
  import MatchLaws
  import RoutingLaws

  /** Redis and the room tables, as the instances see them. */
  class Cluster {
    var w: World
    ghost var trace: seq<Action>   // the steps taken so far

    constructor ()
      ensures Valid() && w == EMPTY && trace == []
    {
      w, trace := EMPTY, [];
    }

    /** w is what the steps of trace make of an empty world; said so that Run is not unfolded everywhere. */
    ghost predicate Valid()
      reads this
    {
      forall acts {:trigger Run(acts)} :: acts == trace ==> w == Run(acts)
    }

    method Do(act: Action)
      requires Valid()
      modifies this
      ensures Valid() && w == Step(old(w), act) && trace == old(trace) + [act]
    {
      w := Step(w, act);
      trace := trace + [act];
      assert trace[..|trace| - 1] == old(trace);
      assert old(w) == Run(old(trace)) && Run(trace) == Step(Run(old(trace)), act);
    }

    /** What other instances and players do meanwhile. */
    method Others(acts: seq<Action>)
      requires Valid()
      modifies this
      ensures Valid() && trace == old(trace) + acts
      ensures old(w).created <= w.created && old(w).answers <= w.answers && (acts == [] ==> w == old(w))
    {
      for n := 0 to |acts|
        invariant Valid() && trace == old(trace) + acts[..n]
        invariant old(w).created <= w.created && old(w).answers <= w.answers && (n == 0 ==> w == old(w))
      {
        RoutingLaws.StepKeepsHistory(w, acts[n]);
        Do(acts[n]);
        assert acts[..n + 1] == acts[..n] + [acts[n]];
      }
      assert acts[..|acts|] == acts;
    }
  }

  lemma PoolsAreSorted(acts: seq<Action>)
    ensures Sorted(Run(acts).fs) && Sorted(Run(acts).ss)
    ensures OneEntryPerMember(Run(acts).fs) && OneEntryPerMember(Run(acts).ss)
  {
    var place := MatchLaws.RunKeepsTickets(acts);
    assert MatchLaws.PoolOk(Run(acts), Fs, place) && MatchLaws.PoolOk(Run(acts), Ss, place);
  }

  /**
   How the commands of a match tick fare. A command may be carried out without its answer coming back: ran and
   counted say whether the script and INCR were carried out, failed lists the members whose removal was not.
   */
  datatype Replies = Replies(
    ran: bool, script: bool, counted: bool, incr: bool, set1: bool, set2: bool, set3: bool, range: bool,
    failed: set<string>) {

    predicate Possible() {
      (script ==> ran) && (incr ==> counted)
    }
  }

  /** After the sweep only entries of less than 10 s are left, and those that could not be removed. */
  ghost predicate Swept(before: seq<Entry>, after: seq<Entry>, nowMs: int, failed: set<string>) {
    forall e :: e in after <==> e in before && (nowMs - e.score < 10000 || e.member in failed)
  }

  /** In the middle of the sweep the members listed so far are gone, but for the failures. */
  ghost predicate Without(before: seq<Entry>, now: seq<Entry>, removed: seq<string>, failed: set<string>) {
    forall e :: e in now <==> e in before && (e.member !in removed || e.member in failed)
  }

  lemma RemovingStaleSweeps(pool: seq<Entry>, after: seq<Entry>, nowMs: int, failed: set<string>)
    requires OneEntryPerMember(pool) && Without(pool, after, Stale(pool, nowMs - MATCH_TIMEOUT_MS), failed)
    ensures Swept(pool, after, nowMs, failed)
  {
    StaleIsExact(pool, nowMs - MATCH_TIMEOUT_MS);
  }

  /* ---------- what the steps of one tick add up to ---------- */

  lemma CreateStage(w: World, i: Instance, n: nat, id: int)
    requires w.PcOf(i) == Numbered(n, id) && n < |w.pops|
    ensures var v := Create(w, i);
            && v.PcOf(i) == Publishing(|w.created|, 0) && v.fs == w.fs && v.ss == w.ss && v.pops == w.pops
            && v.created == w.created + [RoomOf(id, i, n, w.pops[n])] && (i, id) in v.held
            && v.results == w.results && v.routes == w.routes && v.gone == w.gone && v.counter == w.counter
  {
  }

  function PublishAll(w: World, i: Instance, set1: bool, set2: bool, set3: bool): World {
    Publish(Publish(Publish(w, i, set1), i, set2), i, set3)
  }

  /** The keys of a room after SETEX, as far as they were carried out: both players find it, and it finds its owner. */
  ghost predicate Published(w: World, v: World, room: Created, set1: bool, set2: bool, set3: bool) {
    && v.results == (var one := if set1 then w.results[room.player1 := room.id] else w.results;
                     if set2 then one[room.player2 := room.id] else one)
    && v.routes == if set3 then w.routes[room.id := room.owner] else w.routes
  }

  lemma PublishStage(w: World, i: Instance, k: nat, set1: bool, set2: bool, set3: bool)
    requires w.PcOf(i) == Publishing(k, 0) && k < |w.created| && w.created[k].pop < |w.pops| && w.created[k].owner == i
    ensures var v, room := PublishAll(w, i, set1, set2, set3), w.created[k];
            && v.PcOf(i) == ToSweep(w.pops[room.pop].pool) && v.fs == w.fs && v.ss == w.ss
            && v.created == w.created && v.held == w.held && v.gone == w.gone && v.counter == w.counter
            && Published(w, v, room, set1, set2, set3)
  {
    var a := Publish(w, i, set1);
    assert a.PcOf(i) == Publishing(k, 1) && a.created == w.created && a.pops == w.pops;
    var b := Publish(a, i, set2);
    assert b.PcOf(i) == Publishing(k, 2) && b.created == w.created && b.pops == w.pops;
  }

  lemma SweepStage(w: World, i: Instance, p: Pool, todo: seq<string>, applied: bool)
    requires w.PcOf(i) == Sweeping(p, todo) && todo != [] && Sorted(w.PoolAt(p))
    ensures var v := SweepOne(w, i, applied);
            && v.PcOf(i) == Sweeping(p, todo[1..]) && Sorted(v.PoolAt(p)) && SameRooms(w, v)
            && forall e :: e in v.PoolAt(p) <==> e in w.PoolAt(p) && (e.member != todo[0] || !applied)
  {
    RemoveLaws(w.PoolAt(p), todo[0]);
    EntryOfLaws(w.PoolAt(p), todo[0]);
  }

  ghost predicate SameRooms(w: World, v: World) {
    v.created == w.created && v.routes == w.routes && v.results == w.results && v.held == w.held
      && v.counter == w.counter
  }

  /** The room that instance i makes of the two members at the front of a pool. */
  function NextRoom(w: World, i: Instance, p: Pool): Created
    requires 2 <= |w.PoolAt(p)|
  {
    RoomOf(NextId(w), i, |w.pops|, Pop(p, w.PoolAt(p)[0], w.PoolAt(p)[1], w.PoolAt(p)[2..]))
  }

  /** The front of the pool has become a room of instance i. */
  ghost predicate RoomMade(w: World, v: World, i: Instance, p: Pool, net: Replies)
    requires 2 <= |w.PoolAt(p)|
  {
    var room := NextRoom(w, i, p);
    && v.created == w.created + [room] && (i, room.id) in v.held && v.counter == Some(room.id)
    && Published(w, v, room, net.set1, net.set2, net.set3)
  }

  /** The front of the pool is lost: no room, and both tickets are accounted for. */
  ghost predicate PairLost(w: World, v: World, p: Pool, net: Replies)
    requires 2 <= |w.PoolAt(p)|
  {
    var exit := if net.script then IncrFailed else ReplyLost;
    && v.created == w.created && v.results == w.results && v.routes == w.routes
    && v.gone == w.gone[w.PoolAt(p)[0].ticket := exit][w.PoolAt(p)[1].ticket := exit]
    && v.counter == if net.script && net.counted then Some(NextId(w)) else w.counter
  }

  predicate GoesOn(w: World, p: Pool, net: Replies) {
    net.script && (|w.PoolAt(p)| < 2 || net.incr)
  }

  function PoolAfterPairing(w: World, p: Pool, net: Replies): seq<Entry> {
    if net.ran && 2 <= |w.PoolAt(p)| then w.PoolAt(p)[2..] else w.PoolAt(p)
  }

  /** What the first half of a match tick comes to, however its commands fare. */
  ghost predicate Paired(w: World, v: World, i: Instance, p: Pool, net: Replies) {
    if !net.ran || |w.PoolAt(p)| < 2 then SameRooms(w, v)
    else if GoesOn(w, p, net) then RoomMade(w, v, i, p, net)
    else PairLost(w, v, p, net)
  }

  /** What a query that was answered leaves behind: the rooms it found, one answer more, one result fewer. */
  ghost predicate Taken(w: World, v: World, player: int, roomId: int, meanwhile: seq<Action>, dropped: bool) {
    && w.created <= v.created && w.answers + [(player, roomId)] <= v.answers
    && (dropped ==> player !in v.results)
    && (meanwhile == [] ==>
          v == w.(answers := w.answers + [(player, roomId)],
                  results := if dropped then w.results - {player} else w.results))
  }

  class GameInstance {
    const addr: string
    const cluster: Cluster

    constructor (addr: string, cluster: Cluster)
      ensures this.addr == addr && this.cluster == cluster
    {
      this.addr, this.cluster := addr, cluster;
    }

    /** An error of ZADD is told to the player; the command may have been carried out all the same. */
    method JoinMatch(mode: int, waiter: Waiter, nowMs: int, applied: bool, answered: bool) returns (ok: bool)
      requires cluster.Valid() && (answered ==> applied)
      modifies cluster
      ensures cluster.Valid() && ok == answered
      ensures cluster.w == if applied then Step(old(cluster.w), DoJoin(mode, waiter, nowMs)) else old(cluster.w)
      ensures var pool, before := cluster.w.PoolAt(PoolOf(mode)), old(cluster.w.PoolAt(PoolOf(mode)));
              var mine := Entry(nowMs, EncodeMember(waiter), |old(cluster.w.tickets)|);
              Sorted(pool)
                && (applied ==> forall e :: e in pool <==> e == mine || (e in before && e.member != mine.member))
    {
      ghost var p, m := PoolOf(mode), EncodeMember(waiter);
      PoolsAreSorted(cluster.trace);
      if applied {
        ghost var u := Evict(cluster.w, p, m, Superseded);
        EntryOfLaws(cluster.w.PoolAt(p), m);
        RemoveLaws(cluster.w.PoolAt(p), m);
        InsertLaws(u.PoolAt(p), Entry(nowMs, m, |cluster.w.tickets|));
        cluster.Do(DoJoin(mode, waiter, nowMs));
      }
      ok := answered;
    }

    /** One ZREM, which may not be carried out. */
    method Remove(p: Pool, waiter: Waiter, applied: bool)
      requires cluster.Valid()
      modifies cluster
      ensures cluster.Valid() && cluster.trace == old(cluster.trace) + if applied then [DoLeave(p, waiter)] else []
      ensures cluster.w.PoolAt(MatchLaws.OtherPool(p)) == old(cluster.w.PoolAt(MatchLaws.OtherPool(p)))
      ensures forall e :: e in cluster.w.PoolAt(p) <==>
                          e in old(cluster.w.PoolAt(p)) && (applied ==> e.member != EncodeMember(waiter))
    {
      ghost var m := EncodeMember(waiter);
      PoolsAreSorted(cluster.trace);
      EntryOfLaws(cluster.w.PoolAt(p), m);
      RemoveLaws(cluster.w.PoolAt(p), m);
      if applied { cluster.Do(DoLeave(p, waiter)); }
    }

    /** The member is removed from both pools, whichever it is in; an error of ZREM goes unnoticed. */
    method LeaveMatch(waiter: Waiter, leftFs: bool, leftSs: bool)
      requires cluster.Valid()
      modifies cluster
      ensures cluster.Valid()
      ensures cluster.trace == old(cluster.trace)
              + (if leftFs then [DoLeave(Fs, waiter)] else []) + if leftSs then [DoLeave(Ss, waiter)] else []
      ensures forall e :: e in cluster.w.fs <==>
                          e in old(cluster.w.fs) && (leftFs ==> e.member != EncodeMember(waiter))
      ensures forall e :: e in cluster.w.ss <==>
                          e in old(cluster.w.ss) && (leftSs ==> e.member != EncodeMember(waiter))
    {
      Remove(Fs, waiter, leftFs);
      assert cluster.w.PoolAt(Ss) == cluster.w.ss == old(cluster.w.ss);
      Remove(Ss, waiter, leftSs);
      assert cluster.w.PoolAt(Fs) == cluster.w.fs;
    }

    /**
     The room of a player, 0 while there is none or if GET fails; an answer is given once unless DEL fails.
     Others may come between GET and DEL: DEL takes away whatever is stored by then.
     */
    method QueryMatchResult(playerId: int, got: bool, meanwhile: seq<Action>, dropped: bool) returns (roomId: int)
      requires cluster.Valid()
      modifies cluster
      ensures cluster.Valid()
      ensures !got || playerId !in old(cluster.w.results) ==>
                roomId == 0 && cluster.w == old(cluster.w) && cluster.trace == old(cluster.trace)
      ensures got && playerId in old(cluster.w.results) ==>
                && roomId == old(cluster.w.results)[playerId]
                && RoutingLaws.HasRoomWith(old(cluster.w), roomId, playerId)
                && Taken(old(cluster.w), cluster.w, playerId, roomId, meanwhile, dropped)
                && cluster.trace == old(cluster.trace) + [DoQuery(playerId)] + meanwhile
                                    + if dropped then [DoDropResult(playerId)] else []
    {
      RoutingLaws.RunKeepsRouting(cluster.trace);
      roomId := 0;
      if got && playerId in cluster.w.results {
        roomId := cluster.w.results[playerId];
        ghost var w0 := cluster.w;
        cluster.Do(DoQuery(playerId));
        cluster.Others(meanwhile);
        if dropped { cluster.Do(DoDropResult(playerId)); }
      }
    }

    /** The room enters the table, then its keys are published. */
    method MakeRoom(ghost q: Pop, ghost n: nat, ghost id: int, net: Replies)
      requires cluster.Valid() && cluster.w.PcOf(addr) == Numbered(n, id)
      requires n < |cluster.w.pops| && cluster.w.pops[n] == q
      modifies cluster
      ensures cluster.Valid() && cluster.w.PcOf(addr) == ToSweep(q.pool) && cluster.w.fs == old(cluster.w.fs)
              && cluster.w.ss == old(cluster.w.ss)
      ensures cluster.w.created == old(cluster.w.created) + [RoomOf(id, addr, n, q)] && (addr, id) in cluster.w.held
      ensures cluster.w.counter == old(cluster.w.counter)
      ensures Published(old(cluster.w), cluster.w, RoomOf(id, addr, n, q), net.set1, net.set2, net.set3)
    {
      ghost var w0 := cluster.w;
      cluster.Do(DoCreate(addr));
      CreateStage(w0, addr, n, id);
      ghost var w1 := cluster.w;
      cluster.Do(DoPublish(addr, net.set1));
      cluster.Do(DoPublish(addr, net.set2));
      cluster.Do(DoPublish(addr, net.set3));
      PublishStage(w1, addr, |w0.created|, net.set1, net.set2, net.set3);
    }

    /** Pair, number, create and publish: what the first half of a match tick does. */
    method PairUp(p: Pool, net: Replies) returns (goOn: bool)
      requires cluster.Valid() && cluster.w.PcOf(addr) == Ready && net.Possible()
      modifies cluster
      ensures cluster.Valid() && cluster.w.PcOf(addr) == (if goOn then ToSweep(p) else Ready)
      ensures goOn == GoesOn(old(cluster.w), p, net)
      ensures cluster.w.PoolAt(p) == PoolAfterPairing(old(cluster.w), p, net)
      ensures Paired(old(cluster.w), cluster.w, addr, p, net)
    {
      ghost var w0 := cluster.w;
      var two := 2 <= |cluster.w.PoolAt(p)|;
      RunScript(p, net);
      if !net.script {
        return false;
      }
      if two {
        ghost var q := Pop(p, w0.PoolAt(p)[0], w0.PoolAt(p)[1], w0.PoolAt(p)[2..]);
        assert cluster.w.pops[|w0.pops|] == q;
        Number(|w0.pops|, net);
        if !net.incr {
          return false;
        }
        MakeRoom(q, |w0.pops|, NextId(w0), net);
      }
      return true;
    }

    method RunScript(p: Pool, net: Replies)
      requires cluster.Valid() && cluster.w.PcOf(addr) == Ready && net.Possible()
      modifies cluster
      ensures cluster.Valid()
      ensures var w, v, pool := old(cluster.w), cluster.w, old(cluster.w).PoolAt(p);
              && SameRooms(w, v) && v.PoolAt(p) == PoolAfterPairing(w, p, net)
              && (!net.script ==> v.PcOf(addr) == Ready)
              && (net.script && |pool| < 2 ==> v.PcOf(addr) == ToSweep(p))
              && (net.script && 2 <= |pool| ==>
                   && v.PcOf(addr) == Popped(|w.pops|) && v.gone == w.gone
                   && v.pops == w.pops + [Pop(p, pool[0], pool[1], pool[2..])])
              && (net.ran && !net.script && 2 <= |pool| ==>
                 v.gone == w.gone[pool[0].ticket := ReplyLost][pool[1].ticket := ReplyLost])
    {
      if net.ran { cluster.Do(DoPair(addr, p, net.script)); }
    }

    method Number(ghost n: nat, net: Replies)
      requires cluster.Valid() && cluster.w.PcOf(addr) == Popped(n) && n < |cluster.w.pops| && net.Possible()
      modifies cluster
      ensures cluster.Valid()
      ensures var w, v := old(cluster.w), cluster.w;
              && v.PcOf(addr) == (if net.incr then Numbered(n, NextId(w)) else Ready) && v.fs == w.fs && v.ss == w.ss
              && v.pops == w.pops && v.created == w.created && v.results == w.results && v.routes == w.routes
              && v.counter == (if net.counted then Some(NextId(w)) else w.counter)
              && (!net.incr ==>
                 v.gone == w.gone[w.pops[n].first.ticket := IncrFailed][w.pops[n].second.ticket := IncrFailed])
    {
      cluster.Do(DoIncr(addr, net.counted, net.incr));
    }

    /** The sweep that ends a match tick: members who have waited 10 s or more are removed one by one. */
    method Sweep(p: Pool, nowMs: int, net: Replies)
      requires cluster.Valid() && cluster.w.PcOf(addr) == ToSweep(p)
      modifies cluster
      ensures cluster.Valid() && cluster.w.PcOf(addr) == Ready
      ensures SameRooms(old(cluster.w), cluster.w)
      ensures if net.range
              then Swept(old(cluster.w.PoolAt(p)), cluster.w.PoolAt(p), nowMs, net.failed)
              else cluster.w.PoolAt(p) == old(cluster.w.PoolAt(p))
    {
      PoolsAreSorted(cluster.trace);
      ghost var pool := cluster.w.PoolAt(p);
      var expired := Stale(cluster.w.PoolAt(p), nowMs - MATCH_TIMEOUT_MS);
      cluster.Do(DoSweepRange(addr, nowMs, net.range));
      if net.range {
        RemoveAll(p, expired, net.failed);
        RemovingStaleSweeps(pool, cluster.w.PoolAt(p), nowMs, net.failed);
      }
    }

    method RemoveAll(p: Pool, expired: seq<string>, failed: set<string>)
      requires cluster.Valid() && cluster.w.PcOf(addr) == Sweeping(p, expired) && Sorted(cluster.w.PoolAt(p))
      modifies cluster
      ensures cluster.Valid() && cluster.w.PcOf(addr) == Ready
      ensures SameRooms(old(cluster.w), cluster.w)
      ensures Without(old(cluster.w.PoolAt(p)), cluster.w.PoolAt(p), expired, failed)
    {
      for k := 0 to |expired|
        invariant cluster.Valid() && cluster.w.PcOf(addr) == Sweeping(p, expired[k..]) && Sorted(cluster.w.PoolAt(p))
        invariant SameRooms(old(cluster.w), cluster.w)
        invariant Without(old(cluster.w.PoolAt(p)), cluster.w.PoolAt(p), expired[..k], failed)
      {
        ghost var before := cluster.w.PoolAt(p);
        RemoveNext(p, expired[k..], expired[k] !in failed);
        assert expired[k..][1..] == expired[k + 1..] && expired[k..][0] == expired[k];
        OneMoreRemoved(old(cluster.w.PoolAt(p)), before, cluster.w.PoolAt(p), expired, k, failed);
      }
      assert expired[..|expired|] == expired;
      EndSweep(p);
    }

    method EndSweep(p: Pool)
      requires cluster.Valid() && cluster.w.PcOf(addr) == Sweeping(p, [])
      modifies cluster
      ensures cluster.Valid() && cluster.w.PcOf(addr) == Ready
      ensures SameRooms(old(cluster.w), cluster.w) && cluster.w.PoolAt(p) == old(cluster.w.PoolAt(p))
    {
      cluster.Do(DoSweepOne(addr, true));
    }

    method RemoveNext(p: Pool, ghost todo: seq<string>, rem: bool)
      requires cluster.Valid() && cluster.w.PcOf(addr) == Sweeping(p, todo) && todo != [] && Sorted(cluster.w.PoolAt(p))
      modifies cluster
      ensures cluster.Valid() && cluster.w.PcOf(addr) == Sweeping(p, todo[1..]) && Sorted(cluster.w.PoolAt(p))
      ensures SameRooms(old(cluster.w), cluster.w)
      ensures forall e :: e in cluster.w.PoolAt(p) <==> e in old(cluster.w.PoolAt(p)) && (e.member != todo[0] || !rem)
    {
      SweepStage(cluster.w, addr, p, todo, rem);
      cluster.Do(DoSweepOne(addr, rem));
    }

    /** One round for one pool; an error of the script or of INCR ends it before the sweep. */
    method MatchTick(mode: int, nowMs: int, net: Replies)
      requires cluster.Valid() && cluster.w.PcOf(addr) == Ready && net.Possible()
      modifies cluster
      ensures cluster.Valid() && cluster.w.PcOf(addr) == Ready
      ensures Paired(old(cluster.w), cluster.w, addr, PoolOf(mode), net)
      ensures var p := PoolOf(mode);
              var pool := PoolAfterPairing(old(cluster.w), p, net);
              if GoesOn(old(cluster.w), p, net) && net.range
              then Swept(pool, cluster.w.PoolAt(p), nowMs, net.failed)
              else cluster.w.PoolAt(p) == pool
    {
      var goOn := PairUp(PoolOf(mode), net);
      if goOn {
        Sweep(PoolOf(mode), nowMs, net);
      }
    }
  }

  lemma OneMoreRemoved(
      start: seq<Entry>, before: seq<Entry>, after: seq<Entry>, expired: seq<string>, k: nat, failed: set<string>)
    requires k < |expired| && Without(start, before, expired[..k], failed)
    requires forall e :: e in after <==> e in before && (e.member != expired[k] || expired[k] in failed)
    ensures Without(start, after, expired[..k + 1], failed)
  {
    assert expired[..k + 1] == expired[..k] + [expired[k]];
  }
}
