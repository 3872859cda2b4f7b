/**
 Room ids, routes and match results in every interleaving of matchmaking steps: ids are unique across
 instances whatever the order of initialisation and INCR, a route names the instance that created the
 room and still holds it unless it is finished, and an answered result names a room with that player.
 */
module RoutingLaws {
  import opened Options
  import opened Codec = MemberCodec
  import opened Matchmaking

  function Issued(w: World): int {
    match w.counter case None => 0 case Some(n) => n
  }

  ghost predicate IdsOk(w: World) {
    && 0 <= Issued(w)
    && (forall k :: 0 <= k < |w.created| ==> 1 <= w.created[k].id <= Issued(w))
    && (forall j, k :: 0 <= j < k < |w.created| ==> w.created[j].id != w.created[k].id)
    && (forall i :: w.PcOf(i).Numbered? ==> 1 <= w.PcOf(i).id <= Issued(w))
    && (forall i, k :: w.PcOf(i).Numbered? && 0 <= k < |w.created| ==> w.created[k].id != w.PcOf(i).id)
    && (forall i, j :: i != j && w.PcOf(i).Numbered? && w.PcOf(j).Numbered? ==> w.PcOf(i).id != w.PcOf(j).id)
  }

  ghost predicate PublishersOk(w: World) {
    forall i :: w.PcOf(i).Publishing? ==> w.PcOf(i).room < |w.created| && w.created[w.PcOf(i).room].owner == i
  }

  ghost predicate HasRoom(w: World, id: int, owner: Instance) {
    exists k :: 0 <= k < |w.created| && w.created[k].id == id && w.created[k].owner == owner
  }

  ghost predicate HasRoomWith(w: World, id: int, player: int) {
    exists k :: 0 <= k < |w.created| && w.created[k].id == id
      && (w.created[k].player1 == player || w.created[k].player2 == player)
  }

  ghost predicate RoutesOk(w: World) {
    forall id :: id in w.routes ==> HasRoom(w, id, w.routes[id])
  }

  /** A room stays in its owner's table until it is finished. */
  ghost predicate TablesOk(w: World) {
    forall k :: 0 <= k < |w.created| ==>
      (w.created[k].owner, w.created[k].id) in w.held || w.created[k].id in w.finished
  }

  ghost predicate ResultsOk(w: World) {
    && (forall p :: p in w.results ==> HasRoomWith(w, w.results[p], p))
    && (forall k :: 0 <= k < |w.answers| ==> HasRoomWith(w, w.answers[k].1, w.answers[k].0))
  }

  ghost predicate RoutingInv(w: World) {
    IdsOk(w) && PublishersOk(w) && RoutesOk(w) && TablesOk(w) && ResultsOk(w)
  }

  lemma RoomsPersist(w: World, v: World)
    requires w.created <= v.created
    ensures forall id, owner :: HasRoom(w, id, owner) ==> HasRoom(v, id, owner)
    ensures forall id, player :: HasRoomWith(w, id, player) ==> HasRoomWith(v, id, player)
  {
    forall id, owner | HasRoom(w, id, owner) ensures HasRoom(v, id, owner) {
      var k :| 0 <= k < |w.created| && w.created[k].id == id && w.created[k].owner == owner;
      assert v.created[k].id == id && v.created[k].owner == owner;
    }
    forall id, player | HasRoomWith(w, id, player) ensures HasRoomWith(v, id, player) {
      var k :| 0 <= k < |w.created| && w.created[k].id == id
        && (w.created[k].player1 == player || w.created[k].player2 == player);
      assert v.created[k].id == id;
    }
  }

  /** Neither ids, rooms nor what is published has changed, and no match loop got a number or a room. */
  ghost predicate Unrelated(w: World, v: World) {
    && v.counter == w.counter && v.created == w.created && v.held == w.held && v.finished == w.finished
    && v.results == w.results && v.routes == w.routes && v.answers == w.answers
    && forall i :: v.PcOf(i) == w.PcOf(i) || (!v.PcOf(i).Numbered? && !v.PcOf(i).Publishing?)
  }

  lemma UnrelatedKeeps(w: World, v: World)
    requires RoutingInv(w) && Unrelated(w, v)
    ensures RoutingInv(v)
  {
    RoomsPersist(w, v);
    forall i ensures v.PcOf(i).Numbered? || v.PcOf(i).Publishing? ==> v.PcOf(i) == w.PcOf(i) {
    }
  }

  lemma EvictIsUnrelated(w: World, p: Pool, member: string, exit: Exit)
    ensures Unrelated(w, Evict(w, p, member, exit))
  {
  }

  predicate TouchesRooms(act: Action) {
    act.DoInit? || act.DoIncr? || act.DoCreate? || act.DoPublish? || act.DoQuery? || act.DoDropResult?
    || act.DoDropRoute? || act.DoFinish? || act.DoCleanup?
  }

  lemma JoinIsUnrelated(w: World, mode: int, waiter: Waiter, nowMs: int)
    ensures Unrelated(w, Join(w, mode, waiter, nowMs))
  {
    EvictIsUnrelated(w, PoolOf(mode), EncodeMember(waiter), Superseded);
  }

  lemma PairIsUnrelated(w: World, i: Instance, p: Pool, answered: bool)
    ensures Unrelated(w, Pair(w, i, p, answered))
  {
    var v := Pair(w, i, p, answered);
    forall j ensures v.PcOf(j) == w.PcOf(j) || (!v.PcOf(j).Numbered? && !v.PcOf(j).Publishing?) {
    }
  }

  lemma SweepIsUnrelated(w: World, i: Instance, nowMs: int, ok: bool)
    ensures Unrelated(w, SweepRange(w, i, nowMs, ok)) && Unrelated(w, SweepOne(w, i, ok))
  {
    if w.PcOf(i).Sweeping? && w.PcOf(i).todo != [] { EvictIsUnrelated(w, w.PcOf(i).pool, w.PcOf(i).todo[0], Expired); }
  }

  lemma OtherStepsAreUnrelated(w: World, act: Action)
    requires !TouchesRooms(act)
    ensures Unrelated(w, Step(w, act))
  {
    match act
    case DoJoin(mode, waiter, nowMs) => JoinIsUnrelated(w, mode, waiter, nowMs);
    case DoLeave(p, waiter) => EvictIsUnrelated(w, p, EncodeMember(waiter), Left);
    case DoPair(i, p, answered) => PairIsUnrelated(w, i, p, answered);
    case DoSweepRange(i, nowMs, answered) => SweepIsUnrelated(w, i, nowMs, answered);
    case DoSweepOne(i, applied) => SweepIsUnrelated(w, i, 0, applied);
  }

  /** The counter only grows, so a number fetched now has never been given out. */
  lemma IncrKeepsIds(w: World, i: Instance, applied: bool, answered: bool)
    requires IdsOk(w)
    ensures IdsOk(Incr(w, i, applied, answered))
  {
    var v := Incr(w, i, applied, answered);
    forall j
      ensures v.PcOf(j) == w.PcOf(j)
              || (j == i && (v.PcOf(j) == Ready || (v.PcOf(j).Numbered? && v.PcOf(j).id == Issued(w) + 1 == Issued(v))))
    {
    }
  }

  lemma IncrKeeps(w: World, i: Instance, applied: bool, answered: bool)
    requires RoutingInv(w)
    ensures RoutingInv(Incr(w, i, applied, answered))
  {
    var v := Incr(w, i, applied, answered);
    IncrKeepsIds(w, i, applied, answered);
    RoomsPersist(w, v);
    forall j ensures v.PcOf(j).Publishing? ==> v.PcOf(j) == w.PcOf(j) {
    }
  }

  lemma CreateKeepsIds(w: World, i: Instance)
    requires IdsOk(w)
    ensures IdsOk(Create(w, i))
  {
    var v := Create(w, i);
    forall j ensures v.PcOf(j) == w.PcOf(j) || (j == i && !v.PcOf(j).Numbered?) {
    }
    if w.PcOf(i).Numbered? && w.PcOf(i).pop < |w.pops| {
      forall j, k | v.PcOf(j).Numbered? && 0 <= k < |v.created| ensures v.created[k].id != v.PcOf(j).id {
        if k < |w.created| { assert v.created[k] == w.created[k]; }
      }
      forall j, k | 0 <= j < k < |v.created| ensures v.created[j].id != v.created[k].id {
        assert v.created[j] == w.created[j];
        if k < |w.created| { assert v.created[k] == w.created[k]; }
      }
    }
  }

  lemma CreateKeeps(w: World, i: Instance)
    requires RoutingInv(w)
    ensures RoutingInv(Create(w, i))
  {
    var v := Create(w, i);
    CreateKeepsIds(w, i);
    RoomsPersist(w, v);
    forall j ensures v.PcOf(j).Publishing? ==> v.PcOf(j) == w.PcOf(j) || (j == i && v.PcOf(j).room == |w.created|) {
    }
    forall k | 0 <= k < |v.created|
      ensures (v.created[k].owner, v.created[k].id) in v.held || v.created[k].id in v.finished
    {
      if k < |w.created| { assert v.created[k] == w.created[k]; }
    }
  }

  /** A publishing step moves one match loop on. */
  lemma PublishFrame(w: World, i: Instance, applied: bool)
    ensures var v := Publish(w, i, applied);
            && v.counter == w.counter && v.created == w.created && v.held == w.held && v.finished == w.finished
            && v.answers == w.answers
            && (forall j :: j != i ==> v.PcOf(j) == w.PcOf(j))
            && (v.PcOf(i) == w.PcOf(i) || v.PcOf(i).ToSweep?
                || (w.PcOf(i).Publishing? && v.PcOf(i).Publishing? && v.PcOf(i).room == w.PcOf(i).room))
  {
  }

  /** It writes one key of its own room. */
  lemma PublishEffect(w: World, i: Instance, applied: bool)
    requires PublishersOk(w)
    ensures var v := Publish(w, i, applied);
            && (forall id :: id in v.routes ==>
               (id in w.routes && v.routes[id] == w.routes[id]) || HasRoom(w, id, v.routes[id]))
            && (forall p :: p in v.results ==>
               (p in w.results && v.results[p] == w.results[p]) || HasRoomWith(w, v.results[p], p))
  {
    if w.PcOf(i).Publishing? {
      var room := w.created[w.PcOf(i).room];
      assert HasRoom(w, room.id, i);
      assert HasRoomWith(w, room.id, room.player1) && HasRoomWith(w, room.id, room.player2);
    }
  }

  lemma PublishKeeps(w: World, i: Instance, applied: bool)
    requires RoutingInv(w)
    ensures RoutingInv(Publish(w, i, applied))
  {
    var v := Publish(w, i, applied);
    PublishFrame(w, i, applied);
    PublishEffect(w, i, applied);
    RoomsPersist(w, v);
    PublishKeepsIds(w, v);
  }

  lemma PublishKeepsIds(w: World, v: World)
    requires IdsOk(w) && v.counter == w.counter && v.created == w.created
    requires forall j :: v.PcOf(j) == w.PcOf(j) || !v.PcOf(j).Numbered?
    ensures IdsOk(v)
  {
    forall j ensures v.PcOf(j).Numbered? ==> v.PcOf(j) == w.PcOf(j) {
    }
  }

  lemma InitKeeps(w: World)
    requires RoutingInv(w)
    ensures RoutingInv(Step(w, DoInit))
  {
    var v := Step(w, DoInit);
    RoomsPersist(w, v);
    forall j ensures v.PcOf(j) == w.PcOf(j) {
    }
  }

  predicate IsUpkeep(act: Action) {
    act.DoQuery? || act.DoDropResult? || act.DoDropRoute? || act.DoFinish? || act.DoCleanup?
  }

  /** Upkeep touches neither ids nor match loops. */
  lemma UpkeepFrame(w: World, act: Action)
    requires IsUpkeep(act)
    ensures var v := Step(w, act); v.counter == w.counter && v.created == w.created && v.pcs == w.pcs
  {
  }

  lemma UpkeepKeepsTables(w: World, act: Action)
    requires TablesOk(w) && IsUpkeep(act)
    ensures TablesOk(Step(w, act))
  {
    UpkeepFrame(w, act);
    var v := Step(w, act);
    forall k | 0 <= k < |v.created|
      ensures (v.created[k].owner, v.created[k].id) in v.held || v.created[k].id in v.finished
    {
      assert (w.created[k].owner, w.created[k].id) in w.held || w.created[k].id in w.finished;
    }
  }

  lemma UpkeepKeepsResults(w: World, act: Action)
    requires RoutesOk(w) && ResultsOk(w) && IsUpkeep(act)
    ensures RoutesOk(Step(w, act)) && ResultsOk(Step(w, act))
  {
    UpkeepFrame(w, act);
    RoomsPersist(w, Step(w, act));
  }

  /** Reading and expiring keys, ending battles and clearing tables. */
  lemma UpkeepKeeps(w: World, act: Action)
    requires RoutingInv(w) && IsUpkeep(act)
    ensures RoutingInv(Step(w, act))
  {
    UpkeepFrame(w, act);
    UpkeepKeepsTables(w, act);
    UpkeepKeepsResults(w, act);
    PublishKeepsIds(w, Step(w, act));
  }

  lemma StepKeepsRouting(w: World, act: Action)
    requires RoutingInv(w)
    ensures RoutingInv(Step(w, act))
  {
    if !TouchesRooms(act) {
      OtherStepsAreUnrelated(w, act);
      UnrelatedKeeps(w, Step(w, act));
    } else {
      match act
      case DoInit => InitKeeps(w);
      case DoIncr(i, applied, answered) => IncrKeeps(w, i, applied, answered);
      case DoCreate(i) => CreateKeeps(w, i);
      case DoPublish(i, applied) => PublishKeeps(w, i, applied);
      case _ => UpkeepKeeps(w, act);
    }
  }

  lemma {:induction false} RunKeepsRouting(acts: seq<Action>)
    ensures RoutingInv(Run(acts))
  {
    if acts != [] {
      RunKeepsRouting(acts[..|acts| - 1]);
      StepKeepsRouting(Run(acts[..|acts| - 1]), acts[|acts| - 1]);
    }
  }

  /** Room ids are unique across all instances, whatever the order of initialisation and INCR. */
  lemma RoomIdsAreUnique(acts: seq<Action>, j: nat, k: nat)
    requires j < |Run(acts).created| && k < |Run(acts).created|
    ensures Run(acts).created[j].id == Run(acts).created[k].id ==> j == k
  {
    RunKeepsRouting(acts);
  }

  /* ---------- where numbering starts ---------- */

  ghost predicate Above(w: World, start: int) {
    && w.counter.Some? && start <= w.counter.value
    && (forall i :: w.PcOf(i).Numbered? ==> start < w.PcOf(i).id)
    && (forall k :: 0 <= k < |w.created| ==> start < w.created[k].id)
  }

  lemma IncrKeepsAbove(w: World, i: Instance, applied: bool, answered: bool, start: int)
    requires Above(w, start)
    ensures Above(Incr(w, i, applied, answered), start)
  {
    var v := Incr(w, i, applied, answered);
    forall j
      ensures v.PcOf(j) == w.PcOf(j)
              || (j == i && (v.PcOf(j) == Ready || (v.PcOf(j).Numbered? && start < v.PcOf(j).id)))
    {
    }
  }

  lemma CreateKeepsAbove(w: World, i: Instance, start: int)
    requires Above(w, start)
    ensures Above(Create(w, i), start)
  {
    var v := Create(w, i);
    if w.PcOf(i).Numbered? && w.PcOf(i).pop < |w.pops| {
      assert v.counter == w.counter;
      forall j ensures v.PcOf(j) == w.PcOf(j) || (j == i && !v.PcOf(j).Numbered?) {
      }
      forall k | 0 <= k < |v.created| ensures start < v.created[k].id {
        if k < |w.created| { assert v.created[k] == w.created[k]; }
      }
    }
  }

  lemma UpkeepKeepsAbove(w: World, act: Action, start: int)
    requires Above(w, start) && IsUpkeep(act)
    ensures Above(Step(w, act), start)
  {
    UpkeepFrame(w, act);
    assert forall j :: Step(w, act).PcOf(j) == w.PcOf(j);
  }

  lemma StepKeepsAbove(w: World, act: Action, start: int)
    requires Above(w, start)
    ensures Above(Step(w, act), start)
  {
    if !TouchesRooms(act) {
      OtherStepsAreUnrelated(w, act);
    } else {
      match act
      case DoInit =>
      case DoIncr(i, applied, answered) => IncrKeepsAbove(w, i, applied, answered, start);
      case DoCreate(i) => CreateKeepsAbove(w, i, start);
      case DoPublish(i, applied) => PublishFrame(w, i, applied);
      case _ => UpkeepKeepsAbove(w, act, start);
    }
  }

  /** The step moves the room counter on, whether or not the instance hears of it. */
  predicate Increments(w: World, act: Action) {
    act.DoIncr? && act.applied && w.PcOf(act.i).Popped? && w.PcOf(act.i).pop < |w.pops|
  }

  /** How many INCRs have been carried out. */
  function Taken(acts: seq<Action>): nat {
    if acts == [] then 0
    else
      var init := acts[..|acts| - 1];
      Taken(init) + if Increments(Run(init), acts[|acts| - 1]) then 1 else 0
  }

  /** Some instance initialised the counter before the first INCR was carried out. */
  predicate InitFirst(acts: seq<Action>) {
    acts != []
    && var init := acts[..|acts| - 1];
       InitFirst(init) || (acts[|acts| - 1].DoInit? && Taken(init) == 0)
  }

  lemma CounterStep(w: World, act: Action)
    ensures Step(w, act).counter ==
            if Increments(w, act) then Some(NextId(w))
            else if act.DoInit? && w.counter.None? then Some(START_SEQ) else w.counter
  {
    if !TouchesRooms(act) {
      OtherStepsAreUnrelated(w, act);
    } else {
      match act
      case DoInit =>
      case DoIncr(_, _, _) =>
      case DoCreate(_) =>
      case DoPublish(i, applied) => PublishFrame(w, i, applied);
      case _ => UpkeepFrame(w, act);
    }
  }

  /**
   The room counter after any interleaving: 1000 plus the INCRs if it was initialised in time, otherwise the
   INCRs alone.
   */
  lemma {:induction false} CounterExactly(acts: seq<Action>)
    ensures Run(acts).counter ==
            if InitFirst(acts) then Some(1000 + Taken(acts)) else if Taken(acts) == 0 then None else Some(Taken(acts))
  {
    if acts != [] {
      var init, act := acts[..|acts| - 1], acts[|acts| - 1];
      CounterExactly(init);
      CounterStep(Run(init), act);
      CounterBooks(Run(init), act, Run(init).counter, Taken(init), InitFirst(init));
    }
  }

  /** The counter after a step, from the number of INCRs before it and whether the initialisation was in time. */
  lemma CounterBooks(w: World, act: Action, counter: Option<int>, taken: nat, inTime: bool)
    requires counter == w.counter
             && counter == if inTime then Some(1000 + taken) else if taken == 0 then None else Some(taken)
    ensures var counts, inits := Increments(w, act), inTime || (act.DoInit? && taken == 0);
            (if counts then Some(NextId(w)) else if act.DoInit? && counter.None? then Some(START_SEQ) else counter)
            == if inits then Some(1000 + taken + (if counts then 1 else 0))
               else if taken == 0 && !counts then None else Some(taken + (if counts then 1 else 0))
  {
  }

  /** The number that an answered INCR hands out, exactly. */
  lemma NumberExactly(acts: seq<Action>, i: Instance)
    requires Run(acts).PcOf(i).Popped? && Run(acts).PcOf(i).pop < |Run(acts).pops|
    ensures Run(acts + [DoIncr(i, true, true)]).PcOf(i)
         == Numbered(Run(acts).PcOf(i).pop, (if InitFirst(acts) then 1000 else 0) + Taken(acts) + 1)
  {
    CounterExactly(acts);
    assert (acts + [DoIncr(i, true, true)])[..|acts|] == acts;
  }

  /** Before the first INCR nothing has been numbered. */
  lemma {:induction false} NothingNumbered(acts: seq<Action>)
    requires Taken(acts) == 0
    ensures Run(acts).created == [] && forall i :: !Run(acts).PcOf(i).Numbered?
  {
    if acts != [] {
      NothingNumbered(acts[..|acts| - 1]);
      NumberlessStep(Run(acts[..|acts| - 1]), acts[|acts| - 1]);
    }
  }

  lemma NumberlessStep(w: World, act: Action)
    requires w.created == [] && (forall i :: !w.PcOf(i).Numbered?) && !Increments(w, act)
    ensures Step(w, act).created == [] && forall i :: !Step(w, act).PcOf(i).Numbered?
  {
    if !TouchesRooms(act) {
      OtherStepsAreUnrelated(w, act);
    } else {
      match act
      case DoInit => assert forall j :: Step(w, act).PcOf(j) == w.PcOf(j);
      case DoIncr(i, applied, answered) =>
        assert forall j :: j != i ==> Step(w, act).PcOf(j) == w.PcOf(j);
      case DoCreate(_) =>
      case DoPublish(i, applied) => PublishFrame(w, i, applied);
      case _ => UpkeepIsNumberless(w, act);
    }
  }

  lemma UpkeepIsNumberless(w: World, act: Action)
    requires IsUpkeep(act) && w.created == [] && forall i :: !w.PcOf(i).Numbered?
    ensures Step(w, act).created == [] && forall i :: !Step(w, act).PcOf(i).Numbered?
  {
    UpkeepFrame(w, act);
    assert forall j :: Step(w, act).PcOf(j) == w.PcOf(j);
  }

  /**
   If some instance initialised the counter before the first INCR, no room ever gets an id below 1001,
   whatever joined or was paired before.
   */
  lemma {:induction false} IdsStartAt1001(acts: seq<Action>)
    requires InitFirst(acts)
    ensures Above(Run(acts), 1000)
  {
    var init, last := acts[..|acts| - 1], acts[|acts| - 1];
    if InitFirst(init) {
      IdsStartAt1001(init);
      StepKeepsAbove(Run(init), last, 1000);
    } else {
      NothingNumbered(init);
      CounterExactly(init);
      assert Run(acts) == Run(init).(counter := Some(START_SEQ));
      assert forall i :: Run(acts).PcOf(i) == Run(init).PcOf(i);
    }
  }

  /** Otherwise the ids run from 1, no room is beyond the number of INCRs, and no later initialisation mends it. */
  lemma LateInitIsTooLate(acts: seq<Action>, more: seq<Action>)
    requires !InitFirst(acts) && 0 < Taken(acts)
    ensures Step(Run(acts), DoInit) == Run(acts) && !InitFirst(acts + more)
    ensures forall k :: 0 <= k < |Run(acts + more).created| ==>
            1 <= Run(acts + more).created[k].id <= Taken(acts + more)
  {
    CounterExactly(acts);
    MissedForGood(acts, more);
    CounterExactly(acts + more);
    RunKeepsRouting(acts + more);
  }

  lemma {:induction false} MissedForGood(acts: seq<Action>, more: seq<Action>)
    requires !InitFirst(acts) && 0 < Taken(acts)
    ensures !InitFirst(acts + more) && 0 < Taken(acts + more)
  {
    if more == [] {
      assert acts + more == acts;
    } else {
      MissedForGood(acts, more[..|more| - 1]);
      assert (acts + more)[..|acts + more| - 1] == acts + more[..|more| - 1];
    }
  }

  /* ---------- a run that gets there ---------- */

  lemma RunOneMore(acts: seq<Action>, act: Action)
    ensures Run(acts + [act]) == Step(Run(acts), act)
            && Taken(acts + [act]) == Taken(acts) + if Increments(Run(acts), act) then 1 else 0
    ensures InitFirst(acts + [act]) <==> InitFirst(acts) || (act.DoInit? && Taken(acts) == 0)
  {
    assert (acts + [act])[..|acts|] == acts;
  }

  lemma JoinEmptyPool(w: World, mode: int, u: Waiter, now: int)
    requires w.PoolAt(PoolOf(mode)) == []
    ensures Join(w, mode, u, now) ==
            w.SetPool(PoolOf(mode), [Entry(now, EncodeMember(u), |w.tickets|)])
             .(tickets := w.tickets + [Ticket(mode, u)])
  {
    assert EntryOf([], EncodeMember(u)) == None;
  }

  lemma JoinSecond(w: World, mode: int, v: Waiter, now: int, e: Entry)
    requires w.PoolAt(PoolOf(mode)) == [e] && e.member != EncodeMember(v) && e.score < now
    ensures Join(w, mode, v, now) ==
            w.SetPool(PoolOf(mode), [e, Entry(now, EncodeMember(v), |w.tickets|)])
             .(tickets := w.tickets + [Ticket(mode, v)])
  {
    var f := Entry(now, EncodeMember(v), |w.tickets|);
    assert [e][1..] == [];
    assert EntryOf([e], f.member) == EntryOf([e][1..], f.member) == None;
    assert Insert([e], f) == [e] + Insert([e][1..], f) == [e] + [f];
  }

  lemma PairTwo(w: World, i: Instance, p: Pool, e: Entry, f: Entry)
    requires w.PoolAt(p) == [e, f] && w.PcOf(i) == Ready
    ensures var v := Pair(w, i, p, true);
            v.PcOf(i) == Popped(|w.pops|) && v.pops == w.pops + [Pop(p, e, f, [])] && v.created == w.created
  {
    assert w.PoolAt(p)[2..] == [];
  }

  /** Two members join one pool and are taken out of it. */
  lemma TwoJoins(i: Instance, mode: int, u: Waiter, v: Waiter, now1: int, now2: int) returns (acts: seq<Action>)
    requires EncodeMember(u) != EncodeMember(v) && now1 < now2
    ensures var p, w := PoolOf(mode), Run(acts);
            && w.PcOf(i) == Popped(0) && w.created == []
            && w.pops == [Pop(p, Entry(now1, EncodeMember(u), 0), Entry(now2, EncodeMember(v), 1), [])]
    ensures !InitFirst(acts) && Taken(acts) == 0
  {
    var p := PoolOf(mode);
    var one := [] + [DoJoin(mode, u, now1)];
    var two := one + [DoJoin(mode, v, now2)];
    acts := two + [DoPair(i, p, true)];
    RunOneMore([], DoJoin(mode, u, now1));
    JoinEmptyPool(EMPTY, mode, u, now1);
    RunOneMore(one, DoJoin(mode, v, now2));
    JoinSecond(Run(one), mode, v, now2, Entry(now1, EncodeMember(u), 0));
    RunOneMore(two, DoPair(i, p, true));
    PairTwo(Run(two), i, p, Entry(now1, EncodeMember(u), 0), Entry(now2, EncodeMember(v), 1));
  }

  lemma IncrKeepsHistory(w: World, i: Instance)
    ensures Incr(w, i, true, true).created == w.created && Incr(w, i, true, true).pops == w.pops
  {
  }

  lemma CreateOne(w: World, i: Instance, n: nat, id: int)
    requires w.PcOf(i) == Numbered(n, id) && n < |w.pops|
    ensures Create(w, i).created == w.created + [RoomOf(id, i, n, w.pops[n])]
  {
  }

  /** With the initialisation missed, the first room of such a run gets id 1. */
  lemma FirstIdMayBeOne(i: Instance, mode: int, u: Waiter, v: Waiter, now1: int, now2: int) returns (acts: seq<Action>)
    requires EncodeMember(u) != EncodeMember(v) && now1 < now2
    ensures !InitFirst(acts) && 0 < Taken(acts)
    ensures |Run(acts).created| == 1
    ensures var room := Run(acts).created[0];
            room.id == 1 && room.owner == i && room.player1 == u.playerId && room.player2 == v.playerId
  {
    var before := TwoJoins(i, mode, u, v, now1, now2);
    acts := NumberAndCreate(before, i);
    PlayerIdSurvives(u);
    PlayerIdSurvives(v);
  }

  lemma NumberAndCreate(before: seq<Action>, i: Instance) returns (acts: seq<Action>)
    requires Run(before).PcOf(i).Popped? && Run(before).PcOf(i).pop < |Run(before).pops|
    requires !InitFirst(before) && Taken(before) == 0
    ensures !InitFirst(acts) && Taken(acts) == 1
    ensures var n := Run(before).PcOf(i).pop;
            Run(acts).created == Run(before).created + [RoomOf(1, i, n, Run(before).pops[n])]
  {
    NumberExactly(before, i);
    RunOneMore(before, DoIncr(i, true, true));
    var numbered := before + [DoIncr(i, true, true)];
    RunOneMore(numbered, DoCreate(i));
    acts := numbered + [DoCreate(i)];
    IncrKeepsHistory(Run(before), i);
    CreateOne(Run(numbered), i, Run(before).PcOf(i).pop, 1);
  }

  /** One player that joins through two gateways can be paired with itself. */
  lemma PlayerMayMeetItself(
      i: Instance, mode: int, u: Waiter, gatewayAddr: string, now1: int, now2: int) returns (acts: seq<Action>)
    requires '|' !in u.playerName && gatewayAddr != u.gatewayAddr && now1 < now2
    ensures |Run(acts).created| == 1 && Run(acts).created[0].player1 == u.playerId == Run(acts).created[0].player2
  {
    var v := u.(gatewayAddr := gatewayAddr);
    if EncodeMember(u) == EncodeMember(v) { SameMember(u, v); }
    acts := FirstIdMayBeOne(i, mode, u, v, now1, now2);
  }

  /** A route names the one instance that created the room; it still holds it unless the room is finished. */
  lemma RoutesNameTheOwner(acts: seq<Action>, id: int)
    requires id in Run(acts).routes
    ensures var w := Run(acts);
            && HasRoom(w, id, w.routes[id])
            && (forall owner :: HasRoom(w, id, owner) ==> owner == w.routes[id])
            && ((w.routes[id], id) in w.held || id in w.finished)
  {
    RunKeepsRouting(acts);
    var w := Run(acts);
    var k :| 0 <= k < |w.created| && w.created[k].id == id && w.created[k].owner == w.routes[id];
    forall owner | HasRoom(w, id, owner) ensures owner == w.routes[id] {
      var j :| 0 <= j < |w.created| && w.created[j].id == id && w.created[j].owner == owner;
      RoomIdsAreUnique(acts, j, k);
    }
  }

  /** Rooms made and answers given are never taken back. */
  lemma StepKeepsHistory(w: World, act: Action)
    ensures w.created <= Step(w, act).created && w.answers <= Step(w, act).answers
  {
    if !TouchesRooms(act) { OtherStepsAreUnrelated(w, act); }
    match act
    case DoIncr(i, applied, answered) => IncrAndPublishKeepHistory(w, i, applied, answered);
    case DoPublish(i, applied) => IncrAndPublishKeepHistory(w, i, applied, applied);
    case DoCreate(i) => CreateKeepsHistory(w, i);
    case _ =>
  }

  lemma IncrAndPublishKeepHistory(w: World, i: Instance, applied: bool, answered: bool)
    ensures Incr(w, i, applied, answered).created == w.created && Incr(w, i, applied, answered).answers == w.answers
    ensures Publish(w, i, applied).created == w.created && Publish(w, i, applied).answers == w.answers
  {
  }

  lemma CreateKeepsHistory(w: World, i: Instance)
    ensures w.created <= Create(w, i).created && Create(w, i).answers == w.answers
  {
  }

  /** Every result that was answered names a room that was created with the asking player in it. */
  lemma AnswersNameRooms(acts: seq<Action>, k: nat)
    requires k < |Run(acts).answers|
    ensures var w := Run(acts); HasRoomWith(w, w.answers[k].1, w.answers[k].0)
  {
    RunKeepsRouting(acts);
  }
}
