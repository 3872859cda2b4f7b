/**
 What every interleaving of matchmaking steps keeps: each ticket is in exactly one place, pairs are the
 two longest waiting of their pool, room ids are unique, and routes and results point to rooms that
 exist where they say.
 */
module MatchLaws {
  import opened Options
  import opened Codec = MemberCodec
  import opened Matchmaking

  /* ---------- where a ticket is ---------- */

  datatype Place = Waiting(pool: Pool) | InFlight(i: Instance) | InRoom(room: nat) | Gone(exit: Exit)

  /** The instance holds the outcome of pop n and has not made a room of it. */
  ghost predicate Carrying(w: World, i: Instance, n: nat) {
    w.PcOf(i) == Popped(n) || (w.PcOf(i).Numbered? && w.PcOf(i).pop == n)
  }

  predicate Took(q: Pop, t: nat) {
    q.first.ticket == t || q.second.ticket == t
  }

  /** Ticket t is at place p, read off the pools, the match loops, the rooms and the exits. */
  ghost predicate At(w: World, t: nat, p: Place) {
    match p
    case Waiting(pool) => exists e :: e in w.PoolAt(pool) && e.ticket == t
    case InFlight(i) => exists n :: 0 <= n < |w.pops| && Carrying(w, i, n) && Took(w.pops[n], t)
    case InRoom(k) => k < |w.created| && w.created[k].pop < |w.pops| && Took(w.pops[w.created[k].pop], t)
    case Gone(exit) => t in w.gone && w.gone[t] == exit
  }

  /* ---------- the invariant of tickets ---------- */

  ghost predicate EntryOk(w: World, p: Pool, e: Entry) {
    e.ticket < |w.tickets| && PoolOf(w.tickets[e.ticket].mode) == p
      && e.member == EncodeMember(w.tickets[e.ticket].waiter)
  }

  ghost predicate PoolOk(w: World, p: Pool, place: seq<Place>)
    requires |place| == |w.tickets|
  {
    && Sorted(w.PoolAt(p)) && OneEntryPerMember(w.PoolAt(p))
    && forall e :: e in w.PoolAt(p) ==> EntryOk(w, p, e) && place[e.ticket] == Waiting(p)
  }

  /** The script took the two least members of its pool. */
  ghost predicate LeastTwo(q: Pop) {
    Less(q.first, q.second) && forall e :: e in q.rest ==> Less(q.second, e)
  }

  ghost predicate PopOk(w: World, q: Pop) {
    && EntryOk(w, q.pool, q.first) && EntryOk(w, q.pool, q.second)
    && q.first.ticket != q.second.ticket && q.first.member != q.second.member && LeastTwo(q)
  }

  /** Both tickets of a pop are at the same place. */
  ghost predicate BothAt(w: World, n: nat, place: seq<Place>, p: Place)
    requires |place| == |w.tickets|
  {
    && n < |w.pops| && PopOk(w, w.pops[n])
    && place[w.pops[n].first.ticket] == p && place[w.pops[n].second.ticket] == p
  }

  ghost predicate CarriersOk(w: World, place: seq<Place>)
    requires |place| == |w.tickets|
  {
    forall i, n: nat {:trigger BothAt(w, n, place, InFlight(i))} :: Carrying(w, i, n) ==>
      BothAt(w, n, place, InFlight(i))
  }

  ghost predicate RoomsOk(w: World, place: seq<Place>)
    requires |place| == |w.tickets|
  {
    forall k {:trigger BothAt(w, w.created[k].pop, place, InRoom(k))} ::
      0 <= k < |w.created| ==> BothAt(w, w.created[k].pop, place, InRoom(k))
  }

  ghost predicate GoneOk(w: World, place: seq<Place>) {
    forall t :: t in w.gone ==> t < |place| && place[t] == Gone(w.gone[t])
  }

  ghost predicate Placed(w: World, place: seq<Place>) {
    forall t {:trigger At(w, t, place[t])} :: 0 <= t < |place| ==> At(w, t, place[t])
  }

  ghost predicate PopsOk(w: World) {
    forall n {:trigger PopOk(w, w.pops[n])} :: 0 <= n < |w.pops| ==> PopOk(w, w.pops[n])
  }

  ghost predicate TicketInv(w: World, place: seq<Place>) {
    && |place| == |w.tickets|
    && PoolOk(w, Fs, place) && PoolOk(w, Ss, place) && PopsOk(w)
    && CarriersOk(w, place) && RoomsOk(w, place) && GoneOk(w, place) && Placed(w, place)
  }

  /** v's history continues w's. */
  ghost predicate Extends(w: World, v: World) {
    w.tickets <= v.tickets && w.pops <= v.pops && w.created <= v.created
  }

  lemma EntryStays(w: World, v: World, p: Pool, e: Entry)
    requires EntryOk(w, p, e) && w.tickets <= v.tickets
    ensures EntryOk(v, p, e)
  {
  }

  lemma BothAtStays(w: World, v: World, n: nat, place: seq<Place>, place': seq<Place>, p: Place)
    requires |place| == |w.tickets| && |place'| == |v.tickets| && Extends(w, v) && BothAt(w, n, place, p)
    requires place'[w.pops[n].first.ticket] == p && place'[w.pops[n].second.ticket] == p
    ensures BothAt(v, n, place', p)
  {
    var q := w.pops[n];
    assert v.pops[n] == q;
    EntryStays(w, v, q.pool, q.first);
    EntryStays(w, v, q.pool, q.second);
  }

  lemma PopsStay(w: World, v: World)
    requires PopsOk(w) && w.tickets <= v.tickets && v.pops == w.pops
    ensures PopsOk(v)
  {
    forall n | 0 <= n < |v.pops| ensures PopOk(v, v.pops[n]) {
      assert PopOk(w, w.pops[n]);
      EntryStays(w, v, w.pops[n].pool, w.pops[n].first);
      EntryStays(w, v, w.pops[n].pool, w.pops[n].second);
    }
  }

  /** Nothing that tickets depend on has changed. */
  ghost predicate SameForTickets(w: World, v: World) {
    && v.fs == w.fs && v.ss == w.ss && v.tickets == w.tickets && v.pops == w.pops
    && v.created == w.created && v.gone == w.gone
    && forall i, n: nat :: Carrying(v, i, n) <==> Carrying(w, i, n)
  }

  lemma FrameTickets(w: World, v: World, place: seq<Place>)
    requires TicketInv(w, place) && SameForTickets(w, v)
    ensures TicketInv(v, place)
  {
    PopsStay(w, v);
    forall i, n: nat | Carrying(v, i, n) ensures BothAt(v, n, place, InFlight(i)) {
      BothAtStays(w, v, n, place, place, InFlight(i));
    }
    forall k | 0 <= k < |v.created| ensures BothAt(v, v.created[k].pop, place, InRoom(k)) {
      BothAtStays(w, v, w.created[k].pop, place, place, InRoom(k));
    }
    forall t | 0 <= t < |place| ensures At(v, t, place[t]) {
      assert At(w, t, place[t]);
    }
  }

  /* ---------- a member leaves a pool ---------- */

  function OtherPool(p: Pool): Pool {
    if p.Fs? then Ss else Fs
  }

  /** Entries of one pool with the same ticket are the same. */
  lemma TicketNamesEntry(w: World, p: Pool, place: seq<Place>, e: Entry, f: Entry)
    requires |place| == |w.tickets| && PoolOk(w, p, place) && e in w.PoolAt(p) && f in w.PoolAt(p)
             && e.ticket == f.ticket
    ensures e == f
  {
    assert EntryOk(w, p, e) && EntryOk(w, p, f);
  }

  lemma EvictPools(w: World, p: Pool, e: Entry, exit: Exit, place: seq<Place>)
    requires TicketInv(w, place) && EntryOf(w.PoolAt(p), e.member) == Some(e)
    ensures e in w.PoolAt(p) && e.ticket < |place|
    ensures var v, place' := Evict(w, p, e.member, exit), place[e.ticket := Gone(exit)];
            PoolOk(v, p, place') && PoolOk(v, OtherPool(p), place')
  {
    EntryOfLaws(w.PoolAt(p), e.member);
    assert EntryOk(w, p, e);
    RemoveLaws(w.PoolAt(p), e.member);
    var v := Evict(w, p, e.member, exit);
    forall f | f in v.PoolAt(p) ensures EntryOk(v, p, f) && f.ticket != e.ticket {
      assert EntryOk(w, p, f);
      if f.ticket == e.ticket { TicketNamesEntry(w, p, place, e, f); }
    }
    var o := OtherPool(p);
    assert v.PoolAt(o) == w.PoolAt(o);
    forall f | f in v.PoolAt(o) ensures EntryOk(v, o, f) && f.ticket != e.ticket {
      assert EntryOk(w, o, f);
    }
  }

  /** Tickets that are in flight or in a room stay where they are when only pools change. */
  lemma CarriedStay(w: World, v: World, place: seq<Place>, place': seq<Place>)
    requires TicketInv(w, place) && |place'| == |v.tickets| && Extends(w, v)
    requires v.pcs == w.pcs && v.created == w.created
    requires forall t :: 0 <= t < |place| && (place[t].InFlight? || place[t].InRoom?) ==> place'[t] == place[t]
    ensures CarriersOk(v, place') && RoomsOk(v, place')
  {
    forall i, n: nat | Carrying(v, i, n) ensures BothAt(v, n, place', InFlight(i)) {
      assert Carrying(w, i, n);
      assert BothAt(w, n, place, InFlight(i));
      BothAtStays(w, v, n, place, place', InFlight(i));
    }
    forall k | 0 <= k < |v.created| ensures BothAt(v, v.created[k].pop, place', InRoom(k)) {
      assert BothAt(w, w.created[k].pop, place, InRoom(k));
      BothAtStays(w, v, w.created[k].pop, place, place', InRoom(k));
    }
  }

  lemma AtStays(w: World, v: World, t: nat, p: Place)
    requires At(w, t, p) && w.pops <= v.pops && w.created <= v.created
    requires p.Waiting? ==> forall e :: e in w.PoolAt(p.pool) && e.ticket == t ==> e in v.PoolAt(p.pool)
    requires p.Gone? ==> t in v.gone && v.gone[t] == p.exit
    requires p.InFlight? ==> w.PcOf(p.i) == v.PcOf(p.i)
    ensures At(v, t, p)
  {
    if p.InFlight? {
      var n :| 0 <= n < |w.pops| && Carrying(w, p.i, n) && Took(w.pops[n], t);
      assert Carrying(v, p.i, n) && Took(v.pops[n], t);
    }
  }

  /** Pools lose no entries but those of the tickets in moved. */
  ghost predicate PoolsKeep(w: World, v: World, moved: set<nat>) {
    && (forall e :: e in w.fs && e.ticket !in moved ==> e in v.fs)
    && (forall e :: e in w.ss && e.ticket !in moved ==> e in v.ss)
  }

  ghost predicate ExitsKeep(w: World, v: World, moved: set<nat>) {
    forall t :: t in w.gone && t !in moved ==> t in v.gone && v.gone[t] == w.gone[t]
  }

  /** Match loops go on carrying what they carry, except for the tickets in moved. */
  ghost predicate LoopsKeep(w: World, v: World, place: seq<Place>, moved: set<nat>) {
    forall t :: 0 <= t < |place| && t !in moved && place[t].InFlight? ==> v.PcOf(place[t].i) == w.PcOf(place[t].i)
  }

  /** After a step every ticket is where place' says, if the tickets in moved and the new ones are. */
  lemma PlacedAfter(w: World, v: World, place: seq<Place>, place': seq<Place>, moved: set<nat>)
    requires Placed(w, place) && |place| <= |place'| && w.pops <= v.pops && w.created <= v.created
    requires PoolsKeep(w, v, moved) && ExitsKeep(w, v, moved) && LoopsKeep(w, v, place, moved)
    requires forall t :: 0 <= t < |place| && t !in moved ==> place'[t] == place[t]
    requires forall t :: t in moved || |place| <= t < |place'| ==> t < |place'| && At(v, t, place'[t])
    ensures Placed(v, place')
  {
    forall t | 0 <= t < |place'| ensures At(v, t, place'[t]) {
      if t < |place| && t !in moved {
        assert At(w, t, place[t]);
        AtStays(w, v, t, place[t]);
      }
    }
  }

  lemma EvictPlaced(w: World, p: Pool, e: Entry, exit: Exit, place: seq<Place>)
    requires Placed(w, place) && Sorted(w.PoolAt(p)) && OneEntryPerMember(w.PoolAt(p))
    requires EntryOf(w.PoolAt(p), e.member) == Some(e) && e in w.PoolAt(p) && e.ticket < |place|
    ensures Placed(Evict(w, p, e.member, exit), place[e.ticket := Gone(exit)])
  {
    var v, place' := Evict(w, p, e.member, exit), place[e.ticket := Gone(exit)];
    RemoveLaws(w.PoolAt(p), e.member);
    assert v.PoolAt(OtherPool(p)) == w.PoolAt(OtherPool(p));
    assert forall f :: f in w.PoolAt(p) && f.ticket != e.ticket ==> f in v.PoolAt(p);
    PlacedAfter(w, v, place, place', {e.ticket});
  }

  lemma EvictKeeps(w: World, p: Pool, member: string, exit: Exit, place: seq<Place>) returns (place': seq<Place>)
    requires TicketInv(w, place)
    ensures TicketInv(Evict(w, p, member, exit), place')
    ensures forall e :: e in Evict(w, p, member, exit).PoolAt(p) ==> e.member != member
  {
    EntryOfLaws(w.PoolAt(p), member);
    place' := place;
    if EntryOf(w.PoolAt(p), member).Some? {
      var e := EntryOf(w.PoolAt(p), member).value;
      var v := Evict(w, p, member, exit);
      RemoveLaws(w.PoolAt(p), member);
      EvictPools(w, p, e, exit, place);
      EvictPlaced(w, p, e, exit, place);
      place' := place[e.ticket := Gone(exit)];
      PopsStay(w, v);
      assert place[e.ticket] == Waiting(p);
      EvictGone(w, p, e, exit, place);
      CarriedStay(w, v, place, place');
    }
  }

  lemma EvictGone(w: World, p: Pool, e: Entry, exit: Exit, place: seq<Place>)
    requires GoneOk(w, place) && EntryOf(w.PoolAt(p), e.member) == Some(e) && e.ticket < |place|
             && place[e.ticket] == Waiting(p)
    ensures GoneOk(Evict(w, p, e.member, exit), place[e.ticket := Gone(exit)])
  {
    var v, place' := Evict(w, p, e.member, exit), place[e.ticket := Gone(exit)];
    assert v.gone == w.gone[e.ticket := exit];
    forall t | t in v.gone ensures t < |place'| && place'[t] == Gone(v.gone[t]) {
    }
  }

  /* ---------- a join ---------- */

  lemma InsertPool(w: World, p: Pool, mode: int, waiter: Waiter, nowMs: int, place: seq<Place>)
    requires TicketInv(w, place) && p == PoolOf(mode)
             && forall e :: e in w.PoolAt(p) ==> e.member != EncodeMember(waiter)
    ensures var e := Entry(nowMs, EncodeMember(waiter), |w.tickets|);
            var v := w.SetPool(p, Insert(w.PoolAt(p), e)).(tickets := w.tickets + [Ticket(mode, waiter)]);
            PoolOk(v, p, place + [Waiting(p)]) && PoolOk(v, OtherPool(p), place + [Waiting(p)])
  {
    var e := Entry(nowMs, EncodeMember(waiter), |w.tickets|);
    var v := w.SetPool(p, Insert(w.PoolAt(p), e)).(tickets := w.tickets + [Ticket(mode, waiter)]);
    InsertLaws(w.PoolAt(p), e);
    forall f | f in w.PoolAt(p) ensures EntryOk(v, p, f) && (place + [Waiting(p)])[f.ticket] == Waiting(p) {
      assert EntryOk(w, p, f);
    }
    assert EntryOk(v, p, e);
    var o := OtherPool(p);
    assert v.PoolAt(o) == w.PoolAt(o);
    forall f | f in v.PoolAt(o) ensures EntryOk(v, o, f) && (place + [Waiting(p)])[f.ticket] == Waiting(o) {
      assert EntryOk(w, o, f);
    }
  }

  lemma InsertPlaced(w: World, p: Pool, e: Entry, ticket: Ticket, place: seq<Place>)
    requires Placed(w, place) && e.ticket == |place| && Sorted(w.PoolAt(p))
             && forall f :: f in w.PoolAt(p) ==> f.member != e.member
    ensures Placed(w.SetPool(p, Insert(w.PoolAt(p), e)).(tickets := w.tickets + [ticket]), place + [Waiting(p)])
  {
    var v := w.SetPool(p, Insert(w.PoolAt(p), e)).(tickets := w.tickets + [ticket]);
    InsertLaws(w.PoolAt(p), e);
    assert v.PoolAt(OtherPool(p)) == w.PoolAt(OtherPool(p));
    assert e in v.PoolAt(p) && e.ticket == |place|;
    PlacedAfter(w, v, place, place + [Waiting(p)], {});
  }

  lemma InsertKeeps(w: World, p: Pool, mode: int, waiter: Waiter, nowMs: int, place: seq<Place>)
    requires TicketInv(w, place) && p == PoolOf(mode)
             && forall e :: e in w.PoolAt(p) ==> e.member != EncodeMember(waiter)
    ensures var e := Entry(nowMs, EncodeMember(waiter), |w.tickets|);
            var v := w.SetPool(p, Insert(w.PoolAt(p), e)).(tickets := w.tickets + [Ticket(mode, waiter)]);
            TicketInv(v, place + [Waiting(p)])
  {
    var e := Entry(nowMs, EncodeMember(waiter), |w.tickets|);
    var v := w.SetPool(p, Insert(w.PoolAt(p), e)).(tickets := w.tickets + [Ticket(mode, waiter)]);
    InsertPool(w, p, mode, waiter, nowMs, place);
    PopsStay(w, v);
    CarriedStay(w, v, place, place + [Waiting(p)]);
    InsertPlaced(w, p, e, Ticket(mode, waiter), place);
  }

  lemma JoinKeeps(w: World, mode: int, waiter: Waiter, nowMs: int, place: seq<Place>) returns (place': seq<Place>)
    requires TicketInv(w, place)
    ensures TicketInv(Join(w, mode, waiter, nowMs), place')
  {
    var p := PoolOf(mode);
    place' := EvictKeeps(w, p, EncodeMember(waiter), Superseded, place);
    InsertKeeps(Evict(w, p, EncodeMember(waiter), Superseded), p, mode, waiter, nowMs, place');
    place' := place' + [Waiting(p)];
  }

  /* ---------- a pop, and what follows from it ---------- */

  /** place with both tickets of a pop moved to x. */
  function Moved(place: seq<Place>, q: Pop, x: Place): seq<Place>
    requires q.first.ticket < |place| && q.second.ticket < |place|
  {
    place[q.first.ticket := x][q.second.ticket := x]
  }

  lemma PopIsOk(w: World, p: Pool, place: seq<Place>)
    requires TicketInv(w, place) && 2 <= |w.PoolAt(p)|
    ensures var pool := w.PoolAt(p);
            var q := Pop(p, pool[0], pool[1], pool[2..]);
            && PopOk(w, q) && place[q.first.ticket] == Waiting(p) && place[q.second.ticket] == Waiting(p)
  {
    var pool := w.PoolAt(p);
    assert pool[0] in pool && pool[1] in pool && Less(pool[0], pool[1]);
    SortedApart(w, p, place, 0, 1);
    forall e | e in pool[2..] ensures Less(pool[1], e) {
      var k :| 0 <= k < |pool[2..]| && pool[2..][k] == e;
      assert pool[k + 2] == e;
    }
  }

  lemma PopPools(w: World, v: World, p: Pool, place: seq<Place>, x: Place)
    requires TicketInv(w, place) && 2 <= |w.PoolAt(p)| && !x.Waiting?
    requires v.PoolAt(p) == w.PoolAt(p)[2..] && v.PoolAt(OtherPool(p)) == w.PoolAt(OtherPool(p))
             && v.tickets == w.tickets
    ensures var pool := w.PoolAt(p);
            && pool[0].ticket < |place| && pool[1].ticket < |place|
            && var place' := Moved(place, Pop(p, pool[0], pool[1], pool[2..]), x);
               PoolOk(v, p, place') && PoolOk(v, OtherPool(p), place')
  {
    PopIsOk(w, p, place);
    var pool := w.PoolAt(p);
    var place' := Moved(place, Pop(p, pool[0], pool[1], pool[2..]), x);
    forall f | f in pool[2..] ensures f in pool && EntryOk(v, p, f) && place'[f.ticket] == Waiting(p) {
      RestIsApart(w, p, place, f);
    }
    var o := OtherPool(p);
    forall f | f in v.PoolAt(o) ensures EntryOk(v, o, f) && place'[f.ticket] == Waiting(o) {
      assert EntryOk(w, o, f);
    }
  }

  lemma RestIsApart(w: World, p: Pool, place: seq<Place>, f: Entry)
    requires |place| == |w.tickets| && PoolOk(w, p, place) && 2 <= |w.PoolAt(p)| && f in w.PoolAt(p)[2..]
    ensures f in w.PoolAt(p) && EntryOk(w, p, f) && f.ticket < |place| && place[f.ticket] == Waiting(p)
    ensures f.ticket != w.PoolAt(p)[0].ticket && f.ticket != w.PoolAt(p)[1].ticket
  {
    var k := IndexInRest(w.PoolAt(p), f);
    SortedApart(w, p, place, 0, k);
    SortedApart(w, p, place, 1, k);
  }

  lemma IndexInRest(pool: seq<Entry>, f: Entry) returns (k: nat)
    requires 2 <= |pool| && f in pool[2..]
    ensures 2 <= k < |pool| && pool[k] == f
  {
    k :| 0 <= k < |pool[2..]| && pool[2..][k] == f;
    k := k + 2;
  }

  lemma SortedApart(w: World, p: Pool, place: seq<Place>, i: nat, j: nat)
    requires |place| == |w.tickets| && PoolOk(w, p, place) && i < j < |w.PoolAt(p)|
    ensures w.PoolAt(p)[i].ticket != w.PoolAt(p)[j].ticket
  {
    var e, f := w.PoolAt(p)[i], w.PoolAt(p)[j];
    assert e in w.PoolAt(p) && f in w.PoolAt(p) && Less(e, f);
    LexIrreflexive(e.member);
    assert e != f;
    assert EntryOk(w, p, e) && EntryOk(w, p, f);
  }

  /** Rooms keep their tickets where those of no room move. */
  lemma RoomsStay(w: World, v: World, place: seq<Place>, place': seq<Place>)
    requires |place| == |w.tickets| && |place'| == |v.tickets| && RoomsOk(w, place) && Extends(w, v)
             && v.created == w.created
    requires forall t :: 0 <= t < |place| && place[t].InRoom? ==> place'[t] == place[t]
    ensures RoomsOk(v, place')
  {
    forall k | 0 <= k < |v.created| ensures BothAt(v, v.created[k].pop, place', InRoom(k)) {
      assert BothAt(w, w.created[k].pop, place, InRoom(k));
      BothAtStays(w, v, w.created[k].pop, place, place', InRoom(k));
    }
  }

  lemma PopsGrow(w: World, v: World, q: Pop)
    requires PopsOk(w) && PopOk(w, q) && v.tickets == w.tickets && v.pops == w.pops + [q]
    ensures PopsOk(v)
  {
    forall n | 0 <= n < |v.pops| ensures PopOk(v, v.pops[n]) {
      if n < |w.pops| { assert PopOk(w, w.pops[n]); }
    }
  }

  lemma PairCarried(w: World, v: World, q: Pop, place: seq<Place>, x: Place)
    requires |place| == |w.tickets| && CarriersOk(w, place) && PopOk(w, q)
    requires place[q.first.ticket].Waiting? && place[q.second.ticket].Waiting?
    requires v.tickets == w.tickets && v.pops == w.pops + [q] && v.created == w.created
    requires forall j, n: nat :: Carrying(v, j, n) ==> Carrying(w, j, n) || (n == |w.pops| && x == InFlight(j))
    ensures CarriersOk(v, Moved(place, q, x))
  {
    var place' := Moved(place, q, x);
    assert PopOk(v, q);
    forall j, n: nat | Carrying(v, j, n) ensures BothAt(v, n, place', InFlight(j)) {
      if Carrying(w, j, n) {
        assert BothAt(w, n, place, InFlight(j));
        BothAtStays(w, v, n, place, place', InFlight(j));
      }
    }
  }

  lemma PairGone(w: World, v: World, q: Pop, place: seq<Place>, x: Place)
    requires GoneOk(w, place) && q.first.ticket < |place| && q.second.ticket < |place|
    requires place[q.first.ticket].Waiting? && place[q.second.ticket].Waiting?
    requires if x.Gone? then v.gone == w.gone[q.first.ticket := x.exit][q.second.ticket := x.exit] else v.gone == w.gone
    ensures GoneOk(v, Moved(place, q, x))
  {
  }

  function FrontPair(w: World, p: Pool): Pop
    requires 2 <= |w.PoolAt(p)|
  {
    Pop(p, w.PoolAt(p)[0], w.PoolAt(p)[1], w.PoolAt(p)[2..])
  }

  /** What the script does for instance i, both tickets going to x. */
  ghost predicate Pops(w: World, v: World, i: Instance, p: Pool, x: Place) {
    && 2 <= |w.PoolAt(p)| && w.PcOf(i) == Ready
    && v.PoolAt(p) == w.PoolAt(p)[2..] && v.PoolAt(OtherPool(p)) == w.PoolAt(OtherPool(p))
    && v.tickets == w.tickets && v.pops == w.pops + [FrontPair(w, p)] && v.created == w.created
    && (forall j :: j != i ==> v.PcOf(j) == w.PcOf(j))
    && var q := FrontPair(w, p);
       match x
       case Gone(exit) => v.PcOf(i) == Ready && v.gone == w.gone[q.first.ticket := exit][q.second.ticket := exit]
       case InFlight(j) => j == i && v.PcOf(i) == Popped(|w.pops|) && v.gone == w.gone
       case _ => false
  }

  lemma PairPops(w: World, i: Instance, p: Pool, answered: bool)
    requires w.PcOf(i) == Ready && 2 <= |w.PoolAt(p)|
    ensures Pops(w, Pair(w, i, p, answered), i, p, if answered then InFlight(i) else Gone(ReplyLost))
  {
  }

  lemma RestStays(pool: seq<Entry>, f: Entry)
    requires 2 <= |pool| && f in pool && f != pool[0] && f != pool[1]
    ensures f in pool[2..]
  {
    var k :| 0 <= k < |pool| && pool[k] == f;
    assert pool[2..][k - 2] == f;
  }

  lemma PoppedPools(w: World, v: World, i: Instance, p: Pool, x: Place)
    requires Pops(w, v, i, p, x)
    ensures PoolsKeep(w, v, {FrontPair(w, p).first.ticket, FrontPair(w, p).second.ticket})
  {
    var pool, q := w.PoolAt(p), FrontPair(w, p);
    forall f | f in pool && f.ticket !in {q.first.ticket, q.second.ticket} ensures f in v.PoolAt(p) {
      RestStays(pool, f);
    }
    assert forall f :: f in w.PoolAt(OtherPool(p)) ==> f in v.PoolAt(OtherPool(p));
  }

  lemma PoppedTicketAt(w: World, v: World, i: Instance, p: Pool, x: Place, t: nat)
    requires Pops(w, v, i, p, x) && Took(FrontPair(w, p), t)
    ensures At(v, t, x)
  {
    assert v.pops[|w.pops|] == FrontPair(w, p);
    assert x.InFlight? ==> Carrying(v, i, |w.pops|);
  }

  lemma PoppedPlaced(w: World, v: World, i: Instance, p: Pool, x: Place, place: seq<Place>)
    requires Placed(w, place) && Pops(w, v, i, p, x)
    requires FrontPair(w, p).first.ticket < |place| && FrontPair(w, p).second.ticket < |place|
    ensures Placed(v, Moved(place, FrontPair(w, p), x))
  {
    var q := FrontPair(w, p);
    PoppedPools(w, v, i, p, x);
    PoppedTicketAt(w, v, i, p, x, q.first.ticket);
    PoppedTicketAt(w, v, i, p, x, q.second.ticket);
    ReadyCarriesNothing(w, i, place);
    PlacedAfter(w, v, place, Moved(place, q, x), {q.first.ticket, q.second.ticket});
  }

  lemma ReadyCarriesNothing(w: World, i: Instance, place: seq<Place>)
    requires Placed(w, place) && w.PcOf(i) == Ready
    ensures forall t :: 0 <= t < |place| ==> place[t] != InFlight(i)
  {
    forall t | 0 <= t < |place| ensures place[t] != InFlight(i) {
      assert At(w, t, place[t]);
    }
  }

  lemma PoppedCarriers(w: World, v: World, i: Instance, p: Pool, x: Place)
    requires Pops(w, v, i, p, x)
    ensures forall j, n: nat :: Carrying(v, j, n) ==> Carrying(w, j, n) || (n == |w.pops| && x == InFlight(j))
  {
  }

  lemma PopKeeps(w: World, v: World, i: Instance, p: Pool, x: Place, place: seq<Place>)
    requires TicketInv(w, place) && Pops(w, v, i, p, x)
    ensures FrontPair(w, p).first.ticket < |place| && FrontPair(w, p).second.ticket < |place|
    ensures TicketInv(v, Moved(place, FrontPair(w, p), x))
  {
    var q := FrontPair(w, p);
    PopIsOk(w, p, place);
    PopPools(w, v, p, place, x);
    PopsGrow(w, v, q);
    PoppedCarriers(w, v, i, p, x);
    PairCarried(w, v, q, place, x);
    RoomsStay(w, v, place, Moved(place, q, x));
    PairGone(w, v, q, place, x);
    PoppedPlaced(w, v, i, p, x, place);
  }

  lemma PairKeeps(w: World, i: Instance, p: Pool, answered: bool, place: seq<Place>) returns (place': seq<Place>)
    requires TicketInv(w, place)
    ensures TicketInv(Pair(w, i, p, answered), place')
  {
    place' := place;
    if w.PcOf(i) == Ready && 2 <= |w.PoolAt(p)| {
      var x := if answered then InFlight(i) else Gone(ReplyLost);
      PairPops(w, i, p, answered);
      PopKeeps(w, Pair(w, i, p, answered), i, p, x, place);
      place' := Moved(place, FrontPair(w, p), x);
    } else {
      ShortPairIsQuiet(w, i, p, answered);
      QuietStepsKeep(w, Pair(w, i, p, answered), place);
    }
  }

  lemma ShortPairIsQuiet(w: World, i: Instance, p: Pool, answered: bool)
    requires w.PcOf(i) != Ready || |w.PoolAt(p)| < 2
    ensures Quiet(w, Pair(w, i, p, answered))
  {
  }

  /** What instance i does when it is done with its pop n: both tickets go to x. */
  ghost predicate Settles(w: World, v: World, i: Instance, n: nat, x: Place) {
    && n < |w.pops| && Carrying(w, i, n)
    && v.fs == w.fs && v.ss == w.ss && v.tickets == w.tickets && v.pops == w.pops
    && (forall j :: j != i ==> v.PcOf(j) == w.PcOf(j)) && !v.PcOf(i).Popped? && !v.PcOf(i).Numbered?
    && var q := w.pops[n];
       match x
       case Gone(exit) => v.created == w.created && v.gone == w.gone[q.first.ticket := exit][q.second.ticket := exit]
       case InRoom(k) => v.gone == w.gone && k == |w.created| && |v.created| == k + 1 && w.created <= v.created
         && v.created[k].pop == n
       case _ => false
  }

  lemma SettledPools(w: World, v: World, place: seq<Place>, q: Pop, x: Place)
    requires |place| == |w.tickets| && PoolOk(w, Fs, place) && PoolOk(w, Ss, place)
    requires v.fs == w.fs && v.ss == w.ss && v.tickets == w.tickets
    requires q.first.ticket < |place| && q.second.ticket < |place|
    requires place[q.first.ticket].InFlight? && place[q.second.ticket].InFlight?
    ensures PoolOk(v, Fs, Moved(place, q, x)) && PoolOk(v, Ss, Moved(place, q, x))
  {
    assert v.PoolAt(Fs) == w.PoolAt(Fs) && v.PoolAt(Ss) == w.PoolAt(Ss);
    forall f | f in w.PoolAt(Fs) ensures EntryOk(v, Fs, f) && Moved(place, q, x)[f.ticket] == Waiting(Fs) {
      assert EntryOk(w, Fs, f);
    }
    forall f | f in w.PoolAt(Ss) ensures EntryOk(v, Ss, f) && Moved(place, q, x)[f.ticket] == Waiting(Ss) {
      assert EntryOk(w, Ss, f);
    }
  }

  lemma SettledPlaced(w: World, v: World, i: Instance, n: nat, place: seq<Place>, x: Place)
    requires Placed(w, place) && Settles(w, v, i, n, x) && w.pops[n].first.ticket < |place|
             && w.pops[n].second.ticket < |place|
    ensures Placed(v, Moved(place, w.pops[n], x))
  {
    var q := w.pops[n];
    var place' := Moved(place, q, x);
    var moved := {q.first.ticket, q.second.ticket};
    forall t | 0 <= t < |place| && t !in moved ensures place[t] != InFlight(i) {
      assert At(w, t, place[t]);
    }
    PlacedAfter(w, v, place, place', moved);
  }

  lemma SettledCarried(w: World, v: World, i: Instance, n: nat, place: seq<Place>, x: Place)
    requires |place| == |w.tickets| && CarriersOk(w, place) && Settles(w, v, i, n, x)
             && BothAt(w, n, place, InFlight(i))
    ensures CarriersOk(v, Moved(place, w.pops[n], x))
  {
    var place' := Moved(place, w.pops[n], x);
    forall j, m: nat | Carrying(v, j, m) ensures BothAt(v, m, place', InFlight(j)) {
      assert j != i && Carrying(w, j, m);
      assert BothAt(w, m, place, InFlight(j));
      BothAtStays(w, v, m, place, place', InFlight(j));
    }
  }

  lemma SettledRooms(w: World, v: World, i: Instance, n: nat, place: seq<Place>, x: Place)
    requires |place| == |w.tickets| && RoomsOk(w, place) && PopsOk(v) && Settles(w, v, i, n, x)
             && BothAt(w, n, place, InFlight(i))
    ensures RoomsOk(v, Moved(place, w.pops[n], x))
  {
    var place' := Moved(place, w.pops[n], x);
    forall k | 0 <= k < |v.created| ensures BothAt(v, v.created[k].pop, place', InRoom(k)) {
      if k < |w.created| {
        assert v.created[k] == w.created[k];
        assert BothAt(w, w.created[k].pop, place, InRoom(k));
        BothAtStays(w, v, w.created[k].pop, place, place', InRoom(k));
      }
    }
  }

  lemma SettlePop(w: World, v: World, i: Instance, n: nat, place: seq<Place>, x: Place)
    requires TicketInv(w, place) && Settles(w, v, i, n, x)
    ensures w.pops[n].first.ticket < |place| && w.pops[n].second.ticket < |place|
    ensures TicketInv(v, Moved(place, w.pops[n], x))
  {
    assert BothAt(w, n, place, InFlight(i));
    SettledPools(w, v, place, w.pops[n], x);
    PopsStay(w, v);
    SettledCarried(w, v, i, n, place, x);
    SettledRooms(w, v, i, n, place, x);
    SettledGone(w, v, w.pops[n], place, x);
    SettledPlaced(w, v, i, n, place, x);
  }

  lemma SettledGone(w: World, v: World, q: Pop, place: seq<Place>, x: Place)
    requires GoneOk(w, place) && q.first.ticket < |place| && q.second.ticket < |place|
    requires place[q.first.ticket].InFlight? && place[q.second.ticket].InFlight?
    requires if x.Gone? then v.gone == w.gone[q.first.ticket := x.exit][q.second.ticket := x.exit] else v.gone == w.gone
    ensures GoneOk(v, Moved(place, q, x))
  {
  }

  /* ---------- every step, every run ---------- */

  lemma IncrKeeps(w: World, i: Instance, applied: bool, answered: bool, place: seq<Place>) returns (place': seq<Place>)
    requires TicketInv(w, place)
    ensures TicketInv(Incr(w, i, applied, answered), place')
  {
    var v := Incr(w, i, applied, answered);
    place' := place;
    if w.PcOf(i).Popped? && w.PcOf(i).pop < |w.pops| && !(applied && answered) {
      var n := w.PcOf(i).pop;
      SettlePop(w, v, i, n, place, Gone(IncrFailed));
      place' := Moved(place, w.pops[n], Gone(IncrFailed));
    } else {
      FrameTickets(w, v, place);
    }
  }

  lemma CreateSettles(w: World, i: Instance)
    requires w.PcOf(i).Numbered? && w.PcOf(i).pop < |w.pops|
    ensures Settles(w, Create(w, i), i, w.PcOf(i).pop, InRoom(|w.created|))
  {
  }

  lemma CreateKeeps(w: World, i: Instance, place: seq<Place>) returns (place': seq<Place>)
    requires TicketInv(w, place)
    ensures TicketInv(Create(w, i), place')
  {
    place' := place;
    if w.PcOf(i).Numbered? && w.PcOf(i).pop < |w.pops| {
      CreateSettles(w, i);
      SettlePop(w, Create(w, i), i, w.PcOf(i).pop, place, InRoom(|w.created|));
      place' := Moved(place, w.pops[w.PcOf(i).pop], InRoom(|w.created|));
    }
  }

  predicate Empty(pc: Pc) {
    !pc.Popped? && !pc.Numbered?
  }

  /** Pools and history are the same, and only match loops that carry nothing have moved. */
  ghost predicate Quiet(w: World, v: World) {
    && v.fs == w.fs && v.ss == w.ss && v.tickets == w.tickets && v.pops == w.pops
    && v.created == w.created && v.gone == w.gone
    && forall i :: v.PcOf(i) == w.PcOf(i) || (Empty(w.PcOf(i)) && Empty(v.PcOf(i)))
  }

  lemma QuietStepsKeep(w: World, v: World, place: seq<Place>)
    requires TicketInv(w, place) && Quiet(w, v)
    ensures TicketInv(v, place)
  {
    forall i, n: nat ensures Carrying(v, i, n) <==> Carrying(w, i, n) {
      assert v.PcOf(i) == w.PcOf(i) || (Empty(w.PcOf(i)) && Empty(v.PcOf(i)));
    }
    FrameTickets(w, v, place);
  }

  lemma SweepOneIsQuiet(w: World, i: Instance, applied: bool)
    requires w.PcOf(i).Sweeping?
    ensures var p, todo := w.PcOf(i).pool, w.PcOf(i).todo;
            Quiet(if todo != [] && applied then Evict(w, p, todo[0], Expired) else w, SweepOne(w, i, applied))
  {
  }

  lemma SweepOneKeeps(w: World, i: Instance, applied: bool, place: seq<Place>) returns (place': seq<Place>)
    requires TicketInv(w, place)
    ensures TicketInv(SweepOne(w, i, applied), place')
  {
    place' := place;
    if w.PcOf(i).Sweeping? {
      var p, todo := w.PcOf(i).pool, w.PcOf(i).todo;
      var u := w;
      if todo != [] && applied {
        u := Evict(w, p, todo[0], Expired);
        place' := EvictKeeps(w, p, todo[0], Expired, place);
      }
      SweepOneIsQuiet(w, i, applied);
      QuietStepsKeep(u, SweepOne(w, i, applied), place');
    }
  }

  predicate MovesTickets(act: Action) {
    act.DoJoin? || act.DoLeave? || act.DoPair? || act.DoIncr? || act.DoCreate? || act.DoSweepOne?
  }

  lemma PublishIsQuiet(w: World, i: Instance, applied: bool)
    ensures Quiet(w, Publish(w, i, applied))
  {
  }

  lemma SweepRangeIsQuiet(w: World, i: Instance, nowMs: int, answered: bool)
    ensures Quiet(w, SweepRange(w, i, nowMs, answered))
  {
  }

  lemma UpkeepIsQuiet(w: World, act: Action)
    requires !MovesTickets(act) && !act.DoPublish? && !act.DoSweepRange?
    ensures Quiet(w, Step(w, act))
  {
  }

  lemma OtherStepsAreQuiet(w: World, act: Action)
    requires !MovesTickets(act)
    ensures Quiet(w, Step(w, act))
  {
    match act
    case DoPublish(i, applied) => PublishIsQuiet(w, i, applied);
    case DoSweepRange(i, nowMs, answered) => SweepRangeIsQuiet(w, i, nowMs, answered);
    case _ => UpkeepIsQuiet(w, act);
  }

  lemma StepKeepsTickets(w: World, act: Action, place: seq<Place>) returns (place': seq<Place>)
    requires TicketInv(w, place)
    ensures TicketInv(Step(w, act), place')
  {
    if !MovesTickets(act) {
      OtherStepsAreQuiet(w, act);
      QuietStepsKeep(w, Step(w, act), place);
      place' := place;
    } else {
      place' := MovingStepKeepsTickets(w, act, place);
    }
  }

  lemma MovingStepKeepsTickets(w: World, act: Action, place: seq<Place>) returns (place': seq<Place>)
    requires TicketInv(w, place) && MovesTickets(act)
    ensures TicketInv(Step(w, act), place')
  {
    match act
    case DoJoin(mode, waiter, nowMs) => place' := JoinKeeps(w, mode, waiter, nowMs, place);
    case DoLeave(p, waiter) => place' := EvictKeeps(w, p, EncodeMember(waiter), Left, place);
    case DoPair(i, p, answered) => place' := PairKeeps(w, i, p, answered, place);
    case DoIncr(i, applied, answered) => place' := IncrKeeps(w, i, applied, answered, place);
    case DoCreate(i) => place' := CreateKeeps(w, i, place);
    case DoSweepOne(i, applied) => place' := SweepOneKeeps(w, i, applied, place);
  }

  lemma {:induction false} RunKeepsTickets(acts: seq<Action>) returns (place: seq<Place>)
    ensures TicketInv(Run(acts), place)
  {
    place := [];
    if acts != [] {
      place := RunKeepsTickets(acts[..|acts| - 1]);
      place := StepKeepsTickets(Run(acts[..|acts| - 1]), acts[|acts| - 1], place);
    }
  }

  lemma WaitingIsPlaced(w: World, place: seq<Place>, t: nat, p: Pool)
    requires |place| == |w.tickets| && PoolOk(w, p, place) && t < |place| && At(w, t, Waiting(p))
    ensures place[t] == Waiting(p)
  {
    var e :| e in w.PoolAt(p) && e.ticket == t;
  }

  lemma InFlightIsPlaced(w: World, place: seq<Place>, t: nat, i: Instance)
    requires |place| == |w.tickets| && CarriersOk(w, place) && t < |place| && At(w, t, InFlight(i))
    ensures place[t] == InFlight(i)
  {
    var n :| 0 <= n < |w.pops| && Carrying(w, i, n) && Took(w.pops[n], t);
    assert BothAt(w, n, place, InFlight(i));
  }

  lemma PlaceIsUnique(w: World, place: seq<Place>, t: nat, p: Place)
    requires TicketInv(w, place) && t < |place| && At(w, t, p)
    ensures p == place[t]
  {
    match p
    case Waiting(q) => WaitingIsPlaced(w, place, t, q);
    case InFlight(i) => InFlightIsPlaced(w, place, t, i);
    case InRoom(k) => assert BothAt(w, w.created[k].pop, place, InRoom(k));
    case Gone(_) =>
  }

  /**
   Ticket conservation: in every reachable world each ticket ever issued is in exactly one place. It is
   waiting in one pool, in flight at one instance, in one room, or gone in one way.
   */
  lemma TicketsAreConserved(acts: seq<Action>, t: nat)
    requires t < |Run(acts).tickets|
    ensures exists p :: At(Run(acts), t, p) && forall q :: At(Run(acts), t, q) ==> q == p
  {
    var place := RunKeepsTickets(acts);
    var w := Run(acts);
    assert At(w, t, place[t]);
    forall q | At(w, t, q) ensures q == place[t] {
      PlaceIsUnique(w, place, t, q);
    }
  }

  /** No ticket gets into two rooms, and no room holds one ticket twice. */
  lemma OneRoomPerTicket(acts: seq<Action>, j: nat, k: nat, t: nat)
    requires var w := Run(acts); j < |w.created| && k < |w.created|
    ensures var w := Run(acts);
            && w.created[j].pop < |w.pops| && w.created[k].pop < |w.pops|
            && (Took(w.pops[w.created[j].pop], t) && Took(w.pops[w.created[k].pop], t) ==> j == k)
            && w.pops[w.created[j].pop].first.ticket != w.pops[w.created[j].pop].second.ticket
  {
    var place := RunKeepsTickets(acts);
    var w := Run(acts);
    assert BothAt(w, w.created[j].pop, place, InRoom(j)) && BothAt(w, w.created[k].pop, place, InRoom(k));
  }

  /* ---------- rooms are made of pops ---------- */

  /** What a room's record says is what its pop took. */
  ghost predicate RoomsMatchPops(w: World) {
    forall k {:trigger w.created[k]} :: 0 <= k < |w.created| ==>
      w.created[k].pop < |w.pops|
        && w.created[k] == RoomOf(w.created[k].id, w.created[k].owner, w.created[k].pop, w.pops[w.created[k].pop])
  }

  lemma RoomsMatchLater(w: World, v: World)
    requires RoomsMatchPops(w) && v.created == w.created && w.pops <= v.pops
    ensures RoomsMatchPops(v)
  {
    forall k | 0 <= k < |v.created|
      ensures v.created[k].pop < |v.pops|
              && v.created[k] == RoomOf(v.created[k].id, v.created[k].owner, v.created[k].pop, v.pops[v.created[k].pop])
    {
      assert v.created[k] == w.created[k];
    }
  }

  lemma CreateMatchesPop(w: World, i: Instance)
    requires RoomsMatchPops(w)
    ensures RoomsMatchPops(Create(w, i))
  {
    var v := Create(w, i);
    if w.PcOf(i).Numbered? && w.PcOf(i).pop < |w.pops| {
      forall k | 0 <= k < |v.created|
        ensures v.created[k].pop < |v.pops| && v.created[k] ==
                RoomOf(v.created[k].id, v.created[k].owner, v.created[k].pop, v.pops[v.created[k].pop])
      {
        if k < |w.created| { assert v.created[k] == w.created[k]; }
      }
    }
  }

  /** All steps but Create leave the rooms' records alone, and pops are only added. */
  lemma MovingStepKeepsRooms(w: World, act: Action)
    requires MovesTickets(act) && !act.DoCreate?
    ensures Step(w, act).created == w.created && w.pops <= Step(w, act).pops
  {
    match act
    case DoJoin(mode, waiter, nowMs) => JoinKeepsRooms(w, mode, waiter, nowMs);
    case DoLeave(p, waiter) => EvictKeepsRooms(w, p, EncodeMember(waiter), Left);
    case DoPair(i, p, answered) => PairKeepsRooms(w, i, p, answered);
    case DoIncr(i, applied, answered) => IncrKeepsRooms(w, i, applied, answered);
    case DoSweepOne(i, applied) => SweepKeepsRooms(w, i, applied);
  }

  lemma EvictKeepsRooms(w: World, p: Pool, member: string, exit: Exit)
    ensures Evict(w, p, member, exit).created == w.created && Evict(w, p, member, exit).pops == w.pops
  {
  }

  lemma JoinKeepsRooms(w: World, mode: int, waiter: Waiter, nowMs: int)
    ensures Join(w, mode, waiter, nowMs).created == w.created && Join(w, mode, waiter, nowMs).pops == w.pops
  {
    EvictKeepsRooms(w, PoolOf(mode), EncodeMember(waiter), Superseded);
    var v := Evict(w, PoolOf(mode), EncodeMember(waiter), Superseded);
    assert v.created == w.created && v.pops == w.pops;
    assert forall p, pool :: v.SetPool(p, pool).created == v.created && v.SetPool(p, pool).pops == v.pops;
  }

  lemma PairKeepsRooms(w: World, i: Instance, p: Pool, answered: bool)
    ensures Pair(w, i, p, answered).created == w.created && w.pops <= Pair(w, i, p, answered).pops
  {
  }

  lemma IncrKeepsRooms(w: World, i: Instance, applied: bool, answered: bool)
    ensures Incr(w, i, applied, answered).created == w.created && Incr(w, i, applied, answered).pops == w.pops
  {
  }

  lemma SweepKeepsRooms(w: World, i: Instance, applied: bool)
    ensures SweepOne(w, i, applied).created == w.created && SweepOne(w, i, applied).pops == w.pops
  {
    if w.PcOf(i).Sweeping? && w.PcOf(i).todo != [] { EvictKeepsRooms(w, w.PcOf(i).pool, w.PcOf(i).todo[0], Expired); }
  }

  lemma {:induction false} RunMatchesPops(acts: seq<Action>)
    ensures RoomsMatchPops(Run(acts))
  {
    if acts != [] {
      var w, act := Run(acts[..|acts| - 1]), acts[|acts| - 1];
      RunMatchesPops(acts[..|acts| - 1]);
      if act.DoCreate? {
        CreateMatchesPop(w, act.i);
      } else {
        if MovesTickets(act) { MovingStepKeepsRooms(w, act); } else { OtherStepsAreQuiet(w, act); }
        RoomsMatchLater(w, Step(w, act));
      }
    }
  }

  /** e has waited longer than f, or since the same millisecond and comes first in a dictionary of members. */
  ghost predicate Before(e: Entry, f: Entry) {
    e.score <= f.score && (e.score == f.score ==> Precedes(e.member, f.member))
  }

  lemma LessIsBefore(e: Entry, f: Entry)
    requires Less(e, f)
    ensures Before(e, f)
  {
    if e.score == f.score { LexLessIsPrecedes(e.member, f.member); }
  }

  /**
   FIFO pairing and mode isolation: each room holds the two members of one pool that had waited longest, equal
   times by member, at the moment they were taken,
     the one who had waited longer first. The room's mode is 0 or 1; both players asked for mode 0
   if it is 0, and for another one otherwise. The room's two player ids are theirs, in that order.
   */
  lemma PairsAreLongestWaiting(acts: seq<Action>, k: nat)
    requires k < |Run(acts).created|
    ensures var w := Run(acts);
            var room := w.created[k];
            && room.pop < |w.pops|
            && var q := w.pops[room.pop];
               && Before(q.first, q.second) && (forall e :: e in q.rest ==> Before(q.second, e))
               && q.first.ticket < |w.tickets| && q.second.ticket < |w.tickets|
               && var t1, t2 := w.tickets[q.first.ticket], w.tickets[q.second.ticket];
                  && (room.mode == 0 || room.mode == 1)
                  && (room.mode == 0 <==> t1.mode == 0) && (room.mode == 0 <==> t2.mode == 0)
                  && room.player1 == t1.waiter.playerId && room.player2 == t2.waiter.playerId
  {
    var place := RunKeepsTickets(acts);
    RunMatchesPops(acts);
    var w := Run(acts);
    assert BothAt(w, w.created[k].pop, place, InRoom(k));
    var q := w.pops[w.created[k].pop];
    LessIsBefore(q.first, q.second);
    forall e | e in q.rest ensures Before(q.second, e) {
      LessIsBefore(q.second, e);
    }
    PlayerIdSurvives(w.tickets[q.first.ticket].waiter);
    PlayerIdSurvives(w.tickets[q.second.ticket].waiter);
  }

  /**
   When a room's two ids coincide: exactly if its two tickets are joins of one player. These were then made
   under another name or another gateway address, because a pool holds equal members once only.
   */
  lemma RoomIdsCoincide(acts: seq<Action>, k: nat)
    requires k < |Run(acts).created|
    ensures var w := Run(acts);
            var room := w.created[k];
            && room.pop < |w.pops| && w.pops[room.pop].first.ticket < |w.tickets|
            && w.pops[room.pop].second.ticket < |w.tickets|
            && var u, v := w.tickets[w.pops[room.pop].first.ticket].waiter,
                          w.tickets[w.pops[room.pop].second.ticket].waiter;
               && (room.player1 == room.player2 <==> u.playerId == v.playerId)
               && (u.playerId == v.playerId ==> u.playerName != v.playerName || u.gatewayAddr != v.gatewayAddr)
  {
    PairsAreLongestWaiting(acts, k);
    var place := RunKeepsTickets(acts);
    var w := Run(acts);
    assert BothAt(w, w.created[k].pop, place, InRoom(k));
  }
}
