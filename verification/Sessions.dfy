/**
 The gateway's session table: one current session per player, a newer login of the same player kicks
 the older session, and a disconnecting session removes only itself. Each method is one locked update;
 the lemmas are about the table over any sequence of logins and disconnects.
 */
module Sessions {
  import opened Options

  /** sessions[player] = session */
  function Bind<C>(table: map<int, C>, player: int, c: C): map<int, C> {
    table[player := c]
  }

  /** Removal, only if c is still the current session. */
  function Unbind<C(==)>(table: map<int, C>, player: int, c: C): map<int, C> {
    if player in table && table[player] == c then table - {player} else table
  }

  /** The session a login throws out. */
  function Displaced<C(==)>(table: map<int, C>, player: int, c: C): Option<C> {
    if player in table && table[player] != c then Some(table[player]) else None
  }

  class Session {
    var playerId: int
    var roomId: int
    var matchMode: int
    var kicks: nat     // kick messages sent to this connection
    var closed: bool

    constructor ()
      ensures playerId == 0 && roomId == 0 && kicks == 0 && !closed
    {
      playerId, roomId, matchMode, kicks, closed := 0, 0, 0, 0, false;
    }
  }

  class Gateway {
    var sessions: map<int, Session>

    constructor ()
      ensures sessions == map[]
    {
      sessions := map[];
    }

    /** The table entry of a player, as a set of objects a bind may touch. */
    ghost function Current(player: int): set<Session>
      reads this
    {
      if player in sessions then {sessions[player]} else {}
    }

    method BindSession(session: Session)
      modifies this, Current(session.playerId)
      ensures sessions == Bind(old(sessions), old(session.playerId), session)
      ensures session.playerId == old(session.playerId) && session.matchMode == old(session.matchMode)
      ensures session.kicks == old(session.kicks) && session.closed == old(session.closed)
      ensures var d := Displaced(old(sessions), old(session.playerId), session);
              d.Some? ==> d.value.kicks == old(d.value.kicks) + 1 && d.value.closed
    {
      var player := session.playerId;
      var previous: Session? := if player in sessions then sessions[player] else null;
      sessions := sessions[player := session];
      if previous != null && previous != session {
        previous.kicks := previous.kicks + 1;
        previous.closed := true;
      }
    }

    method GetSession(playerId: int) returns (s: Session?)
      ensures s == if playerId in sessions then sessions[playerId] else null
    {
      s := if playerId in sessions then sessions[playerId] else null;
    }

    method RemoveSession(session: Session)
      modifies this
      ensures sessions == Unbind(old(sessions), session.playerId, session)
    {
      if session.playerId in sessions && sessions[session.playerId] == session {
        sessions := sessions - {session.playerId};
      }
    }

    /** The end of a successful login or registration. */
    method Login(session: Session, playerId: int)
      modifies this, session, Current(playerId)
      ensures sessions == Bind(old(sessions), playerId, session) && session.playerId == playerId
              && session.matchMode == -1
      ensures session.kicks == old(session.kicks)
      ensures var d := Displaced(old(sessions), playerId, session);
              d.Some? ==> d.value.kicks == old(d.value.kicks) + 1 && d.value.closed
    {
      session.playerId := playerId;
      session.matchMode := -1;
      BindSession(session);
    }

    /** A session that never logged in leaves the table alone. */
    method OnClientDisconnect(session: Session)
      modifies this
      ensures sessions == if session.playerId == 0 then old(sessions)
              else Unbind(old(sessions), session.playerId, session)
    {
      if session.playerId == 0 { return; }
      RemoveSession(session);
    }
  }

  /* ---------- runs ---------- */

  /** Connections are numbered; a connection carries the player id of its last login, 0 before. */
  datatype Event = LoggedIn(c: nat, player: int) | Disconnected(c: nat)

  function PlayerOf(trace: seq<Event>, c: nat): int {
    if trace == [] then 0
    else
      var last := trace[|trace| - 1];
      if last.LoggedIn? && last.c == c then last.player else PlayerOf(trace[..|trace| - 1], c)
  }

  function Table(trace: seq<Event>): map<int, nat> {
    if trace == [] then map[]
    else
      var init := trace[..|trace| - 1];
      match trace[|trace| - 1]
      case LoggedIn(c, player) => Bind(Table(init), player, c)
      case Disconnected(c) => if PlayerOf(init, c) == 0 then Table(init) else Unbind(Table(init), PlayerOf(init, c), c)
  }

  /** Event k is the disconnect of c while it carries player. */
  ghost predicate LeftAt(trace: seq<Event>, k: nat, c: nat, player: int)
    requires k < |trace|
  {
    trace[k] == Disconnected(c) && player != 0 && PlayerOf(trace[..k], c) == player
  }

  /** Event j is the last login for player, and its connection has not left as that player since. */
  ghost predicate LastLogin(trace: seq<Event>, j: nat, player: int) {
    && j < |trace| && trace[j].LoggedIn? && trace[j].player == player
    && (forall k :: j < k < |trace| && trace[k].LoggedIn? ==> trace[k].player != player)
    && (forall k :: j < k < |trace| ==> !LeftAt(trace, k, trace[j].c, player))
  }

  lemma LeftAtOneMore(trace: seq<Event>, e: Event, k: nat, c: nat, player: int)
    requires k <= |trace|
    ensures LeftAt(trace + [e], k, c, player) <==>
            if k < |trace| then LeftAt(trace, k, c, player)
            else e == Disconnected(c) && player != 0 && PlayerOf(trace, c) == player
  {
    assert (trace + [e])[..k] == trace[..k];
    assert trace[..|trace|] == trace;
  }

  lemma LastLoginOneMore(trace: seq<Event>, e: Event, j: nat, player: int)
    requires j < |trace|
    ensures LastLogin(trace + [e], j, player) <==>
            LastLogin(trace, j, player) && !(e.LoggedIn? && e.player == player)
            && !(e == Disconnected(trace[j].c) && player != 0 && PlayerOf(trace, trace[j].c) == player)
  {
    var more, c := trace + [e], trace[j].c;
    assert more[j] == trace[j] && more[|trace|] == e;
    forall k | 0 <= k <= |trace| ensures LeftAt(more, k, c, player) <==>
            if k < |trace| then LeftAt(trace, k, c, player)
            else e == Disconnected(c) && player != 0 && PlayerOf(trace, c) == player
    {
      LeftAtOneMore(trace, e, k, c, player);
    }
    if LastLogin(more, j, player) {
      assert !LeftAt(more, |trace|, c, player);
      forall k | j < k < |trace| ensures !LeftAt(trace, k, c, player) { assert !LeftAt(more, k, c, player); }
      forall k | j < k < |trace| && trace[k].LoggedIn? ensures trace[k].player != player { assert more[k] == trace[k]; }
    }
  }

  lemma TableOneMore(trace: seq<Event>, e: Event)
    ensures Table(trace + [e]) ==
            if e.LoggedIn? then Bind(Table(trace), e.player, e.c)
            else if PlayerOf(trace, e.c) == 0 then Table(trace)
            else Unbind(Table(trace), PlayerOf(trace, e.c), e.c)
  {
    assert (trace + [e])[..|trace|] == trace;
  }

  /** The entry of a player comes from its last login. */
  lemma {:induction false} EntryHasLogin(trace: seq<Event>, player: int) returns (j: nat)
    requires player in Table(trace)
    ensures LastLogin(trace, j, player) && trace[j].c == Table(trace)[player]
  {
    var init, e := trace[..|trace| - 1], trace[|trace| - 1];
    assert trace == init + [e];
    TableOneMore(init, e);
    if e.LoggedIn? && e.player == player {
      j := |init|;
    } else {
      j := EntryHasLogin(init, player);
      LastLoginOneMore(init, e, j, player);
    }
  }

  /** The last login of a player has its entry in the table. */
  lemma {:induction false} LoginHasEntry(trace: seq<Event>, j: nat, player: int)
    requires LastLogin(trace, j, player)
    ensures player in Table(trace) && Table(trace)[player] == trace[j].c
  {
    var init, e := trace[..|trace| - 1], trace[|trace| - 1];
    assert trace == init + [e];
    TableOneMore(init, e);
    if j < |init| {
      LastLoginOneMore(init, e, j, player);
      LoginHasEntry(init, j, player);
    }
  }

  /**
   For any logins and disconnects, GetSession answers c for a player exactly when c made the last login
   for that player and has not disconnected as that player since.
   */
  lemma TableIsLastLogin(trace: seq<Event>, player: int, c: nat)
    ensures player in Table(trace) && Table(trace)[player] == c <==>
            exists j: nat :: LastLogin(trace, j, player) && trace[j].c == c
  {
    if player in Table(trace) {
      var j := EntryHasLogin(trace, player);
    }
    forall j: nat | LastLogin(trace, j, player) ensures player in Table(trace) && Table(trace)[player] == trace[j].c {
      LoginHasEntry(trace, j, player);
    }
  }

  /** Each connection logs in for one player only. */
  ghost predicate OnePlayerPerConnection(trace: seq<Event>) {
    && (forall k :: 0 <= k < |trace| && trace[k].LoggedIn? ==> trace[k].player != 0)
    && (forall j, k :: 0 <= j < |trace| && 0 <= k < |trace|
          && trace[j].LoggedIn? && trace[k].LoggedIn? && trace[j].c == trace[k].c
          ==> trace[j].player == trace[k].player)
  }

  lemma {:induction false} PlayerOfIs(trace: seq<Event>, j: nat)
    requires OnePlayerPerConnection(trace) && j < |trace| && trace[j].LoggedIn?
    ensures PlayerOf(trace, trace[j].c) == trace[j].player
  {
    var last := trace[|trace| - 1];
    if !(last.LoggedIn? && last.c == trace[j].c) { PlayerOfIs(trace[..|trace| - 1], j); }
  }

  /** Event j logs c in for player, nobody has logged in for player since, and c has not disconnected. */
  ghost predicate MostRecent(trace: seq<Event>, j: nat, player: int, c: nat) {
    && j < |trace| && trace[j] == LoggedIn(c, player)
    && (forall k :: j < k < |trace| && trace[k].LoggedIn? ==> trace[k].player != player)
    && (forall k :: j < k < |trace| ==> trace[k] != Disconnected(c))
  }

  lemma MostRecentIsLast(trace: seq<Event>, j: nat, player: int, c: nat)
    requires OnePlayerPerConnection(trace)
    ensures MostRecent(trace, j, player, c) <==> LastLogin(trace, j, player) && trace[j].c == c
  {
    if j < |trace| && trace[j] == LoggedIn(c, player) {
      forall k | j < k < |trace| ensures LeftAt(trace, k, c, player) <==> trace[k] == Disconnected(c) {
        assert trace[..k][j] == trace[j];
        assert forall i :: 0 <= i < k ==> trace[..k][i] == trace[i];
        PlayerOfIs(trace[..k], j);
      }
    }
  }

  /** Then the current session is the one most recently bound, unless that one has disconnected since. */
  lemma CurrentIsMostRecent(trace: seq<Event>, player: int, c: nat)
    requires OnePlayerPerConnection(trace)
    ensures player in Table(trace) && Table(trace)[player] == c <==> exists j: nat :: MostRecent(trace, j, player, c)
  {
    TableIsLastLogin(trace, player, c);
    forall j: nat ensures MostRecent(trace, j, player, c) <==> LastLogin(trace, j, player) && trace[j].c == c {
      MostRecentIsLast(trace, j, player, c);
    }
  }

  /* ---------- what becomes of a login ---------- */

  /** Login j was its player's last one up to event k, and is not any more after it. */
  ghost predicate EndsAt(trace: seq<Event>, k: nat, j: nat) {
    && j < k < |trace| && trace[j].LoggedIn?
    && LastLogin(trace[..k], j, trace[j].player) && !LastLogin(trace[..k + 1], j, trace[j].player)
  }

  datatype Fate = Current | DisplacedBy(k: nat) | RenewedBy(k: nat) | RemovedBy(k: nat)

  /** Still current, or ended by event k: a login of another connection, of the same one, or its own disconnect. */
  ghost predicate HasFate(trace: seq<Event>, j: nat, fate: Fate)
    requires j < |trace| && trace[j].LoggedIn?
  {
    match fate
    case Current => LastLogin(trace, j, trace[j].player)
    case DisplacedBy(k) => EndsAt(trace, k, j) && trace[k].LoggedIn? && trace[k].player == trace[j].player
      && trace[k].c != trace[j].c
    case RenewedBy(k) => EndsAt(trace, k, j) && trace[k].LoggedIn? && trace[k].player == trace[j].player
      && trace[k].c == trace[j].c
    case RemovedBy(k) => EndsAt(trace, k, j) && trace[k] == Disconnected(trace[j].c)
  }

  lemma LastLoginBefore(trace: seq<Event>, n: nat, j: nat, player: int)
    requires j < n < |trace| && LastLogin(trace[..n + 1], j, player)
    ensures LastLogin(trace[..n], j, player)
  {
    assert trace[..n + 1] == trace[..n] + [trace[n]];
    LastLoginOneMore(trace[..n], trace[n], j, player);
  }

  /** What was not the last login any more never is again. */
  lemma {:induction false} LastLoginEarlier(trace: seq<Event>, m: nat, n: nat, j: nat, player: int)
    requires j < m <= n <= |trace| && LastLogin(trace[..n], j, player)
    ensures LastLogin(trace[..m], j, player)
    decreases n
  {
    if m < n {
      LastLoginBefore(trace, n - 1, j, player);
      LastLoginEarlier(trace, m, n - 1, j, player);
    }
  }

  lemma OneEnd(trace: seq<Event>, k: nat, k': nat, j: nat)
    requires EndsAt(trace, k, j) && EndsAt(trace, k', j)
    ensures k == k'
  {
    if k < k' { LastLoginEarlier(trace, k + 1, k', j, trace[j].player); }
    if k' < k { LastLoginEarlier(trace, k' + 1, k, j, trace[j].player); }
  }

  lemma JustLoggedIn(trace: seq<Event>, j: nat)
    requires j < |trace| && trace[j].LoggedIn?
    ensures LastLogin(trace[..j + 1], j, trace[j].player)
  {
    assert trace[..j + 1][j] == trace[j];
  }

  lemma {:induction false} FindEnd(trace: seq<Event>, n: nat, j: nat) returns (k: nat)
    requires j < n <= |trace| && trace[j].LoggedIn? && !LastLogin(trace[..n], j, trace[j].player)
    ensures k < n && EndsAt(trace, k, j)
    decreases n
  {
    JustLoggedIn(trace, j);
    assert j + 1 < n;
    if LastLogin(trace[..n - 1], j, trace[j].player) {
      k := n - 1;
    } else {
      k := FindEnd(trace, n - 1, j);
    }
  }

  /** What can end a login: nothing but a login of its player or its own connection's disconnect. */
  lemma KindOfEnd(trace: seq<Event>, k: nat, j: nat)
    requires EndsAt(trace, k, j)
    ensures (trace[k].LoggedIn? && trace[k].player == trace[j].player) || trace[k] == Disconnected(trace[j].c)
  {
    assert trace[..k + 1] == trace[..k] + [trace[k]];
    assert trace[..k][j] == trace[j];
    LastLoginOneMore(trace[..k], trace[k], j, trace[j].player);
  }

  lemma CurrentHasNoEnd(trace: seq<Event>, k: nat, j: nat)
    requires EndsAt(trace, k, j)
    ensures !LastLogin(trace, j, trace[j].player)
  {
    if LastLogin(trace, j, trace[j].player) {
      assert trace[..|trace|] == trace;
      LastLoginEarlier(trace, k + 1, |trace|, j, trace[j].player);
    }
  }

  /**
   Conservation of logins. Over any logins and disconnects each login has exactly one fate: it is current, or
   one later event ended it, by displacing, renewing or removing it.
   */
  lemma EveryLoginHasOneFate(trace: seq<Event>, j: nat)
    requires j < |trace| && trace[j].LoggedIn?
    ensures exists fate :: HasFate(trace, j, fate) && forall other :: HasFate(trace, j, other) ==> other == fate
  {
    var fate := Current;
    assert trace[..|trace|] == trace;
    if !LastLogin(trace, j, trace[j].player) {
      var k := FindEnd(trace, |trace|, j);
      KindOfEnd(trace, k, j);
      fate := if trace[k].Disconnected? then RemovedBy(k)
              else if trace[k].c == trace[j].c then RenewedBy(k) else DisplacedBy(k);
    }
    assert HasFate(trace, j, fate);
    forall other | HasFate(trace, j, other) ensures other == fate {
      if other != Current && fate != Current { OneEnd(trace, other.k, fate.k, j); }
      if other != Current { CurrentHasNoEnd(trace, other.k, j); }
      if fate != Current { CurrentHasNoEnd(trace, fate.k, j); }
    }
  }

  lemma OneLastLogin(trace: seq<Event>, i: nat, j: nat, player: int)
    requires LastLogin(trace, i, player) && LastLogin(trace, j, player)
    ensures i == j
  {
  }

  /** One event displaces one login at most. */
  lemma DisplacesAtMostOne(trace: seq<Event>, i: nat, j: nat, k: nat)
    requires i < |trace| && trace[i].LoggedIn? && j < |trace| && trace[j].LoggedIn?
    requires HasFate(trace, i, DisplacedBy(k)) && HasFate(trace, j, DisplacedBy(k))
    ensures i == j
  {
    OneLastLogin(trace[..k], i, j, trace[k].player);
  }

  /* ---------- kicks ---------- */

  /** How often a connection is kicked in a run: once for each login that throws it out of the table. */
  function Kicks(trace: seq<Event>, c: nat): nat {
    if trace == [] then 0
    else
      var init, last := trace[..|trace| - 1], trace[|trace| - 1];
      Kicks(init, c) + if last.LoggedIn? && Displaced(Table(init), last.player, last.c) == Some(c) then 1 else 0
  }

  ghost predicate WasDisplaced(trace: seq<Event>, j: nat, c: nat) {
    j < |trace| && trace[j].LoggedIn? && trace[j].c == c && exists k: nat :: HasFate(trace, j, DisplacedBy(k))
  }

  ghost function DisplacedLogins(trace: seq<Event>, c: nat): set<nat> {
    set j: nat | 0 <= j < |trace| && WasDisplaced(trace, j, c)
  }

  lemma EndsAtStays(trace: seq<Event>, e: Event, k: nat, j: nat)
    requires k < |trace|
    ensures EndsAt(trace + [e], k, j) <==> EndsAt(trace, k, j)
  {
    if j < k {
      assert (trace + [e])[..k] == trace[..k] && (trace + [e])[..k + 1] == trace[..k + 1]
        && (trace + [e])[j] == trace[j];
    }
  }

  lemma EndsNow(trace: seq<Event>, e: Event, j: nat)
    requires j < |trace| && trace[j].LoggedIn?
    ensures EndsAt(trace + [e], |trace|, j) <==>
            LastLogin(trace, j, trace[j].player) && !LastLogin(trace + [e], j, trace[j].player)
  {
    assert (trace + [e])[..|trace|] == trace && (trace + [e])[..|trace| + 1] == trace + [e]
      && (trace + [e])[j] == trace[j];
  }

  /** Login j is thrown out by event e, after trace. */
  ghost predicate ThrownOut(trace: seq<Event>, e: Event, j: nat) {
    j < |trace| && e.LoggedIn? && LastLogin(trace, j, e.player) && trace[j].c != e.c
  }

  lemma DisplacedOneMore(trace: seq<Event>, e: Event, j: nat, c: nat)
    ensures WasDisplaced(trace + [e], j, c) <==>
            WasDisplaced(trace, j, c) || (ThrownOut(trace, e, j) && trace[j].c == c)
  {
    var more := trace + [e];
    assert more[|trace|] == e;
    if j < |trace| && trace[j].LoggedIn? {
      assert more[j] == trace[j];
      EndsNow(trace, e, j);
      LastLoginOneMore(trace, e, j, trace[j].player);
      if WasDisplaced(trace, j, c) {
        var k: nat :| HasFate(trace, j, DisplacedBy(k));
        EndsAtStays(trace, e, k, j);
        assert HasFate(more, j, DisplacedBy(k));
      }
      if ThrownOut(trace, e, j) {
        assert HasFate(more, j, DisplacedBy(|trace|));
      }
      if WasDisplaced(more, j, c) {
        var k: nat :| HasFate(more, j, DisplacedBy(k));
        if k < |trace| {
          EndsAtStays(trace, e, k, j);
          assert HasFate(trace, j, DisplacedBy(k));
        }
      }
    }
  }

  lemma ThrownOutIsDisplaced(trace: seq<Event>, e: Event, c: nat)
    requires e.LoggedIn?
    ensures Displaced(Table(trace), e.player, e.c) == Some(c) <==>
            exists j: nat :: ThrownOut(trace, e, j) && trace[j].c == c
  {
    TableIsLastLogin(trace, e.player, c);
    if Displaced(Table(trace), e.player, e.c) == Some(c) {
      var j: nat :| LastLogin(trace, j, e.player) && trace[j].c == c;
      assert ThrownOut(trace, e, j);
    }
    if j: nat :| ThrownOut(trace, e, j) && trace[j].c == c {
      assert LastLogin(trace, j, e.player) && trace[j].c == c;
    }
  }

  /** A login that is thrown out now was still current, so it had not been displaced before. */
  lemma ThrownOutIsNew(trace: seq<Event>, e: Event, j: nat, c: nat)
    requires ThrownOut(trace, e, j)
    ensures !WasDisplaced(trace, j, c)
  {
    if WasDisplaced(trace, j, c) { DisplacedIsPast(trace, j, c); }
  }

  lemma DisplacedIsPast(trace: seq<Event>, j: nat, c: nat)
    requires WasDisplaced(trace, j, c)
    ensures !LastLogin(trace, j, trace[j].player)
  {
    var k: nat :| HasFate(trace, j, DisplacedBy(k));
    CurrentHasNoEnd(trace, k, j);
  }

  /** Each kick is one login displaced, and each displaced login is one kick for its connection. */
  lemma {:induction false} KicksAreDisplacements(trace: seq<Event>, c: nat)
    ensures Kicks(trace, c) == |DisplacedLogins(trace, c)|
  {
    if trace == [] {
      assert DisplacedLogins(trace, c) == {};
    } else {
      var init, e := trace[..|trace| - 1], trace[|trace| - 1];
      KicksAreDisplacements(init, c);
      assert trace == init + [e];
      KickOneMore(init, e, c);
    }
  }

  lemma NewlyDisplaced(trace: seq<Event>, e: Event, c: nat)
    ensures forall j: nat :: j in DisplacedLogins(trace + [e], c) <==>
                             j in DisplacedLogins(trace, c) || (ThrownOut(trace, e, j) && trace[j].c == c)
  {
    forall j: nat
      ensures j in DisplacedLogins(trace + [e], c) <==>
              j in DisplacedLogins(trace, c) || (ThrownOut(trace, e, j) && trace[j].c == c)
    {
      DisplacedOneMore(trace, e, j, c);
    }
  }

  lemma KickOneMore(trace: seq<Event>, e: Event, c: nat)
    ensures |DisplacedLogins(trace + [e], c)| ==
            |DisplacedLogins(trace, c)|
            + if e.LoggedIn? && Displaced(Table(trace), e.player, e.c) == Some(c) then 1 else 0
  {
    var before, after := DisplacedLogins(trace, c), DisplacedLogins(trace + [e], c);
    NewlyDisplaced(trace, e, c);
    if e.LoggedIn? { ThrownOutIsDisplaced(trace, e, c); }
    if e.LoggedIn? && Displaced(Table(trace), e.player, e.c) == Some(c) {
      var j: nat :| ThrownOut(trace, e, j) && trace[j].c == c;
      ThrownOutIsNew(trace, e, j, c);
      forall i: nat | ThrownOut(trace, e, i) ensures i == j { OneLastLogin(trace, i, j, e.player); }
      assert after == before + {j};
    } else {
      assert after == before;
    }
  }

  /** After a disconnect the table is free of c exactly when c was current for its own player id only. */
  lemma NoGhostSession(trace: seq<Event>, c: nat)
    ensures (forall p :: p in Table(trace + [Disconnected(c)]) ==> Table(trace + [Disconnected(c)])[p] != c) <==>
            (forall p :: p in Table(trace) && Table(trace)[p] == c ==> p == PlayerOf(trace, c) && p != 0)
  {
    assert (trace + [Disconnected(c)])[..|trace|] == trace;
    var t, u, me := Table(trace), Table(trace + [Disconnected(c)]), PlayerOf(trace, c);
    TableOneMore(trace, Disconnected(c));
    assert forall p :: p in t && t[p] == c && !(p == me && p != 0) ==> p in u && u[p] == c;
    assert forall p :: p in u && u[p] == c ==> p in t && t[p] == c && !(p == me && p != 0);
  }

  /** Login j of connection c would not be removed if c disconnected now. */
  ghost predicate Foreign(trace: seq<Event>, j: nat, c: nat) {
    j < |trace| && trace[j].LoggedIn? && trace[j].c == c
      && !(trace[j].player == PlayerOf(trace, c) && trace[j].player != 0)
  }

  /**
   The same over the history: a disconnect leaves no entry of c behind exactly when each login of c under
   another id than the one it carries now has met with one of the fates that end a login.
   */
  lemma NoGhostByFate(trace: seq<Event>, c: nat)
    ensures (forall p :: p in Table(trace + [Disconnected(c)]) ==> Table(trace + [Disconnected(c)])[p] != c) <==>
            (forall j: nat :: Foreign(trace, j, c) ==> exists fate :: fate != Current && HasFate(trace, j, fate))
  {
    NoGhostSession(trace, c);
    forall j: nat | Foreign(trace, j, c)
      ensures (exists fate :: fate != Current && HasFate(trace, j, fate)) <==> !LastLogin(trace, j, trace[j].player)
    {
      EveryLoginHasOneFate(trace, j);
      assert HasFate(trace, j, Current) <==> LastLogin(trace, j, trace[j].player);
    }
    if p :| p in Table(trace) && Table(trace)[p] == c && !(p == PlayerOf(trace, c) && p != 0) {
      var j := EntryHasLogin(trace, p);
      assert Foreign(trace, j, c) && LastLogin(trace, j, trace[j].player);
    } else if j: nat :| Foreign(trace, j, c) && LastLogin(trace, j, trace[j].player) {
      LoginHasEntry(trace, j, trace[j].player);
    }
  }

  /** A second login on one connection under another id leaves such a ghost behind. */
  lemma SecondLoginLeavesGhost()
    ensures Table([LoggedIn(7, 1), LoggedIn(7, 2), Disconnected(7)]) == map[1 := 7]
  {
    var trace := [LoggedIn(7, 1), LoggedIn(7, 2), Disconnected(7)];
    assert trace[..2] == [LoggedIn(7, 1), LoggedIn(7, 2)] && trace[..2][..1] == [LoggedIn(7, 1)]
      && trace[..2][..1][..0] == [];
    assert Table(trace[..2][..1]) == map[1 := 7];
    assert Table(trace[..2]) == map[1 := 7, 2 := 7];
    assert PlayerOf(trace[..2], 7) == 2;
  }
}
