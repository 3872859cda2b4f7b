/**
 The string form of a waiting player, "player_id|player_name|gateway_addr", as it is kept in the match
 pools, and the Redis keys built from decimal ids. Strings are sequences of characters.
 */
module MemberCodec {
  import opened Options

  const MIN_INT64 := -0x8000_0000_0000_0000
  const MAX_INT64 := 0x7fff_ffff_ffff_ffff
  type int64 = x: int | MIN_INT64 <= x <= MAX_INT64

  datatype Waiter = Waiter(playerId: int64, playerName: string, gatewayAddr: string)

  /* ---------- decimal numbers ---------- */

  const DIGITS := "0123456789"

  function FormatNat(n: nat): string {
    if n < 10 then [DIGITS[n]] else FormatNat(n / 10) + [DIGITS[n % 10]]
  }

  function FormatInt(v: int): string {
    if v < 0 then "-" + FormatNat(-v) else FormatNat(v)
  }

  predicate IsDigit(c: char) {
    '0' <= c <= '9'
  }

  /** The value of a non-empty run of digits, None for anything else. */
  function ParseDigits(s: string): Option<nat> {
    if s == "" || !IsDigit(s[|s| - 1]) then None
    else
      var d := s[|s| - 1] as int - '0' as int;
      if |s| == 1 then Some(d)
      else match ParseDigits(s[..|s| - 1])
           case None => None
           case Some(n) => Some(10 * n + d)
  }

  /** strconv.ParseInt(s, 10, 64): an optional sign, digits, and the 64-bit range; None on any error. */
  function ParseInt(s: string): Option<int64> {
    if s == "" then None
    else
      var neg := s[0] == '-';
      match ParseDigits(if s[0] == '-' || s[0] == '+' then s[1..] else s)
      case None => None
      case Some(n) =>
        var v: int := if neg then -(n as int) else n;
        if MIN_INT64 <= v <= MAX_INT64 then Some(v) else None
  }

  ghost predicate AllDigits(s: string) {
    forall k :: 0 <= k < |s| ==> IsDigit(s[k])
  }

  lemma {:induction false} ParseFormatNat(n: nat)
    ensures AllDigits(FormatNat(n)) && FormatNat(n) != "" && ParseDigits(FormatNat(n)) == Some(n)
  {
    if 10 <= n {
      ParseFormatNat(n / 10);
      assert FormatNat(n)[..|FormatNat(n)| - 1] == FormatNat(n / 10);
      assert DIGITS[n % 10] as int - '0' as int == n % 10;
    }
  }

  lemma ParseOfDigits(s: string, n: nat)
    requires s != "" && AllDigits(s) && ParseDigits(s) == Some(n)
    ensures n <= MAX_INT64 ==> ParseInt(s) == Some(n)
    ensures n <= -MIN_INT64 ==> ParseInt("-" + s) == Some(-(n as int))
    ensures '|' !in s
  {
    assert IsDigit(s[0]);
    assert ("-" + s)[1..] == s && ("-" + s)[0] == '-';
  }

  /** Every 64-bit integer survives formatting and parsing. */
  lemma ParseFormatInt(v: int64)
    ensures ParseInt(FormatInt(v)) == Some(v) && '|' !in FormatInt(v)
  {
    var n: int := if v < 0 then -(v as int) else v;
    ParseFormatNat(n);
    ParseOfDigits(FormatNat(n), n);
  }

  /* ---------- members ---------- */

  /** The first position of c in s, or -1. */
  function IndexOf(s: string, c: char): (i: int)
    ensures -1 <= i < |s|
    ensures i == -1 <==> c !in s
    ensures 0 <= i ==> s[i] == c && c !in s[..i]
  {
    if s == "" then -1
    else if s[0] == c then 0
    else
      var i := IndexOf(s[1..], c);
      assert 0 <= i ==> s[..i + 1] == [s[0]] + s[1..][..i];
      assert s == [s[0]] + s[1..];
      if i == -1 then -1 else i + 1
  }

  function EncodeMember(w: Waiter): string {
    FormatInt(w.playerId) + "|" + w.playerName + "|" + w.gatewayAddr
  }

  /** Missing or malformed parts come out as 0 or empty. */
  function ParseMember(s: string): Waiter {
    var p1 := IndexOf(s, '|');
    if p1 == -1 then Waiter(0, "", "")
    else
      var id := match ParseInt(s[..p1]) case None => 0 case Some(v) => v;
      var tail := s[p1 + 1..];
      var p2 := IndexOf(tail, '|');
      if p2 == -1 then Waiter(id, "", "") else Waiter(id, tail[..p2], tail[p2 + 1..])
  }

  lemma {:induction false} IndexOfSplit(a: string, c: char, b: string)
    requires c !in a
    ensures IndexOf(a + [c] + b, c) == |a|
  {
    if a != "" {
      assert (a + [c] + b)[1..] == a[1..] + [c] + b;
      IndexOfSplit(a[1..], c, b);
      assert (a + [c] + b)[0] == a[0];
    }
  }

  /** A string is cut at its first bar. */
  lemma CutAtBar(head: string, tail: string)
    requires '|' !in head
    ensures var s := head + "|" + tail;
            IndexOf(s, '|') == |head| && s[..|head|] == head && s[|head| + 1..] == tail
  {
    IndexOfSplit(head, '|', tail);
    assert head + "|" + tail == head + ['|'] + tail;
  }

  lemma ParseCut(s: string, head: string, a: string, b: string)
    requires s == head + "|" + (a + "|" + b) && '|' !in head && '|' !in a
    ensures ParseMember(s) == Waiter(match ParseInt(head) case None => 0 case Some(v) => v, a, b)
  {
    CutAtBar(head, a + "|" + b);
    CutAtBar(a, b);
  }

  /** The split of a member at its first two bars. */
  lemma ParseOfParts(id: int64, a: string, b: string)
    requires '|' !in a
    ensures ParseMember(FormatInt(id) + "|" + a + "|" + b) == Waiter(id, a, b)
  {
    ParseFormatInt(id);
    var head := FormatInt(id);
    assert head + "|" + a + "|" + b == head + "|" + (a + "|" + b);
    ParseCut(head + "|" + a + "|" + b, head, a, b);
  }

  /** A bar in the name cuts the name there and pushes the rest of it into the address. */
  lemma ParseOfBarredName(w: Waiter)
    requires '|' in w.playerName
    ensures var i := IndexOf(w.playerName, '|');
            ParseMember(EncodeMember(w))
              == Waiter(w.playerId, w.playerName[..i], w.playerName[i + 1..] + "|" + w.gatewayAddr)
  {
    var i := IndexOf(w.playerName, '|');
    var a, b := w.playerName[..i], w.playerName[i + 1..] + "|" + w.gatewayAddr;
    assert w.playerName == a + "|" + w.playerName[i + 1..];
    assert EncodeMember(w) == FormatInt(w.playerId) + "|" + a + "|" + b;
    ParseOfParts(w.playerId, a, b);
  }

  /** Parsing gives back the waiter exactly when the name has no bar; address and id may be anything. */
  lemma MemberRoundTrip(w: Waiter)
    ensures ParseMember(EncodeMember(w)) == w <==> '|' !in w.playerName
  {
    if '|' in w.playerName {
      ParseOfBarredName(w);
    } else {
      ParseOfParts(w.playerId, w.playerName, w.gatewayAddr);
    }
  }

  /** The player id survives whatever the name is. */
  lemma PlayerIdSurvives(w: Waiter)
    ensures ParseMember(EncodeMember(w)).playerId == w.playerId
  {
    if '|' in w.playerName {
      ParseOfBarredName(w);
    } else {
      MemberRoundTrip(w);
    }
  }

  /** Two waiters share a member string only if they are the same player, and the same waiter if no name has a bar. */
  lemma SameMember(w: Waiter, v: Waiter)
    requires EncodeMember(w) == EncodeMember(v)
    ensures w.playerId == v.playerId
    ensures '|' !in w.playerName && '|' !in v.playerName ==> w == v
  {
    PlayerIdSurvives(w);
    PlayerIdSurvives(v);
    MemberRoundTrip(w);
    MemberRoundTrip(v);
  }

  /** A string that is not a member: no bar gives an empty waiter, one bar at most an id. */
  lemma MalformedMember(s: string)
    ensures '|' !in s ==> ParseMember(s) == Waiter(0, "", "")
    ensures '|' in s && '|' !in s[IndexOf(s, '|') + 1..] ==>
            ParseMember(s).playerName == "" && ParseMember(s).gatewayAddr == ""
    ensures ParseMember(s).playerId != 0 ==>
            '|' in s && ParseInt(s[..IndexOf(s, '|')]) == Some(ParseMember(s).playerId)
  {
  }

  lemma OneMoreDigit(n: nat, d: nat)
    requires 0 < n && d < 10
    ensures FormatNat(10 * n + d) == FormatNat(n) + [DIGITS[d]]
  {
  }

  /** How a member is spelled. */
  lemma Spelling(w: Waiter)
    requires w.playerId == -1207
    ensures EncodeMember(w) == "-1207|" + w.playerName + "|" + w.gatewayAddr
  {
    OneMoreDigit(1, 2);
    OneMoreDigit(12, 0);
    OneMoreDigit(120, 7);
    assert FormatInt(w.playerId) == "-1207";
    assert "-1207|" == "-1207" + "|";
  }

  /* ---------- keys ---------- */

  function ResultKey(playerId: int64): string {
    "match:result:" + FormatInt(playerId)
  }

  function RouteKey(roomId: int64): string {
    "room:route:" + FormatInt(roomId)
  }

  /** Result and route keys of different ids, and of the two kinds, never collide. */
  lemma KeysAreDistinct(a: int64, b: int64)
    ensures ResultKey(a) == ResultKey(b) ==> a == b
    ensures RouteKey(a) == RouteKey(b) ==> a == b
    ensures ResultKey(a) != RouteKey(b)
  {
    ParseFormatInt(a);
    ParseFormatInt(b);
    assert ResultKey(a)[|"match:result:"|..] == FormatInt(a) && ResultKey(b)[|"match:result:"|..] == FormatInt(b);
    assert RouteKey(a)[|"room:route:"|..] == FormatInt(a) && RouteKey(b)[|"room:route:"|..] == FormatInt(b);
    assert ResultKey(a)[0] == 'm' && RouteKey(b)[0] == 'r';
  }
}
