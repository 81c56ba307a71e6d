/**
 * The aggregation view (board). It holds the latest authoritative state and
 * the latest snapshot of each player, lists the players ordered by id, and
 * classifies each player's view as fresh or stale against the authority.
 */
module Board {
  import opened Decimal
  import opened Game

  /** The board's state: the latest room state and the snapshots by player id. */
  datatype BoardView = BoardView(serverState: Option<RoomState>, snapshots: map<string, PlayerSnapshot>)

  const Empty := BoardView(None, map[])

  /** Every snapshot is filed under its own player id. */
  ghost predicate WellKeyed(m: map<string, PlayerSnapshot>) {
    forall k :: k in m ==> m[k].playerId == k
  }

  /**
   * The board's message handler: a STATE replaces the held state, a
   * PLAYER_SNAPSHOT upserts under its player id, anything else is ignored.
   */
  function OnMsg(b: BoardView, msg: RealtimeMsg): (r: BoardView)
    ensures msg.State? ==> r.serverState == Some(msg.state) && r.snapshots == b.snapshots
    ensures msg.Snapshot? ==>
      && r.serverState == b.serverState
      && r.snapshots.Keys == b.snapshots.Keys + {msg.snapshot.playerId}
      && r.snapshots[msg.snapshot.playerId] == msg.snapshot
      && forall k :: k in b.snapshots && k != msg.snapshot.playerId ==> r.snapshots[k] == b.snapshots[k]
    ensures !msg.State? && !msg.Snapshot? ==> r == b
    ensures WellKeyed(b.snapshots) ==> WellKeyed(r.snapshots)
  {
    match msg
    case State(s) => b.(serverState := Some(s))
    case Snapshot(p) => b.(snapshots := b.snapshots[p.playerId := p])
    case _ => b
  }

  function ReceiveAll(b: BoardView, msgs: seq<RealtimeMsg>): BoardView
    decreases |msgs|
  {
    if |msgs| == 0 then b else OnMsg(ReceiveAll(b, msgs[..|msgs| - 1]), msgs[|msgs| - 1])
  }

  /** The last snapshot of `id` among `msgs`, if any. */
  function LastSnapshotOf(msgs: seq<RealtimeMsg>, id: string): Option<PlayerSnapshot>
    decreases |msgs|
  {
    if |msgs| == 0 then None
    else
      var m := msgs[|msgs| - 1];
      if m.Snapshot? && m.snapshot.playerId == id then Some(m.snapshot)
      else LastSnapshotOf(msgs[..|msgs| - 1], id)
  }

  /**
   * Last arrival wins: after any run of messages each player's entry is the
   * last snapshot that player sent, or the earlier entry when it sent none.
   */
  lemma {:induction false} ReceiveAllLastWins(b: BoardView, msgs: seq<RealtimeMsg>, id: string)
    ensures var r := ReceiveAll(b, msgs);
      match LastSnapshotOf(msgs, id)
      case Some(p) => id in r.snapshots && r.snapshots[id] == p
      case None => (id in r.snapshots <==> id in b.snapshots)
                   && (id in b.snapshots ==> r.snapshots[id] == b.snapshots[id])
    decreases |msgs|
  {
    if |msgs| > 0 {
      ReceiveAllLastWins(b, msgs[..|msgs| - 1], id);
    }
  }

  /** Every board built from messages keeps each snapshot under its own id. */
  lemma {:induction false} ReceiveAllWellKeyed(msgs: seq<RealtimeMsg>)
    ensures WellKeyed(ReceiveAll(Empty, msgs).snapshots)
    decreases |msgs|
  {
    if |msgs| > 0 {
      ReceiveAllWellKeyed(msgs[..|msgs| - 1]);
    }
  }

  // ---------------------------------------------------------------------
  // Ordering players by id

  /**
   * Lexicographic order on strings by character code. The source uses
   * `localeCompare`, a locale-dependent collation; this is its plain-code
   * counterpart.
   */
  predicate LexLess(a: string, b: string)
    decreases |a|
  {
    if |a| == 0 then |b| > 0
    else if |b| == 0 then false
    else if a[0] != b[0] then a[0] < b[0]
    else LexLess(a[1..], b[1..])
  }

  lemma {:induction false} LexLessIrreflexive(a: string)
    ensures !LexLess(a, a)
    decreases |a|
  {
    if |a| > 0 {
      LexLessIrreflexive(a[1..]);
    }
  }

  lemma {:induction false} LexLessTransitive(a: string, b: string, c: string)
    requires LexLess(a, b) && LexLess(b, c)
    ensures LexLess(a, c)
    decreases |a|
  {
    if |a| > 0 && a[0] == b[0] && b[0] == c[0] {
      LexLessTransitive(a[1..], b[1..], c[1..]);
    }
  }

  lemma {:induction false} LexLessTotal(a: string, b: string)
    requires a != b
    ensures LexLess(a, b) || LexLess(b, a)
    decreases |a|
  {
    if |a| > 0 && |b| > 0 && a[0] == b[0] {
      assert a == [a[0]] + a[1..] && b == [b[0]] + b[1..];
      LexLessTotal(a[1..], b[1..]);
    }
  }

  /** Strictly increasing player ids. */
  ghost predicate SortedById(ps: seq<PlayerSnapshot>) {
    forall i, j :: 0 <= i < j < |ps| ==> LexLess(ps[i].playerId, ps[j].playerId)
  }

  /** A list sorted by id holds no id twice. */
  lemma SortedIdsDistinct(ps: seq<PlayerSnapshot>, i: int, j: int)
    requires SortedById(ps)
    requires 0 <= i < |ps| && 0 <= j < |ps| && i != j
    ensures ps[i].playerId != ps[j].playerId
  {
    if i < j {
      LexLessIrreflexive(ps[i].playerId);
    } else {
      LexLessIrreflexive(ps[j].playerId);
    }
  }

  /** Inserts `p` at its place in a list sorted by id that lacks its id. */
  function Insert(ps: seq<PlayerSnapshot>, p: PlayerSnapshot): (r: seq<PlayerSnapshot>)
    requires SortedById(ps)
    requires forall i :: 0 <= i < |ps| ==> ps[i].playerId != p.playerId
    ensures SortedById(r)
    ensures |r| == |ps| + 1
    ensures forall x :: x in r <==> x in ps || x == p
    decreases |ps|
  {
    if |ps| == 0 then [p]
    else if LexLess(p.playerId, ps[0].playerId) then
      assert forall j :: 0 < j < |ps| ==> LexLess(p.playerId, ps[j].playerId) by {
        forall j | 0 < j < |ps| ensures LexLess(p.playerId, ps[j].playerId) {
          LexLessTransitive(p.playerId, ps[0].playerId, ps[j].playerId);
        }
      }
      [p] + ps
    else
      LexLessTotal(p.playerId, ps[0].playerId);
      var tail := Insert(ps[1..], p);
      assert forall x :: x in tail ==> LexLess(ps[0].playerId, x.playerId);
      [ps[0]] + tail
  }

  /**
   * The board's player list: every snapshot exactly once, ordered by
   * player id.
   */
  method Players(m: map<string, PlayerSnapshot>) returns (ps: seq<PlayerSnapshot>)
    requires WellKeyed(m)
    ensures SortedById(ps)
    ensures |ps| == |m|
    ensures forall i :: 0 <= i < |ps| ==> ps[i].playerId in m && m[ps[i].playerId] == ps[i]
    ensures forall k :: k in m ==> m[k] in ps
  {
    ps := [];
    var rest := m.Keys;
    ghost var done: set<string> := {};
    while rest != {}
      invariant rest !! done && rest + done == m.Keys
      invariant SortedById(ps)
      invariant |ps| == |done|
      invariant forall x :: x in ps ==> x.playerId in done && m[x.playerId] == x
      invariant forall k :: k in done ==> m[k] in ps
      decreases rest
    {
      var k :| k in rest;
      assert m[k].playerId == k;
      ps := Insert(ps, m[k]);
      rest := rest - {k};
      done := done + {k};
    }
    assert done == m.Keys;
  }

  // ---------------------------------------------------------------------
  // Per-player classification

  datatype Badge = Fresh | Stale

  /**
   * Synced when there is no authoritative state, or the versions agree:
   * without a state every player counts as synced, with one exactly the
   * players that report its version.
   */
  function IsSynced(server: Option<RoomState>, p: PlayerSnapshot): (synced: bool)
    ensures server.None? ==> synced
    ensures server.Some? ==> (synced <==> p.syncedVersion == server.value.version)
  {
    server.None? || p.syncedVersion == server.value.version
  }

  function BadgeOf(server: Option<RoomState>, p: PlayerSnapshot): (badge: Badge)
    ensures badge == Fresh <==> IsSynced(server, p)
    ensures badge == Stale <==> server.Some? && p.syncedVersion != server.value.version
  {
    if IsSynced(server, p) then Fresh else Stale
  }

  /**
   * Once the board holds state `s`, a player is fresh exactly when its
   * snapshot was derived from `s`'s version (so with version 5, a snapshot
   * of version 5 is fresh and one of version 4 is stale).
   */
  lemma BadgeAfterState(b: BoardView, s: RoomState, p: PlayerSnapshot)
    ensures BadgeOf(OnMsg(b, State(s)).serverState, p) == Fresh <==> p.syncedVersion == s.version
  {
  }

  /**
   * Staleness is emergent: a fresh player turns stale as soon as the board
   * receives a newer authoritative version.
   */
  lemma NewerStateMakesStale(b: BoardView, p: PlayerSnapshot, s: RoomState)
    requires b.serverState.Some? && BadgeOf(b.serverState, p) == Fresh
    requires s.version > b.serverState.value.version
    ensures BadgeOf(OnMsg(b, State(s)).serverState, p) == Stale
  {
  }

  /** `Math.round`: the nearest integer, halves rounded up. */
  function JsRound(x: real): (n: int)
    ensures n as real - 0.5 <= x < n as real + 0.5
  {
    (x + 0.5).Floor
  }

  /** `Math.round((display - server) / 1000)`, or 0 without a state. */
  function DeltaSec(server: Option<RoomState>, p: PlayerSnapshot): (n: int)
    ensures server.None? ==> n == 0
    ensures server.Some? ==>
      var d := p.displayEpochMs - server.value.serverEpochMs;
      n * 1000 - 500 <= d < n * 1000 + 500
  {
    match server
    case None => 0
    case Some(s) => JsRound((p.displayEpochMs - s.serverEpochMs) as real / 1000.0)
  }

  /** On integer milliseconds the rounding is `floor((d + 500) / 1000)`. */
  lemma DeltaSecIntegerForm(server: RoomState, p: PlayerSnapshot)
    ensures DeltaSec(Some(server), p) == (p.displayEpochMs - server.serverEpochMs + 500) / 1000
  {
    var d := p.displayEpochMs - server.serverEpochMs;
    var n := DeltaSec(Some(server), p);
    var q := (d + 500) / 1000;
    assert q * 1000 <= d + 500 < q * 1000 + 1000;
    assert n * 1000 <= d + 500 < n * 1000 + 1000;
  }

  /** The rounding examples: +7000 ms is 7 s, -3000 ms is -3 s, -500 ms is 0 s. */
  lemma DeltaSecExamples(server: RoomState, p: PlayerSnapshot)
    ensures p.displayEpochMs == server.serverEpochMs + 7000 ==> DeltaSec(Some(server), p) == 7
    ensures p.displayEpochMs == server.serverEpochMs - 3000 ==> DeltaSec(Some(server), p) == -3
    ensures p.displayEpochMs == server.serverEpochMs - 500 ==> DeltaSec(Some(server), p) == 0
  {
    DeltaSecIntegerForm(server, p);
  }

  /** "Δ 0s", "Δ +Ns" or "Δ -Ns". */
  function DeltaLabel(n: int): (text: string)
    ensures |text| >= 4 && text[..2] == "Δ " && text[|text| - 1] == 's'
  {
    if n == 0 then "Δ 0s"
    else if n > 0 then "Δ +" + NatToString(n) + "s"
    else "Δ " + IntToString(n) + "s"
  }

  /** Reads a delta label back into its number of seconds. */
  function ParseDeltaLabel(text: string): Option<int> {
    if |text| >= 4 && text[..2] == "Δ " && text[|text| - 1] == 's' then
      var body := text[2..|text| - 1];
      if body == "0" then Some(0)
      else if |body| >= 2 && body[0] == '+' && Canonical(body[1..]) && body[1] != '0' then
        Some(ParseDecimal(body[1..]))
      else if |body| >= 2 && body[0] == '-' && Canonical(body[1..]) && body[1] != '0' then
        Some(-(ParseDecimal(body[1..]) as int))
      else None
    else None
  }

  /** The label names the delta exactly. */
  lemma DeltaLabelRoundTrip(n: int)
    ensures ParseDeltaLabel(DeltaLabel(n)) == Some(n)
  {
    if n == 0 {
      ZeroLabelReads();
    } else if n > 0 {
      PositiveLabelReads(n);
    } else {
      NegativeLabelReads(n);
    }
  }

  lemma ZeroLabelReads()
    ensures ParseDeltaLabel(DeltaLabel(0)) == Some(0)
  {
    var text := DeltaLabel(0);
    assert text == "Δ 0s";
    assert text[..2] == "Δ " && text[|text| - 1] == 's';
    assert text[2..|text| - 1] == "0";
  }

  lemma PositiveLabelReads(n: int)
    requires n > 0
    ensures ParseDeltaLabel(DeltaLabel(n)) == Some(n)
  {
    var digits := NatToString(n);
    ParseNatToString(n);
    assert DeltaLabel(n) == "Δ " + ['+'] + digits + "s";
    SignedLabelReads("Δ " + ['+'] + digits + "s", '+', digits);
  }

  lemma NegativeLabelReads(n: int)
    requires n < 0
    ensures ParseDeltaLabel(DeltaLabel(n)) == Some(n)
  {
    var digits := NatToString(-n);
    ParseNatToString(-n);
    assert IntToString(n) == ['-'] + digits;
    assert DeltaLabel(n) == "Δ " + (['-'] + digits) + "s";
    assert "Δ " + (['-'] + digits) + "s" == "Δ " + ['-'] + digits + "s";
    SignedLabelReads("Δ " + ['-'] + digits + "s", '-', digits);
  }

  /** A label "Δ " + sign + numeral + "s" reads back as the signed numeral. */
  lemma SignedLabelReads(text: string, sign: char, digits: string)
    requires Canonical(digits) && digits[0] != '0'
    requires text == "Δ " + [sign] + digits + "s"
    requires sign == '+' || sign == '-'
    ensures sign == '+' ==> ParseDeltaLabel(text) == Some(ParseDecimal(digits))
    ensures sign == '-' ==> ParseDeltaLabel(text) == Some(-(ParseDecimal(digits) as int))
  {
    var body := text[2..|text| - 1];
    assert text[..2] == "Δ ";
    assert text[|text| - 1] == 's';
    assert body == [sign] + digits;
    assert body[1..] == digits;
  }

  /** Distinct deltas get distinct labels. */
  lemma DeltaLabelInjective(m: int, n: int)
    ensures DeltaLabel(m) == DeltaLabel(n) <==> m == n
  {
    DeltaLabelRoundTrip(m);
    DeltaLabelRoundTrip(n);
  }

  // ---------------------------------------------------------------------
  // Short ids and the player count

  /** ASCII upper-casing of one character. */
  function UpperChar(c: char): char {
    if 'a' <= c <= 'z' then (c as int - 32) as char else c
  }

  /**
   * The upper-cased first (up to) four characters of an id. Characters are
   * Unicode scalar values here; `slice` counts UTF-16 code units, which is
   * the same for characters of the Basic Multilingual Plane.
   */
  function ShortId(id: string): (r: string)
    ensures |r| == if |id| < 4 then |id| else 4
    ensures forall i :: 0 <= i < |r| ==> r[i] == UpperChar(id[i])
    ensures forall i :: 0 <= i < |r| ==> !('a' <= r[i] <= 'z')
  {
    var n := if |id| < 4 then |id| else 4;
    seq(n, i requires 0 <= i < n => UpperChar(id[i]))
  }

  /** Shortening is idempotent. */
  lemma ShortIdIdempotent(id: string)
    ensures ShortId(ShortId(id)) == ShortId(id)
  {
  }

  /** Ids that agree up to ASCII case on their first four characters shorten alike. */
  lemma ShortIdIgnoresCase(a: string, b: string)
    requires |a| == |b| || (|a| >= 4 && |b| >= 4)
    requires forall i :: 0 <= i < |a| && i < |b| && i < 4 ==> UpperChar(a[i]) == UpperChar(b[i])
    ensures ShortId(a) == ShortId(b)
  {
  }

  /**
   * The players figure: the authority's count, or without one the number
   * of players the board holds a snapshot of.
   */
  function PlayerCountShown(b: BoardView): (n: int)
    ensures b.serverState.Some? ==> n == b.serverState.value.playerCount
    ensures b.serverState.None? ==> n == |b.snapshots|
  {
    if b.serverState.Some? then b.serverState.value.playerCount else |b.snapshots|
  }

  /** The ids of the players that sent a snapshot among `msgs`. */
  function SnapshotSenders(msgs: seq<RealtimeMsg>): set<string>
    decreases |msgs|
  {
    if |msgs| == 0 then {}
    else
      var m := msgs[|msgs| - 1];
      SnapshotSenders(msgs[..|msgs| - 1]) + (if m.Snapshot? then {m.snapshot.playerId} else {})
  }

  /**
   * Before any authoritative state arrives, the players figure is the
   * number of distinct players that have sent a snapshot.
   */
  lemma {:induction false} FallbackCountsSenders(msgs: seq<RealtimeMsg>)
    requires forall k :: 0 <= k < |msgs| ==> !msgs[k].State?
    ensures ReceiveAll(Empty, msgs).serverState.None?
    ensures ReceiveAll(Empty, msgs).snapshots.Keys == SnapshotSenders(msgs)
    ensures PlayerCountShown(ReceiveAll(Empty, msgs)) == |SnapshotSenders(msgs)|
    decreases |msgs|
  {
    if |msgs| > 0 {
      FallbackCountsSenders(msgs[..|msgs| - 1]);
    }
    var m := ReceiveAll(Empty, msgs).snapshots;
    assert |m| == |m.Keys|;
  }
}
