/**
 * The shared protocol vocabulary of a room: the round, the authoritative
 * room state, a player's reported snapshot and the five channel messages,
 * plus the two pure helpers every role uses, room-code generation and
 * `HH:MM:SS` time formatting.
 */
module Game {
  import opened Decimal

  datatype Option<T> = None | Some(value: T)

  /** A round is exactly 1 (manual pull) or 2 (automatic push). */
  type Round = r: int | r == 1 || r == 2 witness 1

  /** A draw of `Math.random()`: a real number in [0, 1). */
  type UnitDraw = r: real | 0.0 <= r < 1.0 witness 0.0

  /**
   * The authoritative room state. The source's `refreshOwnerId` and
   * `refreshedPlayerIds` fields are never written and are not modelled.
   */
  datatype RoomState = RoomState(
    roomCode: string,
    round: Round,
    serverEpochMs: int,
    playerCount: int,
    version: int)

  datatype PlayerSnapshot = PlayerSnapshot(
    playerId: string,
    displayEpochMs: int,
    syncedVersion: int,
    round: Round,
    sentAtMs: int)

  /** The channel messages: one tag each, with that tag's payload. */
  datatype RealtimeMsg =
    | Join(playerId: string)
    | State(state: RoomState)
    | Snapshot(snapshot: PlayerSnapshot)
    | RefreshUsed(refreshedBy: string)
    | SetRound(newRound: Round)

  /** The wire tag (`type` field) of a message: one of five upper-case names. */
  function Tag(m: RealtimeMsg): (tag: string)
    ensures tag in {"JOIN", "STATE", "PLAYER_SNAPSHOT", "REFRESH_USED", "SET_ROUND"}
    ensures tag == "JOIN" <==> m.Join?
    ensures tag == "STATE" <==> m.State?
    ensures tag == "PLAYER_SNAPSHOT" <==> m.Snapshot?
    ensures tag == "REFRESH_USED" <==> m.RefreshUsed?
    ensures tag == "SET_ROUND" <==> m.SetRound?
  {
    match m
    case Join(_) => "JOIN"
    case State(_) => "STATE"
    case Snapshot(_) => "PLAYER_SNAPSHOT"
    case RefreshUsed(_) => "REFRESH_USED"
    case SetRound(_) => "SET_ROUND"
  }

  /** Two messages carry the same tag exactly when they are the same kind. */
  lemma TagDeterminesKind(a: RealtimeMsg, b: RealtimeMsg)
    ensures Tag(a) == Tag(b) <==>
      (a.Join? && b.Join?) || (a.State? && b.State?) || (a.Snapshot? && b.Snapshot?)
      || (a.RefreshUsed? && b.RefreshUsed?) || (a.SetRound? && b.SetRound?)
  {
  }

  // ---------------------------------------------------------------------
  // Room codes

  /** `Math.floor(100000 + draw * 900000)`. */
  function RoomCodeValue(draw: UnitDraw): (n: nat)
    ensures 100000 <= n <= 999999
  {
    (100000.0 + draw * 900000.0).Floor
  }

  /** The room code: the decimal string of `RoomCodeValue(draw)`. */
  function GenerateRoomCode(draw: UnitDraw): (code: string)
    ensures |code| == 6 && AllDigits(code) && code[0] != '0'
    ensures ParseDecimal(code) == RoomCodeValue(draw)
    ensures 100000 <= ParseDecimal(code) <= 999999
  {
    var n := RoomCodeValue(draw);
    assert Pow10(5) == 100000 && Pow10(6) == 1000000;
    NatToStringLength(n, 6);
    ParseNatToString(n);
    NatToString(n)
  }

  /**
   * Seen as an integer draw `k` in [0, 900000), the code is `100000 + k`;
   * in particular every six-digit code in [100000, 999999] can be drawn.
   */
  lemma RoomCodeFromIntegerDraw(k: int)
    requires 0 <= k < 900000
    ensures var draw: UnitDraw := k as real / 900000.0;
      RoomCodeValue(draw) == 100000 + k
  {
    var draw: UnitDraw := k as real / 900000.0;
    assert draw * 900000.0 == k as real;
  }

  // ---------------------------------------------------------------------
  // Time formatting

  /**
   * The local-time decomposition of an epoch instant, as `Date`'s
   * `getHours`, `getMinutes` and `getSeconds` return it. The time zone
   * lookup itself is outside the model: callers supply the components.
   */
  datatype LocalTime = LocalTime(hours: nat, minutes: nat, seconds: nat)

  predicate InRange(t: LocalTime) {
    t.hours < 24 && t.minutes < 60 && t.seconds < 60
  }

  /** `String(n).padStart(2, "0")`. */
  function Pad2(n: nat): (s: string)
    ensures n < 100 ==> |s| == 2 && s[0] == DigitChar(n / 10) && s[1] == DigitChar(n % 10)
    ensures n >= 100 ==> s == NatToString(n)
  {
    var digits := NatToString(n);
    if |digits| >= 2 then digits else "0" + digits
  }

  /** `HH:MM:SS` with each field padded to two digits. */
  function FormatTime(t: LocalTime): (s: string)
    ensures InRange(t) ==> |s| == 8 && s[2] == ':' && s[5] == ':'
    ensures InRange(t) ==> forall i :: 0 <= i < 8 && i != 2 && i != 5 ==> IsDigit(s[i])
  {
    Pad2(t.hours) + ":" + Pad2(t.minutes) + ":" + Pad2(t.seconds)
  }

  function TwoDigitValue(a: char, b: char): nat
    requires IsDigit(a) && IsDigit(b)
  {
    10 * DigitValue(a) + DigitValue(b)
  }

  /**
   * Reads an `HH:MM:SS` string back into its components; `None` unless
   * the shape is exact and every component is in its clock range.
   */
  function ParseTime(s: string): Option<LocalTime> {
    if |s| == 8 && s[2] == ':' && s[5] == ':'
       && IsDigit(s[0]) && IsDigit(s[1]) && IsDigit(s[3])
       && IsDigit(s[4]) && IsDigit(s[6]) && IsDigit(s[7])
    then
      var t := LocalTime(TwoDigitValue(s[0], s[1]), TwoDigitValue(s[3], s[4]),
                         TwoDigitValue(s[6], s[7]));
      if InRange(t) then Some(t) else None
    else None
  }

  /** Reading the fields of a formatted in-range time recovers it. */
  lemma FormatTimeRoundTrip(t: LocalTime)
    requires InRange(t)
    ensures ParseTime(FormatTime(t)) == Some(t)
  {
    var s := FormatTime(t);
    assert s[0] == DigitChar(t.hours / 10) && s[1] == DigitChar(t.hours % 10);
    assert s[3] == DigitChar(t.minutes / 10) && s[4] == DigitChar(t.minutes % 10);
    assert s[6] == DigitChar(t.seconds / 10) && s[7] == DigitChar(t.seconds % 10);
  }

  /** Every string that reads as a time is exactly that time's formatting. */
  lemma ParseTimeFormats(s: string, t: LocalTime)
    requires ParseTime(s) == Some(t)
    ensures FormatTime(t) == s
  {
    var f := FormatTime(t);
    assert |f| == 8;
    forall i | 0 <= i < 8
      ensures f[i] == s[i]
    {
      DigitRoundTrip(s[0], s[1]);
      DigitRoundTrip(s[3], s[4]);
      DigitRoundTrip(s[6], s[7]);
    }
  }

  lemma DigitRoundTrip(a: char, b: char)
    requires IsDigit(a) && IsDigit(b)
    ensures DigitChar(TwoDigitValue(a, b) / 10) == a
    ensures DigitChar(TwoDigitValue(a, b) % 10) == b
  {
  }
}
