/**
 * The room observer (player). It keeps the latest received room state and
 * a separately held "manual snapshot", and from the two decides what to
 * show: in round 2 the latest state, in round 1 the snapshot, which only
 * the first state after joining and an explicit refresh fill.
 */
module Player {
  import opened Game

  /** The player page's state: the join form's input, the room, and the two views. */
  datatype PlayerView = PlayerView(
    roomInput: string,
    roomCode: Option<string>,
    serverState: Option<RoomState>,
    manualSnapshot: Option<RoomState>)

  /**
   * The page as opened, with the `room` query parameter if one was given:
   * the room is joined at once, the form shows it, and nothing is shown yet.
   */
  function Init(roomFromUrl: Option<string>): (v: PlayerView)
    ensures v.roomCode == roomFromUrl
    ensures roomFromUrl.Some? ==> v.roomInput == roomFromUrl.value
    ensures roomFromUrl.None? ==> v.roomInput == ""
    ensures v.serverState.None? && v.manualSnapshot.None? && Display(v).None?
  {
    PlayerView(if roomFromUrl.Some? then roomFromUrl.value else "", roomFromUrl, None, None)
  }

  /**
   * The state to display: nothing before any state, else by the latest
   * state's round. Once settled, something is shown as soon as a state is
   * held, and what is shown is always the latest state or the snapshot.
   */
  function Display(v: PlayerView): (d: Option<RoomState>)
    ensures v.serverState.None? ==> d.None?
    ensures v.serverState.Some? && v.serverState.value.round == 2 ==> d == v.serverState
    ensures v.serverState.Some? && v.serverState.value.round == 1 ==> d == v.manualSnapshot
    ensures Settled(v) && v.serverState.Some? ==> d.Some?
    ensures d.Some? ==> d == v.serverState || d == v.manualSnapshot
  {
    match v.serverState
    case None => None
    case Some(s) => if s.round == 2 then v.serverState else v.manualSnapshot
  }

  // ---------------------------------------------------------------------
  // The initial-fetch effect

  /** No round-1 state is waiting for its first snapshot. */
  predicate Settled(v: PlayerView) {
    v.serverState.Some? && v.serverState.value.round == 1 ==> v.manualSnapshot.Some?
  }

  /**
   * The initial-fetch effect: while the latest state is in round 1 and no
   * snapshot is held, the snapshot takes that state. It is applied after
   * every event, as if each event were rendered before the next arrives.
   */
  function Settle(v: PlayerView): (r: PlayerView)
    ensures Settled(r)
    ensures r.roomInput == v.roomInput && r.roomCode == v.roomCode && r.serverState == v.serverState
    ensures v.manualSnapshot.Some? ==> r.manualSnapshot == v.manualSnapshot
    ensures !Settled(v) ==> r.manualSnapshot == v.serverState
    ensures Settled(v) ==> r == v
  {
    if v.serverState.Some? && v.serverState.value.round == 1 && v.manualSnapshot.None?
    then v.(manualSnapshot := v.serverState)
    else v
  }

  // ---------------------------------------------------------------------
  // Events

  /**
   * The player's message handler: a STATE is always kept; a round-2 STATE
   * is shown at once and also becomes the snapshot; a round-1 STATE leaves
   * the snapshot alone.
   */
  function OnMsg(v: PlayerView, msg: RealtimeMsg): (r: PlayerView)
    ensures r.roomInput == v.roomInput && r.roomCode == v.roomCode
    ensures msg.State? ==> r.serverState == Some(msg.state)
    ensures msg.State? && msg.state.round == 2 ==>
      r.manualSnapshot == Some(msg.state) && Display(r) == Some(msg.state)
    ensures msg.State? && msg.state.round == 1 ==>
      r.manualSnapshot == v.manualSnapshot && Display(r) == v.manualSnapshot
    ensures !msg.State? ==> r == v
  {
    match msg
    case State(s) =>
      v.(serverState := Some(s),
         manualSnapshot := if s.round == 2 then Some(s) else v.manualSnapshot)
    case _ => v
  }

  /** Pulls the latest known state into the snapshot; without one it does nothing. */
  function Refresh(v: PlayerView): (r: PlayerView)
    ensures r.roomInput == v.roomInput && r.roomCode == v.roomCode && r.serverState == v.serverState
    ensures v.serverState.Some? ==> r.manualSnapshot == v.serverState && Display(r) == v.serverState
    ensures v.serverState.None? ==> r == v
  {
    if v.serverState.None? then v else v.(manualSnapshot := v.serverState)
  }

  /** Joins the room typed in the form: ignored when the trimmed input is empty. */
  function JoinRoom(v: PlayerView): (r: PlayerView)
    ensures SpaceOnly(v.roomInput) ==> r == v
    ensures !SpaceOnly(v.roomInput) ==>
      && r.roomCode == Some(Trim(v.roomInput)) && r.roomInput == v.roomInput
      && r.serverState.None? && r.manualSnapshot.None? && Display(r).None?
  {
    var cleaned := Trim(v.roomInput);
    if cleaned == "" then v
    else v.(roomCode := Some(cleaned), serverState := None, manualSnapshot := None)
  }

  /** Leaves the room and clears everything: the page as opened without a room. */
  function Leave(v: PlayerView): (r: PlayerView)
    ensures r == Init(None) && Display(r).None?
  {
    PlayerView("", None, None, None)
  }

  datatype Event =
    | Receive(msg: RealtimeMsg)
    | TypeInput(text: string)
    | JoinFromForm
    | RefreshTime
    | LeaveGame

  /** One event followed by the initial-fetch effect. */
  function Step(v: PlayerView, e: Event): (r: PlayerView)
    ensures Settled(r)
  {
    Settle(match e
      case Receive(msg) => OnMsg(v, msg)
      case TypeInput(text) => v.(roomInput := text)
      case JoinFromForm => JoinRoom(v)
      case RefreshTime => Refresh(v)
      case LeaveGame => Leave(v))
  }

  /**
   * The JOIN the page publishes when its room changes: whenever the room
   * code changes to a non-empty value, announce `playerId` there.
   */
  function Announce(before: Option<string>, after: Option<string>, playerId: string): (m: Option<RealtimeMsg>)
    ensures m.Some? <==> after != before && after.Some? && after.value != ""
    ensures m.Some? ==> m.value.Join? && m.value.playerId == playerId && Tag(m.value) == "JOIN"
  {
    if after != before && after.Some? && after.value != "" then Some(Join(playerId))
    else None
  }

  // ---------------------------------------------------------------------
  // Trimming, as `String.prototype.trim` does it

  /** ECMAScript white space and line terminators, which `trim` removes. */
  predicate IsJsSpace(c: char) {
    var n := c as int;
    n == 0x09 || n == 0x0A || n == 0x0B || n == 0x0C || n == 0x0D || n == 0x20
    || n == 0xA0 || n == 0x1680 || (0x2000 <= n <= 0x200A) || n == 0x2028
    || n == 0x2029 || n == 0x202F || n == 0x205F || n == 0x3000 || n == 0xFEFF
  }

  predicate SpaceOnly(s: string) {
    forall k :: 0 <= k < |s| ==> IsJsSpace(s[k])
  }

  /** `t` is the slice of `s` at `i` with only white space before and after it. */
  predicate SliceBetweenSpaces(s: string, t: string, i: int) {
    0 <= i <= |s| - |t| && t == s[i..i + |t|] && SpaceOnly(s[..i]) && SpaceOnly(s[i + |t|..])
  }

  /** Drops leading white space: the result is the suffix after it. */
  function TrimStart(s: string): (t: string)
    ensures |t| <= |s| && t == s[|s| - |t|..]
    ensures SpaceOnly(s[..|s| - |t|])
    ensures |t| > 0 ==> !IsJsSpace(t[0])
    decreases |s|
  {
    if |s| == 0 || !IsJsSpace(s[0]) then s else TrimStart(s[1..])
  }

  /** Drops trailing white space: the result is the prefix before it. */
  function TrimEnd(s: string): (t: string)
    ensures |t| <= |s| && t == s[..|t|]
    ensures SpaceOnly(s[|t|..])
    ensures |t| > 0 ==> !IsJsSpace(t[|t| - 1])
    decreases |s|
  {
    if |s| == 0 || !IsJsSpace(s[|s| - 1]) then s else TrimEnd(s[..|s| - 1])
  }

  /**
   * Leading and trailing white space removed: the result is the slice of
   * the input between a white-space-only prefix and a white-space-only
   * suffix, and it neither starts nor ends with white space.
   */
  function Trim(s: string): (t: string)
    ensures exists i :: SliceBetweenSpaces(s, t, i)
    ensures |t| > 0 ==> !IsJsSpace(t[0]) && !IsJsSpace(t[|t| - 1])
    ensures |t| == 0 <==> SpaceOnly(s)
  {
    var u := TrimStart(s);
    var t := TrimEnd(u);
    TrimmedSlice(s, u, t);
    TrimmedEnds(u, t);
    TrimmedEmpty(s, u, t);
    t
  }

  /*
   * The three lemmas below take `u` as `s` without its leading white space
   * and `t` as `u` without its trailing white space, in the terms in which
   * `TrimStart` and `TrimEnd` characterise their results.
   */

  /** `t` is the slice of `s` left between the two white-space runs. */
  lemma TrimmedSlice(s: string, u: string, t: string)
    requires |u| <= |s| && u == s[|s| - |u|..] && SpaceOnly(s[..|s| - |u|])
    requires |t| <= |u| && t == u[..|t|] && SpaceOnly(u[|t|..])
    ensures SliceBetweenSpaces(s, t, |s| - |u|)
  {
    var p := |s| - |u|;
    assert t == s[p..p + |t|];
    assert u[|t|..] == s[p + |t|..];
  }

  /** `t` starts and ends with a character that is not white space. */
  lemma TrimmedEnds(u: string, t: string)
    requires |u| > 0 ==> !IsJsSpace(u[0])
    requires |t| <= |u| && t == u[..|t|]
    requires |t| > 0 ==> !IsJsSpace(t[|t| - 1])
    ensures |t| > 0 ==> !IsJsSpace(t[0]) && !IsJsSpace(t[|t| - 1])
  {
    if |t| > 0 {
      assert t[0] == u[0];
    }
  }

  /** Nothing is left exactly when `s` is all white space. */
  lemma TrimmedEmpty(s: string, u: string, t: string)
    requires |u| <= |s| && u == s[|s| - |u|..] && SpaceOnly(s[..|s| - |u|])
    requires |u| > 0 ==> !IsJsSpace(u[0])
    requires |t| <= |u| && t == u[..|t|] && SpaceOnly(u[|t|..])
    ensures |t| == 0 <==> SpaceOnly(s)
  {
    if |u| > 0 {
      assert u[0] == s[|s| - |u|];
    } else {
      assert s[..|s|] == s;
    }
  }

  // ---------------------------------------------------------------------
  // Properties of single events

  /**
   * Receiving a STATE: it becomes the latest state; in round 2 it is shown
   * at once; in round 1 the shown state is the held snapshot, or this state
   * when none was held yet.
   */
  lemma ReceiveStatePolicy(v: PlayerView, s: RoomState)
    ensures var r := Step(v, Receive(State(s)));
      && r.serverState == Some(s)
      && r.roomCode == v.roomCode
      && (s.round == 2 ==> r.manualSnapshot == Some(s) && Display(r) == Some(s))
      && (s.round == 1 && v.manualSnapshot.Some? ==>
            r.manualSnapshot == v.manualSnapshot && Display(r) == v.manualSnapshot)
      && (s.round == 1 && v.manualSnapshot.None? ==> Display(r) == Some(s))
  {
  }

  /** The player ignores every message that is not a STATE. */
  lemma OtherMessagesIgnored(v: PlayerView, msg: RealtimeMsg)
    requires Settled(v) && !msg.State?
    ensures Step(v, Receive(msg)) == v
  {
  }

  /** After a refresh the shown state is the latest one; without one nothing changes. */
  lemma RefreshShowsLatest(v: PlayerView)
    requires Settled(v)
    ensures Display(Step(v, RefreshTime)) == v.serverState
    ensures v.serverState.None? ==> Step(v, RefreshTime) == v
  {
  }

  /**
   * Joining: blank input changes nothing; otherwise the trimmed input
   * becomes the room and both views are cleared.
   */
  lemma JoinRoomEffect(v: PlayerView)
    requires Settled(v)
    ensures SpaceOnly(v.roomInput) ==> Step(v, JoinFromForm) == v
    ensures !SpaceOnly(v.roomInput) ==>
      var r := Step(v, JoinFromForm);
      && r.roomCode == Some(Trim(v.roomInput)) && r.roomInput == v.roomInput
      && r.serverState.None? && r.manualSnapshot.None? && Display(r).None?
  {
  }

  /** Leaving clears the room, the input and both views. */
  lemma LeaveClears(v: PlayerView)
    ensures Step(v, LeaveGame) == Init(None)
  {
  }

  /**
   * JOIN announcements: a successful join from the form, or opening the page
   * with a room, announces the player once; no other event announces.
   */
  lemma AnnounceOnJoin(v: PlayerView, e: Event, playerId: string)
    ensures v.roomCode.None? && e.JoinFromForm? && !SpaceOnly(v.roomInput) ==>
      Announce(v.roomCode, Step(v, e).roomCode, playerId) == Some(Join(playerId))
    ensures !e.JoinFromForm? ==> Announce(v.roomCode, Step(v, e).roomCode, playerId).None?
    ensures forall code :: code != "" ==>
      Announce(None, Init(Some(code)).roomCode, playerId) == Some(Join(playerId))
  {
  }

  // ---------------------------------------------------------------------
  // Runs of received states

  function Last<T>(s: seq<T>): T
    requires |s| > 0
  {
    s[|s| - 1]
  }

  /** Receives the states of `ss` in order. */
  function ReceiveAll(v: PlayerView, ss: seq<RoomState>): PlayerView
    decreases |ss|
  {
    if |ss| == 0 then v
    else Step(ReceiveAll(v, ss[..|ss| - 1]), Receive(State(Last(ss))))
  }

  /**
   * Reference definition of the snapshot after joining and receiving `ss`
   * with no refresh: the latest state that is either the first one or a
   * round-2 state.
   */
  function Pinned(ss: seq<RoomState>): RoomState
    requires |ss| > 0
    decreases |ss|
  {
    if |ss| == 1 || Last(ss).round == 2 then Last(ss) else Pinned(ss[..|ss| - 1])
  }

  /**
   * Reference definition of what is shown after joining and receiving `ss`
   * with no refresh: the latest state in round 2, the pinned one in round 1.
   */
  function ExpectedDisplay(ss: seq<RoomState>): RoomState
    requires |ss| > 0
  {
    if Last(ss).round == 2 then Last(ss) else Pinned(ss)
  }

  /** From a just-joined view, the observer agrees with the reference definitions. */
  lemma {:induction false} ReceiveAllMatchesReference(v: PlayerView, ss: seq<RoomState>)
    requires v.serverState.None? && v.manualSnapshot.None?
    requires |ss| > 0
    ensures var r := ReceiveAll(v, ss);
      && r.serverState == Some(Last(ss))
      && r.manualSnapshot == Some(Pinned(ss))
      && Display(r) == Some(ExpectedDisplay(ss))
    decreases |ss|
  {
    if |ss| > 1 {
      var init := ss[..|ss| - 1];
      ReceiveAllMatchesReference(v, init);
      assert init[..|init| - 1] == ss[..|ss| - 2];
    }
  }

  /** In a run of round-1 states only the first is ever pinned. */
  lemma {:induction false} PinnedRoundOne(ss: seq<RoomState>)
    requires |ss| > 0
    requires forall k :: 0 <= k < |ss| ==> ss[k].round == 1
    ensures Pinned(ss) == ss[0]
    decreases |ss|
  {
    if |ss| > 1 {
      PinnedRoundOne(ss[..|ss| - 1]);
    }
  }

  /**
   * Manual staleness: once a snapshot is held, round-1 states never change
   * it, so the display stays on it however many newer states arrive. This
   * is also why, after a return from round 2 to round 1, the page stays on
   * the final round-2 state until the player pulls a new one.
   */
  lemma {:induction false} RoundOneKeepsSnapshot(v: PlayerView, ss: seq<RoomState>)
    requires Settled(v) && v.manualSnapshot.Some?
    requires forall k :: 0 <= k < |ss| ==> ss[k].round == 1
    ensures var r := ReceiveAll(v, ss);
      && r.manualSnapshot == v.manualSnapshot
      && (|ss| > 0 ==> r.serverState == Some(Last(ss)) && Display(r) == v.manualSnapshot)
    decreases |ss|
  {
    if |ss| > 0 {
      RoundOneKeepsSnapshot(v, ss[..|ss| - 1]);
    }
  }

  /** Automatic convergence: after a round-2 state the display is exactly it. */
  lemma AutoConvergence(v: PlayerView, ss: seq<RoomState>)
    requires |ss| > 0 && Last(ss).round == 2
    ensures Display(ReceiveAll(v, ss)) == Some(Last(ss))
  {
  }

  /** Scenario: round-1 versions 1, 2, 3 leave the display at 1 until a refresh shows 3. */
  lemma ManualScenario(v: PlayerView, s1: RoomState, s2: RoomState, s3: RoomState)
    requires v.serverState.None? && v.manualSnapshot.None?
    requires s1.round == 1 && s2.round == 1 && s3.round == 1
    requires s1.version == 1 && s2.version == 2 && s3.version == 3
    ensures Display(ReceiveAll(v, [s1, s2, s3])).value.version == 1
    ensures Display(Step(ReceiveAll(v, [s1, s2, s3]), RefreshTime)).value.version == 3
  {
    ReceiveAllMatchesReference(v, [s1, s2, s3]);
    PinnedRoundOne([s1, s2, s3]);
  }

  /** Round transition: a round-1 state then a round-2 state shows the latter exactly. */
  lemma TransitionScenario(v: PlayerView, s1: RoomState, s2: RoomState)
    requires v.serverState.None? && v.manualSnapshot.None?
    requires s1.round == 1 && s2.round == 2
    ensures Display(ReceiveAll(v, [s1, s2])) == Some(s2)
  {
    AutoConvergence(v, [s1, s2]);
  }
}
