/**
 * The room authority (presenter). It owns the room state and is the only
 * role that changes it: the buttons of the control page and the first JOIN
 * of each player each move the state on and raise the version by one. The
 * set of player ids already seen makes a repeated JOIN a no-op.
 */
module Presenter {
  import opened Game

  /** The authority's state: the room state and the ids of joined players. */
  datatype Authority = Authority(state: RoomState, knownPlayers: set<string>)

  /**
   * The authority invariant: the broadcast player count is the number of
   * distinct ids seen, and the version has counted at least every join.
   */
  ghost predicate Valid(a: Authority) {
    a.state.playerCount == |a.knownPlayers| && a.state.version > a.state.playerCount
  }

  /** The state a freshly opened presenter holds, created at `nowMs`. */
  function Init(roomCode: string, nowMs: int): (a: Authority)
    ensures Valid(a) && a.knownPlayers == {}
    ensures a.state.roomCode == roomCode && a.state.serverEpochMs == nowMs
    ensures a.state.round == 1 && a.state.playerCount == 0 && a.state.version == 1
  {
    Authority(RoomState(roomCode, 1, nowMs, 0, 1), {})
  }

  // ---------------------------------------------------------------------
  // Operator actions

  /** Switches to `round` (even the current one); only round and version change. */
  function SetRound(a: Authority, round: Round): (r: Authority)
    ensures r.state.round == round && r.state.version == a.state.version + 1
    ensures r.state.roomCode == a.state.roomCode && r.state.serverEpochMs == a.state.serverEpochMs
    ensures r.state.playerCount == a.state.playerCount && r.knownPlayers == a.knownPlayers
  {
    a.(state := a.state.(round := round, version := a.state.version + 1))
  }

  /** Moves the virtual server time by `deltaMs` (either sign). */
  function AdjustTime(a: Authority, deltaMs: int): (r: Authority)
    ensures r.state.serverEpochMs - a.state.serverEpochMs == deltaMs
    ensures r.state.version == a.state.version + 1
    ensures r.state.roomCode == a.state.roomCode && r.state.round == a.state.round
    ensures r.state.playerCount == a.state.playerCount && r.knownPlayers == a.knownPlayers
  {
    a.(state := a.state.(serverEpochMs := a.state.serverEpochMs + deltaMs,
                         version := a.state.version + 1))
  }

  /** `Math.floor((draw * 10 - 5) * 60000)`: a jump within five minutes. */
  function RandomJumpDelta(draw: UnitDraw): (deltaMs: int)
    ensures -300000 <= deltaMs <= 299999
  {
    ((draw * 10.0 - 5.0) * 60000.0).Floor
  }

  /** A random time jump, with `Math.random()` supplied as `draw`. */
  function RandomJump(a: Authority, draw: UnitDraw): (r: Authority)
    ensures r == AdjustTime(a, RandomJumpDelta(draw))
    ensures -300000 <= r.state.serverEpochMs - a.state.serverEpochMs <= 299999
  {
    AdjustTime(a, RandomJumpDelta(draw))
  }

  /** Resets the virtual server time to the real time `nowMs`. */
  function ResetToNow(a: Authority, nowMs: int): (r: Authority)
    ensures r.state.serverEpochMs == nowMs && r.state.version == a.state.version + 1
    ensures r.state.roomCode == a.state.roomCode && r.state.round == a.state.round
    ensures r.state.playerCount == a.state.playerCount && r.knownPlayers == a.knownPlayers
  {
    a.(state := a.state.(serverEpochMs := nowMs, version := a.state.version + 1))
  }

  // ---------------------------------------------------------------------
  // Incoming messages

  /**
   * The presenter's message handler: a JOIN from an unseen id records it,
   * recounts the players and bumps the version; everything else is ignored.
   */
  function OnMsg(a: Authority, msg: RealtimeMsg): (r: Authority)
    ensures msg.Join? && msg.playerId !in a.knownPlayers ==>
      && r.knownPlayers == a.knownPlayers + {msg.playerId}
      && r.state == a.state.(playerCount := |a.knownPlayers| + 1, version := a.state.version + 1)
    ensures !(msg.Join? && msg.playerId !in a.knownPlayers) ==> r == a
  {
    match msg
    case Join(id) =>
      if id in a.knownPlayers then a
      else
        var known := a.knownPlayers + {id};
        Authority(a.state.(playerCount := |known|, version := a.state.version + 1), known)
    case _ => a
  }

  /** A duplicate JOIN changes nothing: joining is idempotent. */
  lemma JoinIdempotent(a: Authority, id: string)
    ensures OnMsg(OnMsg(a, Join(id)), Join(id)) == OnMsg(a, Join(id))
    ensures id in OnMsg(a, Join(id)).knownPlayers
  {
  }

  /** Two JOINs of the same fresh id from a new room count one player, one bump. */
  lemma DoubleJoinCountsOnce(roomCode: string, nowMs: int, id: string)
    ensures var a := OnMsg(OnMsg(Init(roomCode, nowMs), Join(id)), Join(id));
      a.state.playerCount == 1 && a.state.version == 2
  {
  }

  // ---------------------------------------------------------------------
  // Everything the presenter reacts to, and runs of it

  datatype Action =
    | ChooseRound(round: Round)
    | Adjust(deltaMs: int)
    | Jump(draw: UnitDraw)
    | Reset(nowMs: int)
    | Receive(msg: RealtimeMsg)

  function Apply(a: Authority, act: Action): Authority {
    match act
    case ChooseRound(round) => SetRound(a, round)
    case Adjust(d) => AdjustTime(a, d)
    case Jump(draw) => RandomJump(a, draw)
    case Reset(now) => ResetToNow(a, now)
    case Receive(msg) => OnMsg(a, msg)
  }

  /** The actions that mutate the room: every operator action and a first JOIN. */
  predicate Mutates(a: Authority, act: Action) {
    !act.Receive? || (act.msg.Join? && act.msg.playerId !in a.knownPlayers)
  }

  /**
   * One step either leaves the authority exactly as it was or bumps the
   * version by exactly one, and it does the latter precisely when it mutates.
   */
  lemma ApplyVersionStep(a: Authority, act: Action)
    ensures Mutates(a, act) ==> Apply(a, act).state.version == a.state.version + 1
    ensures !Mutates(a, act) ==> Apply(a, act) == a
  {
  }

  /** Every step keeps the authority invariant. */
  lemma ApplyValid(a: Authority, act: Action)
    requires Valid(a)
    ensures Valid(Apply(a, act))
  {
    if act.Receive? && act.msg.Join? && act.msg.playerId !in a.knownPlayers {
      assert |a.knownPlayers + {act.msg.playerId}| == |a.knownPlayers| + 1;
    }
  }

  function Run(a: Authority, acts: seq<Action>): Authority
    decreases |acts|
  {
    if |acts| == 0 then a else Run(Apply(a, acts[0]), acts[1..])
  }

  /** The authorities after each prefix of `acts`: `[a, after 1, after 2, ...]`. */
  function Trace(a: Authority, acts: seq<Action>): (tr: seq<Authority>)
    ensures |tr| == |acts| + 1 && tr[0] == a && tr[|acts|] == Run(a, acts)
    decreases |acts|
  {
    if |acts| == 0 then [a] else [a] + Trace(Apply(a, acts[0]), acts[1..])
  }

  /** The number of mutating steps in a run. */
  function Mutations(a: Authority, acts: seq<Action>): nat
    decreases |acts|
  {
    if |acts| == 0 then 0
    else (if Mutates(a, acts[0]) then 1 else 0) + Mutations(Apply(a, acts[0]), acts[1..])
  }

  /**
   * Over any run the invariant holds and the version grows by exactly the
   * number of mutating steps.
   */
  lemma {:induction false} RunVersion(a: Authority, acts: seq<Action>)
    requires Valid(a)
    ensures Valid(Run(a, acts))
    ensures Run(a, acts).state.version == a.state.version + Mutations(a, acts)
    decreases |acts|
  {
    if |acts| > 0 {
      ApplyValid(a, acts[0]);
      ApplyVersionStep(a, acts[0]);
      RunVersion(Apply(a, acts[0]), acts[1..]);
    }
  }

  /**
   * Version monotonicity across a run: versions never decrease, and two
   * points of the run that show the same version hold identical authorities.
   */
  lemma {:induction false} TraceVersionsOrdered(a: Authority, acts: seq<Action>, i: nat, j: nat)
    requires i <= j < |acts| + 1
    ensures Trace(a, acts)[i].state.version <= Trace(a, acts)[j].state.version
    ensures Trace(a, acts)[i].state.version == Trace(a, acts)[j].state.version ==>
              Trace(a, acts)[i] == Trace(a, acts)[j]
    decreases |acts|
  {
    if i < j {
      var b := Apply(a, acts[0]);
      var tr := Trace(a, acts);
      assert tr[1..] == Trace(b, acts[1..]);
      ApplyVersionStep(a, acts[0]);
      if i == 0 {
        TraceVersionsOrdered(b, acts[1..], 0, j - 1);
      } else {
        TraceVersionsOrdered(b, acts[1..], i - 1, j - 1);
      }
    }
  }

  /** The messages received in a run of JOINs from the given ids. */
  function Joins(ids: seq<string>): (acts: seq<Action>)
    ensures |acts| == |ids|
    ensures forall k :: 0 <= k < |ids| ==> acts[k] == Receive(Join(ids[k]))
  {
    if |ids| == 0 then [] else [Receive(Join(ids[0]))] + Joins(ids[1..])
  }

  /** The distinct ids of a sequence. */
  function IdSet(ids: seq<string>): set<string> {
    if |ids| == 0 then {} else {ids[0]} + IdSet(ids[1..])
  }

  /**
   * Receiving JOINs from `ids` (duplicates allowed) records exactly their
   * set, counts the distinct players, and bumps the version once per newly
   * seen id.
   */
  lemma {:induction false} RunJoins(a: Authority, ids: seq<string>)
    requires Valid(a)
    ensures var r := Run(a, Joins(ids));
      && r.knownPlayers == a.knownPlayers + IdSet(ids)
      && r.state.playerCount == |r.knownPlayers|
      && r.state.version - a.state.version == |r.knownPlayers| - |a.knownPlayers|
      && r.state.round == a.state.round && r.state.serverEpochMs == a.state.serverEpochMs
    decreases |ids|
  {
    if |ids| > 0 {
      var b := OnMsg(a, Join(ids[0]));
      JoinStep(a, ids[0]);
      RunJoinsUnfold(a, ids);
      RunJoins(b, ids[1..]);
    }
  }

  /** One JOIN keeps the invariant and bumps the version once per new id. */
  lemma JoinStep(a: Authority, id: string)
    requires Valid(a)
    ensures var b := OnMsg(a, Join(id));
      && Valid(b)
      && b.knownPlayers == a.knownPlayers + {id}
      && b.state.version - a.state.version == |b.knownPlayers| - |a.knownPlayers|
      && b.state.round == a.state.round && b.state.serverEpochMs == a.state.serverEpochMs
  {
    if id !in a.knownPlayers {
      assert |a.knownPlayers + {id}| == |a.knownPlayers| + 1;
    }
  }

  /** A run of JOINs is its first JOIN followed by the rest. */
  lemma RunJoinsUnfold(a: Authority, ids: seq<string>)
    requires |ids| > 0
    ensures Run(a, Joins(ids)) == Run(OnMsg(a, Join(ids[0])), Joins(ids[1..]))
  {
    assert Joins(ids)[0] == Receive(Join(ids[0]));
    assert Joins(ids)[1..] == Joins(ids[1..]);
  }
}
