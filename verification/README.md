# QueryHoot room-state synchronisation, modelled in Dafny

QueryHoot is a "shared clock" game. It shows the difference between state a client refreshes by hand and state the server pushes automatically. There are three roles:

- The **presenter** owns the room state and is the only role that changes it: round, virtual server time, player count and version. It reacts to operator actions and to `JOIN` messages.
- **Players** receive `STATE` broadcasts. In round 1 they show a manually pulled snapshot. In round 2 they show every state as it arrives.
- The **board** keeps the latest state and each player's latest snapshot. It labels each player FRESH or STALE and shows a rounded time difference.

Each page's state is a Dafny datatype. Each handler is a function from the old state and one event to the new state:

| file | module | source |
|---|---|---|
| decimal.dfy | `Decimal` | `String(n)` / `toString()` of integers of magnitude below 10^21, and reading numerals back |
| game.dfy | `Game` | `src/lib/game.ts`: rounds, `RoomState`, `PlayerSnapshot`, the five messages, room codes, `formatTime` |
| channel.dfy | `Channel` | `src/lib/ably.ts`: `roomChannelName` |
| clock.dfy | `Clock` | `src/components/clock/AnalogClock.tsx`: hand angles |
| presenter.dfy | `Presenter` | `src/components/pages/Presenter.tsx`: the authority reducer |
| player.dfy | `Player` | `src/components/pages/Player.tsx`: the observer and its display policy |
| board.dfy | `Board` | `src/components/pages/Board.tsx`: aggregation, ordering, freshness, deltas |
| protocol.dfy | `Protocol` | a property across presenter and board |

What the pages read from the browser and the clock is passed in as an argument:

- `Date.now()` becomes an integer argument.
- `Math.random()` becomes a `UnitDraw`, a real number in [0, 1).
- The local-time breakdown that `new Date(ms).getHours()` and its siblings perform becomes a `LocalTime` argument.

`Round` is a subset type, so it admits exactly 1 and 2. `RealtimeMsg` is a datatype with one constructor per wire tag, each carrying that tag's payload.

The model follows the code. Some consequences of the code are not spelled out in its comments:

- **Round-2 states overwrite the snapshot.** `onMsg` (`src/components/pages/Player.tsx:41-44`) copies every round-2 state into the snapshot, as the comment at `src/components/pages/Player.tsx:58` notes. The comments leave one consequence unsaid. When the presenter returns from round 2 to round 1, the snapshot is already filled, so the initial fetch does not run again. The player keeps showing the last round-2 state, not the first state it received. `Player.Pinned` states this precisely.
- **Refresh copies the whole state.** `refresh` (`src/components/pages/Player.tsx:76-79`) puts the whole latest state into the snapshot. The page reads only its time.
- **No player ever sends `PLAYER_SNAPSHOT`.** Nothing in the code fills the board's snapshot map. The model still covers how the board would handle such messages if they arrived.
- **Rounding of deltas.** `Math.round` rounds halves upward, so a difference of -500 ms is 0 s and +500 ms is 1 s.

## Model

| member | source | states |
|---|---|---|
| Decimal.ParseNatToString | src/lib/game.ts:32 | reading back the decimal rendering of any natural gives the natural |
| Decimal.NatToStringParse | src/lib/game.ts:32 | every canonical numeral is the rendering of its value, so rendering is onto the canonical numerals |
| Decimal.IntToString | src/components/pages/Board.tsx:124 | the text starts with '-' exactly for negative numbers; the rest is the canonical numeral of the magnitude and reads back as that magnitude |
| Decimal.NatToStringLength | src/lib/game.ts:32 | a number with k decimal digits renders to exactly k characters |
| Game.Tag | src/lib/game.ts:21-26 | every message carries one of the five tags JOIN, STATE, PLAYER_SNAPSHOT, REFRESH_USED and SET_ROUND, and each tag belongs to exactly one kind of message |
| Game.TagDeterminesKind | src/lib/game.ts:21-26 | two messages carry the same wire tag exactly when they are the same kind; the five tags are distinct |
| Game.RoomCodeValue | src/lib/game.ts:32 | for any draw in [0, 1) the code number lies in [100000, 999999] |
| Game.GenerateRoomCode | src/lib/game.ts:31-33 | the code is six decimal digits whose first digit is not '0', and it reads back as the drawn number |
| Game.RoomCodeFromIntegerDraw | src/lib/game.ts:32 | an integer draw k in [0, 900000) yields code 100000 + k, so every six-digit code can be drawn |
| Game.Pad2 | src/lib/game.ts:38-40 | below 100 the field is two digits, the tens and the units; from 100 up it is the plain numeral |
| Game.FormatTime | src/lib/game.ts:36-42 | for in-range components the text has length 8, ':' at indices 2 and 5, and digits elsewhere |
| Game.FormatTimeRoundTrip | src/lib/game.ts:38-41 | reading the three fields of a formatted in-range time recovers hours, minutes and seconds |
| Game.ParseTimeFormats | src/lib/game.ts:38-41 | every string that reads as a clock time is exactly that time's formatting |
| Channel.RoomChannelName | src/lib/ably.ts:11-13 | the name is 15 characters longer than the code, starts with the namespace prefix and ends with the code |
| Channel.ChannelNameRoundTrip | src/lib/ably.ts:12 | removing the prefix from a channel name gives back the room code |
| Channel.ChannelNameInjective | src/lib/ably.ts:12 | two codes share a channel name exactly when they are equal |
| Clock.HourDeg | src/components/clock/AnalogClock.tsx:8 | for a non-negative hour the angle is 30 degrees per hour of the half day plus half a degree per minute, so the hour part lies in [0, 330]; a negative hour gives an hour part in [-330, 0], because JavaScript's `%` keeps the sign |
| Clock.SixtiethDeg | src/components/clock/AnalogClock.tsx:9-10 | the minute and second hands turn six degrees per unit, so units 0..59 give angles in [0, 354] |
| Clock.SixtiethStep | src/components/clock/AnalogClock.tsx:9-10 | each extra minute or second turns its hand by six more degrees, and sixty of them make a full turn of 360 degrees |
| Clock.HourDegInRange | src/components/clock/AnalogClock.tsx:8 | for hour 0..23 and minute 0..59 the hour angle lies in [0, 359.5] |
| Clock.HourDegTwelveHourPeriod | src/components/clock/AnalogClock.tsx:8 | hours h and h + 12 (h ≥ 0) give the same hour angle |
| Clock.HourDegPerMinute | src/components/clock/AnalogClock.tsx:8 | one extra minute advances the hour hand by exactly half a degree |
| Presenter.Init | src/components/pages/Presenter.tsx:23-29 | a new room is in round 1 with no players, version 1, the given code and the creation time, and satisfies the authority invariant |
| Presenter.SetRound | src/components/pages/Presenter.tsx:57-63 | the round becomes the chosen one and the version goes up by one, also when the chosen round is the current one; code, time, count and known ids stay |
| Presenter.AdjustTime | src/components/pages/Presenter.tsx:65-71 | the server time moves by exactly the delta, of either sign, and the version goes up by one; nothing else changes |
| Presenter.RandomJumpDelta | src/components/pages/Presenter.tsx:75 | for any draw in [0, 1) the jump lies in [-300000, 299999] ms |
| Presenter.RandomJump | src/components/pages/Presenter.tsx:73-77 | a random jump is a time adjustment by the drawn delta, so the time moves by at most five minutes |
| Presenter.ResetToNow | src/components/pages/Presenter.tsx:79-85 | the server time becomes the given now and the version goes up by one; nothing else changes |
| Presenter.OnMsg | src/components/pages/Presenter.tsx:35-47 | a JOIN from an unseen id adds it, makes the count the number of known ids and raises the version by one; a known id or any other message changes nothing |
| Presenter.JoinIdempotent | src/components/pages/Presenter.tsx:38-45 | applying the same JOIN twice equals applying it once |
| Presenter.DoubleJoinCountsOnce | src/components/pages/Presenter.tsx:35-47 | two JOINs of one id in a new room give count 1 and version 2 |
| Presenter.ApplyVersionStep | src/components/pages/Presenter.tsx:35-85 | each step either bumps the version by exactly one, precisely for operator actions and first JOINs, or leaves the authority unchanged |
| Presenter.ApplyValid | src/components/pages/Presenter.tsx:33-47 | every step keeps the count equal to the number of known ids and the version above the count |
| Presenter.RunVersion | src/components/pages/Presenter.tsx:35-85 | over any run the invariant holds and the version grows by exactly the number of mutating steps |
| Presenter.TraceVersionsOrdered | src/components/pages/Presenter.tsx:35-85 | versions never decrease along a run, and two points with the same version hold identical states |
| Presenter.RunJoins | src/components/pages/Presenter.tsx:35-47 | JOINs from any ids, duplicates included, record exactly their set; the count is its size and the version grows by the number of new ids |
| Player.Init | src/components/pages/Player.tsx:24-34 | opening the page with a room joins that room and puts it in the form; without one the form is empty and no room is joined; no state or snapshot is held, so nothing is shown |
| Player.Display | src/components/pages/Player.tsx:81-86 | nothing is shown before any state; in round 2 the latest state is shown, in round 1 the snapshot; a settled view that holds a state always shows something, and only ever the latest state or the snapshot |
| Player.OnMsg | src/components/pages/Player.tsx:37-46 | a STATE becomes the latest state; in round 2 it also becomes the snapshot and is shown at once; in round 1 the snapshot and the display stay as they were; other messages change nothing; the room and the form input are never touched |
| Player.Refresh | src/components/pages/Player.tsx:76-79 | with a latest state, the snapshot and the display become that state; without one nothing changes; the room, the input and the latest state stay |
| Player.JoinRoom | src/components/pages/Player.tsx:67-74 | an all-white-space input changes nothing; otherwise the trimmed input becomes the room, the input is kept, and both views are cleared so nothing is shown |
| Player.Leave | src/components/pages/Player.tsx:175-181 | leaving gives the page as opened without a room, showing nothing |
| Player.Announce | src/components/pages/Player.tsx:50-54 | a message is produced exactly when the room changes to a non-empty code, and it is a JOIN carrying the player's id |
| Player.Settle | src/components/pages/Player.tsx:59-65 | when a round-1 state is waiting without a snapshot, the snapshot becomes that latest state; a held snapshot is never replaced; a settled view is left unchanged; the result is always settled |
| Player.Step | src/components/pages/Player.tsx:37-79 | after every event the view is settled |
| Player.TrimStart | src/components/pages/Player.tsx:68 | the result is the suffix after a white-space-only prefix, and does not start with white space |
| Player.TrimEnd | src/components/pages/Player.tsx:68 | the result is the prefix before a white-space-only suffix, and does not end with white space |
| Player.Trim | src/components/pages/Player.tsx:68-69 | the result is the slice of the input between a white-space-only prefix and a white-space-only suffix, and it neither starts nor ends with white space; it is empty exactly when the input is all white space |
| Player.ReceiveStatePolicy | src/components/pages/Player.tsx:37-65 | a STATE always becomes the latest state; in round 2 it is shown at once; in round 1 the held snapshot stays shown, or this state is shown when none was held |
| Player.OtherMessagesIgnored | src/components/pages/Player.tsx:37-46 | messages other than STATE leave the player unchanged |
| Player.RefreshShowsLatest | src/components/pages/Player.tsx:76-79 | after a refresh the display is the latest state; without one, refresh changes nothing |
| Player.JoinRoomEffect | src/components/pages/Player.tsx:67-74 | blank input leaves the view unchanged; otherwise the trimmed input becomes the room and both views are cleared |
| Player.LeaveClears | src/components/pages/Player.tsx:176-181 | leaving clears the room, the input, the latest state and the snapshot |
| Player.AnnounceOnJoin | src/components/pages/Player.tsx:51-54 | a successful join, or opening the page with a room, publishes the player's JOIN; no other event does |
| Player.ReceiveAllMatchesReference | src/components/pages/Player.tsx:37-86 | after joining, the snapshot is the latest state that was either the first or in round 2, and the display is the latest state in round 2 and that pinned state in round 1 |
| Player.PinnedRoundOne | src/components/pages/Player.tsx:59-65 | in a run of round-1 states only the first is ever pinned |
| Player.RoundOneKeepsSnapshot | src/components/pages/Player.tsx:59-85 | once a snapshot is held, round-1 states never change it and the display stays on it; this includes a return from round 2 to round 1 |
| Player.AutoConvergence | src/components/pages/Player.tsx:42-44 | after a round-2 state, from any view, the display is exactly that state |
| Player.ManualScenario | src/components/pages/Player.tsx:59-85 | round-1 versions 1, 2, 3 leave the displayed version at 1; a refresh then shows 3 |
| Player.TransitionScenario | src/components/pages/Player.tsx:42-44 | a round-1 state followed by a round-2 state shows the round-2 state exactly |
| Board.OnMsg | src/components/pages/Board.tsx:27-40 | STATE replaces the held state and keeps the snapshots; PLAYER_SNAPSHOT upserts its own key and keeps every other entry and the state; other messages change nothing; entries stay filed under their own ids |
| Board.ReceiveAllLastWins | src/components/pages/Board.tsx:32-38 | after any run each player's entry is the last snapshot that player sent, or the earlier entry if it sent none |
| Board.ReceiveAllWellKeyed | src/components/pages/Board.tsx:32-38 | a board built from messages files every snapshot under its own player id |
| Board.Insert | src/components/pages/Board.tsx:45 | inserting into a list sorted by id keeps it sorted and adds exactly the new snapshot |
| Board.SortedIdsDistinct | src/components/pages/Board.tsx:44-46 | a list strictly ordered by id holds no id twice |
| Board.Players | src/components/pages/Board.tsx:44-46 | the list holds every snapshot of the map exactly once, strictly ordered by player id |
| Board.IsSynced | src/components/pages/Board.tsx:116-117 | without a state every player counts as synced; with one, exactly the players whose synced version is that state's version |
| Board.BadgeOf | src/components/pages/Board.tsx:116-129 | FRESH exactly when there is no state or the versions agree; STALE exactly when they differ |
| Board.BadgeAfterState | src/components/pages/Board.tsx:116-117 | once a state is held, a player is fresh exactly when its synced version is that state's version |
| Board.NewerStateMakesStale | src/components/pages/Board.tsx:116-117 | a fresh player becomes stale when a state with a higher version arrives |
| Board.JsRound | src/components/pages/Board.tsx:120 | the result is the nearest integer, with halves rounded up |
| Board.DeltaSec | src/components/pages/Board.tsx:119-121 | the delta is 0 without a state; otherwise it is within half a second of the millisecond difference |
| Board.DeltaSecIntegerForm | src/components/pages/Board.tsx:119-121 | on integer milliseconds the delta is floor((d + 500) / 1000) |
| Board.DeltaSecExamples | src/components/pages/Board.tsx:119-121 | +7000 ms gives 7, -3000 ms gives -3, -500 ms gives 0 |
| Board.DeltaLabel | src/components/pages/Board.tsx:123-124 | the label is "Δ " then the signed number then "s" |
| Board.DeltaLabelRoundTrip | src/components/pages/Board.tsx:123-124 | reading a label back gives its delta: "Δ 0s", "Δ +Ns" for positive N, "Δ -Ns" for negative |
| Board.DeltaLabelInjective | src/components/pages/Board.tsx:123-124 | distinct deltas get distinct labels |
| Board.ShortId | src/components/pages/Board.tsx:15-17 | the short id is the first min(4, length) characters, upper-cased, with no lower-case ASCII letter left |
| Board.ShortIdIdempotent | src/components/pages/Board.tsx:15-17 | shortening a short id changes nothing |
| Board.ShortIdIgnoresCase | src/components/pages/Board.tsx:15-17 | ids that agree up to ASCII case on their first four characters get the same short id |
| Board.PlayerCountShown | src/components/pages/Board.tsx:77 | with a state the figure is the presenter's count; without one it is the number of players the board holds a snapshot of |
| Board.FallbackCountsSenders | src/components/pages/Board.tsx:77 | before any state arrives, the board's player figure is the number of distinct players that sent a snapshot |
| Protocol.BoardCountsDistinctJoins | src/components/pages/Board.tsx:77 | however often players repeat their JOIN, a board that receives the presenter's state shows the number of distinct ids |

## Left out

- Transport plumbing is not modelled: channel attach, subscribe, unsubscribe and the retry of a publish made before attach completes (`src/lib/useRoomChannel.ts`). Delivery is treated as handing one message at a time to a reducer. The player's reducer does not check that it is subscribed.
- Ably client construction and the missing-key warning are not modelled; they configure a third-party client and do not touch the room state.
- The presenter's broadcast on every change is not modelled. It is a React effect on the state, and React batches state updates, so the number of publishes depends on rendering.
- The player's initial-fetch effect (`src/components/pages/Player.tsx:59-65`) is modelled as `Player.Settle` applied after every event. This assumes each event is rendered before the next one arrives.
- Batched rendering is not modelled. When React renders several events together, the effect runs once, after all of them. For example, two round-1 STATEs s1 and s2 may reach a just-joined player in one batch. The code then pins s2, while the model pins s1. In the same way, round-1 versions 1, 2 and 3 arriving in one batch show version 3, not the version 1 of `Player.ManualScenario`. `Player.ReceiveAllMatchesReference` and the scenarios hold only under the one-render-per-event assumption.
- The time-zone breakdown of an instant into hours, minutes and seconds is not modelled; those components are parameters.
- Player identity is not modelled: creating the id in `localStorage` with `crypto.randomUUID` is left out, and ids are opaque strings.
- Messages outside the five kinds are not representable: `RealtimeMsg` has exactly one constructor per tag, each with its own payload. The code handles an unknown tag by skipping it, because every handler's chain of tag tests falls through (`src/components/pages/Presenter.tsx:36`, `src/components/pages/Player.tsx:38`, `src/components/pages/Board.tsx:28-39`). The code never checks a payload's shape: `src/lib/useRoomChannel.ts:29` casts the incoming data to `RealtimeMsg` unchecked. So a message with a known tag and a malformed payload reaches the handlers as it is. The model cannot express that case.
- Decimal: renders integers in plain positional notation at every size. JavaScript's `Number::toString` switches to exponent notation from 10^21 up, so for example a delta of 10^21 seconds would be labelled "Δ +1e+21s". No room code, time field or realistic delta comes near that size.
- Board.Players: orders ids by plain character code, because `localeCompare` is a locale-dependent collation. It is stated for maps whose entries are filed under their own id, which every board built from messages satisfies (`Board.ReceiveAllWellKeyed`).
- Board.ShortId: upper-cases ASCII letters only, because the full Unicode case mapping of `toUpperCase` is not modelled. Some characters, such as 'ß', change length under that mapping.
- Board.ShortId: takes the first four characters (Unicode scalar values), while `slice(0, 4)` takes the first four UTF-16 code units. The two agree when the first four characters lie in the Basic Multilingual Plane. They differ on ids with characters outside it, such as emoji: for "😀😀😀" JavaScript keeps two characters and the model keeps three. A Dafny string cannot hold the lone surrogate such a slice can produce, so the model does not slice by code units.
- Board.DeltaSec: computes over exact reals, because IEEE floating point is not modelled. The same holds for the room-code draw, the random jump and the clock angles.
- Clock.HourDegTwelveHourPeriod: is stated for non-negative hours only. JavaScript's `%` keeps the sign of a negative hour, and `getHours` never returns one.
- The `refreshOwnerId` and `refreshedPlayerIds` fields of the room state are left out, because the presenter never sets them.
- Rendering, styles, routing, the home page, clipboard copy and join-URL building are left out.
- `src/lib/utils.ts` is an unimported copy of `generateRoomCode` and `formatTime`, modelled once from `src/lib/game.ts`. `src/lib/types.ts` only declares older types that nothing imports; it has no code to model.
- No producer of `PLAYER_SNAPSHOT`, `REFRESH_USED` or `SET_ROUND` exists in the code. The board's snapshot handler is modelled as written even though nothing sends to it. No role acts on the other two messages.
- Several presenters writing to one room code are not modelled; the code has no conflict handling for it.
