/**
 * Naming of a room's realtime channel: a fixed namespace prefix followed
 * by the room code.
 */
module Channel {

  const Prefix: string := "queryhoot:room:"

  /** The channel name of the room with code `code`. */
  function RoomChannelName(code: string): (name: string)
    ensures |name| == |code| + 15
    ensures name[..15] == Prefix
    ensures name[15..] == code
  {
    Prefix + code
  }

  /** Removes the namespace prefix from a channel name. */
  function RoomCodeOf(name: string): (code: string)
    requires |name| >= |Prefix| && name[..|Prefix|] == Prefix
  {
    name[|Prefix|..]
  }

  /** Stripping the prefix from a channel name gives back the room code. */
  lemma ChannelNameRoundTrip(code: string)
    ensures RoomCodeOf(RoomChannelName(code)) == code
  {
  }

  /** Distinct room codes never share a channel. */
  lemma ChannelNameInjective(a: string, b: string)
    ensures RoomChannelName(a) == RoomChannelName(b) <==> a == b
  {
    if RoomChannelName(a) == RoomChannelName(b) {
      assert a == RoomChannelName(a)[15..] == RoomChannelName(b)[15..] == b;
    }
  }
}
