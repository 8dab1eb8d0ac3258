/**
 The values the relay works with: connection handles, room codes, the room
 record kept in the registry, the per-connection session record, and the
 closed sets of inbound and outbound messages (the JSON documents exchanged
 over the WebSocket, already decoded).
 */
module Protocol {

  datatype Option<+T> = None | Some(value: T)

  /** An opaque handle for one WebSocket connection; compared by identity only. */
  type ConnId = nat

  /** A room code as the registry keys it. */
  type Code = string

  /** The shared playback snapshot `{playing, time}`. `time` is a JSON number
      that the relay only copies, so any totally ordered value would do. */
  datatype Playback = Playback(playing: bool, time: int)

  /** One entry of the `rooms` registry. `clients` is the JavaScript `Set` of
      connections, kept as a sequence in insertion order because that order is
      visible in `userList`. */
  datatype Room = Room(host: ConnId, clients: seq<ConnId>, filename: Option<string>, state: Playback)

  /** The per-connection state: the closure variables `roomCode` and
      `username` (both `null` until the first `create` or `join`). The
      relay also stores the username on the connection object; the two are
      always assigned together, so one field stands for both. */
  datatype Session = Session(roomCode: Option<Code>, username: Option<string>)

  /** Inbound messages, by their `type` tag. `Unknown` is any other tag. */
  datatype Inbound =
    | Create(username: string)
    | Join(roomCode: Code, username: string)
    | VideoSelected(filename: string)
    | VideoControl(action: string, time: int)
    | Unknown(kind: string)

  /** Outbound messages, by their `type` tag. `ControlForward` is the
      outbound `videoControl`, which carries only `action` and `time`. */
  datatype Outbound =
    | Created(roomCode: Code)
    | Joined(file: Option<string>, state: Playback)
    | UserList(users: seq<string>)
    | VideoUpdate(filename: string)
    | ControlForward(action: string, time: int)
    | HostLeft

  /** The snapshot a new room starts with: paused at time 0. */
  const InitialPlayback := Playback(false, 0)

  /** The snapshot a `videoControl{action, time}` installs: only the action
      "play" counts as playing; "pause" and every other action give false. */
  function ControlPlayback(action: string, time: int): (p: Playback)
    ensures p.playing <==> action == "play"
    ensures p.time == time
  {
    Playback(action == "play", time)
  }
}
