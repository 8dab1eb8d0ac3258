/**
 The relay process as the source runs it: one object holding the `rooms`
 registry, the closure state of every connection and the sends made so far,
 whose event handlers update those fields in place. Each method is proved to
 produce exactly the state the corresponding transition in `Handlers`
 describes, and to keep the registry invariant.
 */
module Server {

  import opened Protocol
  import opened RoomCode
  import opened ClientSet
  import opened Broadcast
  import Handlers

  class Relay {
    /** `rooms`: the registry, code to room. */
    var rooms: map<Code, Room>
    /** The closure variables of every accepted connection. */
    var sessions: map<ConnId, Session>
    /** Every `send` so far, in order. */
    var outbox: seq<(ConnId, Outbound)>

    ghost function State(): Handlers.RelayState
      reads this
    {
      Handlers.RelayState(rooms, sessions, outbox)
    }

    ghost predicate Valid()
      reads this
    {
      Handlers.Valid(State())
    }

    /** A process that has not accepted a connection yet. */
    constructor ()
      ensures Valid() && State() == Handlers.Empty
    {
      rooms, sessions, outbox := map[], map[], [];
    }

    /** The `connection` event: a new connection, not yet in any room. */
    method Connect(c: ConnId)
      requires Valid() && c !in sessions
      modifies this
      ensures Valid() && State() == Handlers.Connect(old(State()), c)
    {
      sessions := sessions[c := Session(None, None)];
    }

    /** `ws.send`. */
    method Send(c: ConnId, msg: Outbound)
      modifies this`outbox
      ensures outbox == old(outbox) + [(c, msg)]
    {
      outbox := outbox + [(c, msg)];
    }

    /** `broadcastToRoom`: reads the room from the registry at call time and
        sends to each client in order, skipping `exclude`. */
    method BroadcastToRoom(code: Code, msg: Outbound, exclude: Option<ConnId>)
      modifies this`outbox
      ensures code in rooms ==> outbox == old(outbox) + Fanout(rooms[code].clients, msg, exclude)
      ensures code !in rooms ==> outbox == old(outbox)
    {
      if code in rooms {
        var clients := rooms[code].clients;
        var i := 0;
        while i < |clients|
          invariant 0 <= i <= |clients|
          invariant outbox == old(outbox) + Fanout(clients[..i], msg, exclude)
        {
          assert clients[..i + 1][..i] == clients[..i];
          assert Fanout(clients[..i + 1], msg, exclude)
              == Fanout(clients[..i], msg, exclude) + (if exclude == Some(clients[i]) then [] else [(clients[i], msg)]);
          if exclude != Some(clients[i]) {
            Send(clients[i], msg);
          }
          i := i + 1;
        }
        assert clients[..|clients|] == clients;
      }
    }

    /** The `create` case. `entropy` is what `crypto.randomBytes(3)` yields. */
    method HandleCreate(c: ConnId, username: string, entropy: seq<Byte>)
      requires Valid() && c in sessions && |entropy| == 3
      modifies this
      ensures Valid() && State() == Handlers.OnCreate(old(State()), c, username, entropy)
    {
      var code := GenerateRoomCode(entropy);
      sessions := sessions[c := Session(Some(code), Some(username))];
      rooms := rooms[code := Room(c, [c], None, InitialPlayback)];
      Send(c, Created(code));
    }

    /** The `join` case. */
    method HandleJoin(c: ConnId, code: Code, username: string)
      requires Valid() && c in sessions
      modifies this
      ensures Valid() && State() == Handlers.OnJoin(old(State()), c, code, username)
    {
      Handlers.RebindKeepsNamed(State(), c, Session(Some(code), Some(username)));
      sessions := sessions[c := Session(Some(code), Some(username))];
      if code in rooms {
        ghost var bound := State();
        var room := rooms[code];
        Handlers.AddKeepsRoomOk(room, c, sessions);
        Handlers.PutRoomKeepsValid(State(), code, room.(clients := Add(room.clients, c)));
        rooms := rooms[code := room.(clients := Add(room.clients, c))];
        BroadcastToRoom(code, UserList(Handlers.ConnectedUsers(rooms[code].clients, sessions)), None);
        Send(c, Joined(room.filename, room.state));
        assert State() == Handlers.Admit(bound, c, code);
      }
    }

    /** The `videoSelected` case. */
    method HandleVideoSelected(c: ConnId, filename: string)
      requires Valid() && c in sessions
      modifies this
      ensures Valid() && State() == Handlers.OnVideoSelected(old(State()), c, filename)
    {
      var rc := sessions[c].roomCode;
      if rc.Some? && rc.value in rooms {
        var code := rc.value;
        rooms := rooms[code := rooms[code].(filename := Some(filename))];
        BroadcastToRoom(code, VideoUpdate(filename), Some(c));
      }
    }

    /** The `videoControl` case. */
    method HandleVideoControl(c: ConnId, action: string, time: int)
      requires Valid() && c in sessions
      modifies this
      ensures Valid() && State() == Handlers.OnVideoControl(old(State()), c, action, time)
    {
      var rc := sessions[c].roomCode;
      if rc.Some? && rc.value in rooms {
        var code := rc.value;
        rooms := rooms[code := rooms[code].(state := ControlPlayback(action, time))];
        BroadcastToRoom(code, ControlForward(action, time), Some(c));
      }
    }

    /** The `message` event: the switch on the message type. An unknown type
        falls through every case. */
    method OnMessage(c: ConnId, m: Inbound, entropy: seq<Byte>)
      requires Valid() && c in sessions
      requires m.Create? ==> |entropy| == 3
      modifies this
      ensures Valid() && State() == Handlers.OnMessage(old(State()), c, m, entropy)
    {
      match m
      case Create(username) => HandleCreate(c, username, entropy);
      case Join(code, username) => HandleJoin(c, code, username);
      case VideoSelected(filename) => HandleVideoSelected(c, filename);
      case VideoControl(action, time) => HandleVideoControl(c, action, time);
      case Unknown(_) =>
    }

    /** The `close` event. */
    method OnClose(c: ConnId)
      requires Valid() && c in sessions
      modifies this
      ensures Valid() && State() == Handlers.OnClose(old(State()), c)
    {
      var rc := sessions[c].roomCode;
      if rc.Some? && rc.value != "" && rc.value in rooms {
        var code := rc.value;
        var room := rooms[code];
        var remaining := Delete(room.clients, c);
        rooms := rooms[code := room.(clients := remaining)];
        if |remaining| == 0 {
          rooms := rooms - {code};
        } else if room.host == c {
          rooms := rooms - {code};
          BroadcastToRoom(code, HostLeft, None);
        } else {
          Handlers.DeleteKeepsRoomOk(room, c, sessions);
          BroadcastToRoom(code, UserList(Handlers.ConnectedUsers(remaining, sessions)), None);
        }
      }
    }
  }
}
