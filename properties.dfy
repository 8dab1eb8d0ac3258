/**
 What each handler does, stated per handler and across consecutive events:
 who receives what, what the registry looks like afterwards, and what stays
 unchanged.
 */
module Properties {

  import opened Protocol
  import opened RoomCode
  import opened ClientSet
  import opened Broadcast
  import opened Handlers

  /** The sends one step added to the outbox. */
  function NewSends(before: RelayState, after: RelayState): seq<(ConnId, Outbound)>
    requires Extends(before, after)
  {
    after.outbox[|before.outbox|..]
  }

  /** A broadcast to a live room reaches each client other than `exclude`
      exactly once and sends nothing else. */
  lemma BroadcastReachesEachOnce(st: RelayState, code: Code, msg: Outbound, exclude: Option<ConnId>, d: ConnId)
    requires Valid(st) && code in st.rooms
    ensures var r := BroadcastToRoom(st, code, msg, exclude);
      && (forall e :: e in NewSends(st, r) ==> e.1 == msg)
      && multiset(NewSends(st, r))[(d, msg)]
         == if d in st.rooms[code].clients && exclude != Some(d) then 1 else 0
  {
    var r := BroadcastToRoom(st, code, msg, exclude);
    assert NewSends(st, r) == Fanout(st.rooms[code].clients, msg, exclude);
    FanoutExactlyOnce(st.rooms[code].clients, msg, exclude, d);
    FanoutSendsOnlyMsg(st.rooms[code].clients, msg, exclude);
  }

  /** `create` registers a room with a six-digit hex code, the sender as host
      and sole client, no file and a paused snapshot at 0, replacing whatever
      room had that code; the only send is `created` to the sender. */
  lemma CreateRegistersRoom(st: RelayState, c: ConnId, username: string, entropy: seq<Byte>)
    requires Valid(st) && c in st.sessions && |entropy| == 3
    ensures var code := GenerateRoomCode(entropy);
      var r := OnCreate(st, c, username, entropy);
      && IsRoomCode(code)
      && r.rooms == st.rooms[code := Room(c, [c], None, Playback(false, 0))]
      && r.sessions == st.sessions[c := Session(Some(code), Some(username))]
      && r.outbox == st.outbox + [(c, Created(code))]
  {
  }

  /** `join` with an unknown code changes no room and sends nothing, yet the
      session now holds that code. */
  lemma JoinUnknownCodeIsSilent(st: RelayState, c: ConnId, code: Code, username: string)
    requires Valid(st) && c in st.sessions && code !in st.rooms
    ensures var r := OnJoin(st, c, code, username);
      && r.rooms == st.rooms
      && r.outbox == st.outbox
      && r.sessions[c] == Session(Some(code), Some(username))
  {
  }

  /** A session holding a code that is not registered makes `videoSelected`,
      `videoControl` and `close` do nothing. */
  lemma StaleCodeIsInert(st: RelayState, c: ConnId, code: Code, filename: string, action: string, time: int)
    requires Valid(st) && c in st.sessions
    requires st.sessions[c].roomCode == Some(code) && code !in st.rooms
    ensures OnVideoSelected(st, c, filename) == st
    ensures OnVideoControl(st, c, action, time) == st
    ensures OnClose(st, c) == st
  {
  }

  /** `join` with a known code adds the sender to the clients (no change if it
      is already one), sends `userList` with every client's username in set
      order to every client, the joiner included, in that order, and last
      sends `joined` with the room's file and snapshot to the joiner. */
  lemma {:induction false} JoinKnownCode(st: RelayState, c: ConnId, code: Code, username: string)
    requires Valid(st) && c in st.sessions && code in st.rooms
    ensures var room := st.rooms[code];
      var clients := Add(room.clients, c);
      var r := OnJoin(st, c, code, username);
      && clients == (if c in room.clients then room.clients else room.clients + [c])
      && r.rooms == st.rooms[code := room.(clients := clients)]
      && Named(clients, r.sessions)
      && |NewSends(st, r)| == |clients| + 1
      && (forall i :: 0 <= i < |clients| ==>
            NewSends(st, r)[i] == (clients[i], UserList(ConnectedUsers(clients, r.sessions))))
      && NewSends(st, r)[|clients|] == (c, Joined(room.filename, room.state))
  {
    var room := st.rooms[code];
    var clients := Add(room.clients, c);
    JoinSends(st, c, code, username);
    var r := OnJoin(st, c, code, username);
    FanoutThenOne(NewSends(st, r), clients, UserList(ConnectedUsers(clients, r.sessions)),
                  (c, Joined(room.filename, room.state)));
  }

  /** A broadcast to everyone followed by one more send, position by position. */
  lemma FanoutThenOne(sends: seq<(ConnId, Outbound)>, clients: seq<ConnId>, msg: Outbound, last: (ConnId, Outbound))
    requires sends == Fanout(clients, msg, None) + [last]
    ensures |sends| == |clients| + 1 && sends[|clients|] == last
    ensures forall i :: 0 <= i < |clients| ==> sends[i] == (clients[i], msg)
  {
    FanoutToAll(clients, msg);
  }

  lemma JoinSends(st: RelayState, c: ConnId, code: Code, username: string)
    requires Valid(st) && c in st.sessions && code in st.rooms
    ensures var room := st.rooms[code];
      var clients := Add(room.clients, c);
      var r := OnJoin(st, c, code, username);
      && r.rooms == st.rooms[code := room.(clients := clients)]
      && Named(clients, r.sessions)
      && NewSends(st, r)
         == Fanout(clients, UserList(ConnectedUsers(clients, r.sessions)), None)
            + [(c, Joined(room.filename, room.state))]
  {
    var sessions := st.sessions[c := Session(Some(code), Some(username))];
    RebindKeepsNamed(st, c, Session(Some(code), Some(username)));
    var st1 := st.(sessions := sessions);
    assert OnJoin(st, c, code, username) == Admit(st1, c, code);
    AdmitSends(st1, c, code);
  }

  lemma AdmitSends(st: RelayState, c: ConnId, code: Code)
    requires Valid(st) && code in st.rooms && c in st.sessions && st.sessions[c].username.Some?
    ensures var room := st.rooms[code];
      var clients := Add(room.clients, c);
      var r := Admit(st, c, code);
      && r.rooms == st.rooms[code := room.(clients := clients)]
      && Named(clients, r.sessions)
      && NewSends(st, r)
         == Fanout(clients, UserList(ConnectedUsers(clients, r.sessions)), None)
            + [(c, Joined(room.filename, room.state))]
  {
    var room := st.rooms[code];
    var clients := Add(room.clients, c);
    AddKeepsRoomOk(room, c, st.sessions);
    var msg := UserList(ConnectedUsers(clients, st.sessions));
    var st2 := st.(rooms := st.rooms[code := room.(clients := clients)]);
    var st3 := BroadcastToRoom(st2, code, msg, None);
    var fan := Fanout(clients, msg, None);
    assert st3.outbox == st.outbox + fan;
    var r := Admit(st, c, code);
    assert r == Send(st3, c, Joined(room.filename, room.state));
    assert NewSends(st, st3) == fan;
    assert NewSends(st3, r) == [(c, Joined(room.filename, room.state))];
    SendsCompose(st, st3, r);
  }

  /** In the joined room's `userList`, the joiner appears under the username
      it just gave. */
  lemma JoinListsJoinerName(st: RelayState, c: ConnId, code: Code, username: string)
    requires Valid(st) && c in st.sessions && code in st.rooms
    ensures var clients := Add(st.rooms[code].clients, c);
      var r := OnJoin(st, c, code, username);
      Named(clients, r.sessions) && username in ConnectedUsers(clients, r.sessions)
  {
    var clients := Add(st.rooms[code].clients, c);
    var r := OnJoin(st, c, code, username);
    JoinKnownCode(st, c, code, username);
    var i :| 0 <= i < |clients| && clients[i] == c;
    assert ConnectedUsers(clients, r.sessions)[i] == username;
  }

  /** `videoSelected` in a live room records the file, changes nothing else,
      and sends `videoUpdate` exactly once to each client except the sender. */
  lemma VideoSelectedReachesOthers(st: RelayState, c: ConnId, filename: string, d: ConnId)
    requires Valid(st) && c in st.sessions && CurrentRoom(st, c).Some?
    ensures var code := CurrentRoom(st, c).value;
      var room := st.rooms[code];
      var r := OnVideoSelected(st, c, filename);
      && r.rooms == st.rooms[code := room.(filename := Some(filename))]
      && r.sessions == st.sessions
      && Extends(st, r)
      && (forall e :: e in NewSends(st, r) ==> e.1 == VideoUpdate(filename))
      && multiset(NewSends(st, r))[(d, VideoUpdate(filename))]
         == if d in room.clients && d != c then 1 else 0
  {
    var code := CurrentRoom(st, c).value;
    var room := st.rooms[code];
    var st1 := st.(rooms := st.rooms[code := room.(filename := Some(filename))]);
    BroadcastReachesEachOnce(st1, code, VideoUpdate(filename), Some(c), d);
  }

  /** `videoControl` in a live room replaces the snapshot with `playing` true
      exactly for "play" and the given time, and forwards `{action, time}`
      exactly once to each client except the sender. */
  lemma VideoControlReachesOthers(st: RelayState, c: ConnId, action: string, time: int, d: ConnId)
    requires Valid(st) && c in st.sessions && CurrentRoom(st, c).Some?
    ensures var code := CurrentRoom(st, c).value;
      var room := st.rooms[code];
      var r := OnVideoControl(st, c, action, time);
      && r.rooms == st.rooms[code := room.(state := Playback(action == "play", time))]
      && r.sessions == st.sessions
      && Extends(st, r)
      && (forall e :: e in NewSends(st, r) ==> e.1 == ControlForward(action, time))
      && multiset(NewSends(st, r))[(d, ControlForward(action, time))]
         == if d in room.clients && d != c then 1 else 0
  {
    var code := CurrentRoom(st, c).value;
    var room := st.rooms[code];
    var st1 := st.(rooms := st.rooms[code := room.(state := ControlPlayback(action, time))]);
    BroadcastReachesEachOnce(st1, code, ControlForward(action, time), Some(c), d);
  }

  /** "pause" and any other action leave the room not playing. */
  lemma OnlyPlayPlays(st: RelayState, c: ConnId, action: string, time: int)
    requires Valid(st) && c in st.sessions && CurrentRoom(st, c).Some?
    requires action != "play"
    ensures var code := CurrentRoom(st, c).value;
      !OnVideoControl(st, c, action, time).rooms[code].state.playing
  {
  }

  /** No throttling: the same control sent twice in a row is forwarded twice
      to every other client, and the snapshot holds the last one. */
  lemma {:induction false} RepeatedControlIsForwardedTwice(st: RelayState, c: ConnId, action: string, time: int, d: ConnId)
    requires Valid(st) && c in st.sessions && CurrentRoom(st, c).Some?
    requires d in st.rooms[CurrentRoom(st, c).value].clients && d != c
    ensures var code := CurrentRoom(st, c).value;
      var r1 := OnVideoControl(st, c, action, time);
      var r2 := OnVideoControl(r1, c, action, time);
      && Extends(st, r2)
      && multiset(NewSends(st, r2))[(d, ControlForward(action, time))] == 2
      && r2.rooms[code].state == Playback(action == "play", time)
  {
    var code := CurrentRoom(st, c).value;
    var msg := ControlForward(action, time);
    var r1 := OnVideoControl(st, c, action, time);
    VideoControlReachesOthers(st, c, action, time, d);
    assert CurrentRoom(r1, c) == Some(code);
    var r2 := OnVideoControl(r1, c, action, time);
    VideoControlReachesOthers(r1, c, action, time, d);
    SendsCompose(st, r1, r2);
  }

  /** The sends of two consecutive steps are those of the first, then those
      of the second. */
  lemma SendsCompose(a: RelayState, b: RelayState, c: RelayState)
    requires Extends(a, b) && Extends(b, c)
    ensures Extends(a, c)
    ensures NewSends(a, c) == NewSends(a, b) + NewSends(b, c)
  {
    assert c.outbox == a.outbox + NewSends(a, b) + NewSends(b, c);
  }

  /** The sole client closing deletes the room and sends nothing. */
  lemma LastClientClosingDeletesRoom(st: RelayState, c: ConnId)
    requires Valid(st) && c in st.sessions && Departs(st, c)
    requires st.rooms[st.sessions[c].roomCode.value].clients == [c]
    ensures var r := OnClose(st, c);
      r.rooms == st.rooms - {st.sessions[c].roomCode.value} && r.outbox == st.outbox
  {
    assert Delete([c], c) == [];
  }

  /** The host closing while others remain deletes the room before the
      `hostLeft` broadcast looks it up, so nobody receives `hostLeft`. */
  lemma HostClosingNotifiesNobody(st: RelayState, c: ConnId)
    requires Valid(st) && c in st.sessions && Departs(st, c)
    requires st.rooms[st.sessions[c].roomCode.value].host == c
    ensures var r := OnClose(st, c);
      r.rooms == st.rooms - {st.sessions[c].roomCode.value} && r.outbox == st.outbox
  {
  }

  /** A non-host closing leaves the room registered, minus that connection
      and with the host still in it, and sends `userList` of the remaining
      clients to each of them in order. */
  lemma {:induction false} MemberClosingRefreshesList(st: RelayState, c: ConnId)
    requires Valid(st) && c in st.sessions && Departs(st, c)
    requires st.rooms[st.sessions[c].roomCode.value].host != c
    ensures var code := st.sessions[c].roomCode.value;
      var room := st.rooms[code];
      var remaining := Delete(room.clients, c);
      var r := OnClose(st, c);
      && c !in remaining && room.host in remaining
      && r.rooms == st.rooms[code := room.(clients := remaining)]
      && Named(remaining, st.sessions)
      && |NewSends(st, r)| == |remaining|
      && forall i :: 0 <= i < |remaining| ==>
           NewSends(st, r)[i] == (remaining[i], UserList(ConnectedUsers(remaining, st.sessions)))
  {
    var code := st.sessions[c].roomCode.value;
    var room := st.rooms[code];
    var remaining := Delete(room.clients, c);
    assert room.host in remaining;
    var r := OnClose(st, c);
    var users := UserList(ConnectedUsers(remaining, st.sessions));
    FanoutToAll(remaining, users);
    assert NewSends(st, r) == Fanout(remaining, users, None);
  }

  /** Once the host has closed, a later `join` with that code is silent. */
  lemma {:induction false} JoinAfterHostClosedIsSilent(st: RelayState, host: ConnId, c: ConnId, username: string)
    requires Valid(st) && host in st.sessions && Departs(st, host)
    requires st.rooms[st.sessions[host].roomCode.value].host == host
    requires c in st.sessions
    ensures var code := st.sessions[host].roomCode.value;
      var r1 := OnClose(st, host);
      var r2 := OnJoin(r1, c, code, username);
      && code !in r2.rooms
      && r2.rooms == r1.rooms
      && r2.outbox == st.outbox
  {
    var code := st.sessions[host].roomCode.value;
    HostClosingNotifiesNobody(st, host);
    var r1 := OnClose(st, host);
    JoinUnknownCodeIsSilent(r1, c, code, username);
  }
}
