/**
 The fan-out of `broadcastToRoom`: one send to each client of the room, in
 the room's iteration order, skipping the excluded connection. Sends are
 recorded as `(recipient, message)` pairs appended to an outbox.
 */
module Broadcast {

  import opened Protocol
  import opened ClientSet

  /** The sends a broadcast of `msg` to `clients` makes, excluding `exclude`
      (`null` in the source when no connection is excluded). Defined by the
      last client so that it follows the source's loop step by step. */
  function Fanout(clients: seq<ConnId>, msg: Outbound, exclude: Option<ConnId>): (out: seq<(ConnId, Outbound)>)
    ensures |out| <= |clients|
  {
    if clients == [] then []
    else
      var last := clients[|clients| - 1];
      Fanout(clients[..|clients| - 1], msg, exclude) + (if exclude == Some(last) then [] else [(last, msg)])
  }

  /** Every send carries `msg` and goes to a client other than `exclude`. */
  lemma {:induction false} FanoutSendsOnlyMsg(clients: seq<ConnId>, msg: Outbound, exclude: Option<ConnId>)
    ensures forall e :: e in Fanout(clients, msg, exclude) ==> e.1 == msg && e.0 in clients && exclude != Some(e.0)
  {
    if clients != [] {
      FanoutSendsOnlyMsg(clients[..|clients| - 1], msg, exclude);
      assert forall x :: x in clients[..|clients| - 1] ==> x in clients;
    }
  }

  /** Each client other than the excluded one receives exactly one copy; the
      excluded connection and every non-member receive none. */
  lemma {:induction false} FanoutExactlyOnce(clients: seq<ConnId>, msg: Outbound, exclude: Option<ConnId>, d: ConnId)
    requires NoDup(clients)
    ensures multiset(Fanout(clients, msg, exclude))[(d, msg)]
            == if d in clients && exclude != Some(d) then 1 else 0
  {
    if clients != [] {
      var init, last := clients[..|clients| - 1], clients[|clients| - 1];
      assert clients == init + [last];
      assert last !in init;
      assert NoDup(init);
      FanoutExactlyOnce(init, msg, exclude, d);
      var tail: seq<(ConnId, Outbound)> := if exclude == Some(last) then [] else [(last, msg)];
      assert Fanout(clients, msg, exclude) == Fanout(init, msg, exclude) + tail;
      assert multiset(Fanout(clients, msg, exclude)) == multiset(Fanout(init, msg, exclude)) + multiset(tail);
    }
  }

  /** With nothing excluded, the broadcast is one send per client, in the
      clients' order. */
  lemma {:induction false} FanoutToAll(clients: seq<ConnId>, msg: Outbound)
    ensures |Fanout(clients, msg, None)| == |clients|
    ensures forall i :: 0 <= i < |clients| ==> Fanout(clients, msg, None)[i] == (clients[i], msg)
  {
    if clients != [] {
      FanoutToAll(clients[..|clients| - 1], msg);
    }
  }

  /** A broadcast to two groups of clients is the broadcast to the first
      followed by the broadcast to the second. */
  lemma {:induction false} FanoutAppend(a: seq<ConnId>, b: seq<ConnId>, msg: Outbound, exclude: Option<ConnId>)
    ensures Fanout(a + b, msg, exclude) == Fanout(a, msg, exclude) + Fanout(b, msg, exclude)
  {
    if b == [] {
      assert a + b == a;
    } else {
      var init := b[..|b| - 1];
      assert (a + b)[..|a + b| - 1] == a + init;
      assert (a + b)[|a + b| - 1] == b[|b| - 1];
      FanoutAppend(a, init, msg, exclude);
    }
  }

  /** Excluding a connection is broadcasting to everyone else: the clients
      with that connection deleted. */
  lemma {:induction false} FanoutSkipsExcluded(clients: seq<ConnId>, msg: Outbound, x: ConnId)
    ensures Fanout(clients, msg, Some(x)) == Fanout(Delete(clients, x), msg, None)
  {
    if clients != [] {
      var init, last := clients[..|clients| - 1], clients[|clients| - 1];
      assert clients == init + [last];
      DeleteAppend(init, [last], x);
      assert Delete([last], x) == if last == x then [] else [last];
      FanoutAppend(Delete(init, x), Delete([last], x), msg, None);
      FanoutSkipsExcluded(init, msg, x);
      assert [last][..0] == [];
    }
  }

  /** With a connection excluded, the broadcast is one send per other client,
      in the clients' order. */
  lemma FanoutInOrder(clients: seq<ConnId>, msg: Outbound, x: ConnId)
    ensures var others := Delete(clients, x);
      && |Fanout(clients, msg, Some(x))| == |others|
      && forall i :: 0 <= i < |others| ==> Fanout(clients, msg, Some(x))[i] == (others[i], msg)
  {
    FanoutSkipsExcluded(clients, msg, x);
    FanoutToAll(Delete(clients, x), msg);
  }
}
