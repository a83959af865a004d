/** The client-side mirror of room membership: the list of connected
    participants shown in the editor's side bar, and the removal of one
    participant by its socket id when the relay announces a disconnect.
 */
module Presence {
  import opened Optional
  import opened Subsequences

  /** Connection id assigned by the transport; compared by value. */
  type SocketId = string

  /** A username as JavaScript sees it: a string, or `undefined` when the
      joining page had no router state. */
  type Name = Option<string>

  datatype Client = Client(socketId: SocketId, username: Name)

  /** The `DISCONNECTED` update: keep exactly the clients whose socket id
      differs from `socketId`, in their original order (an array `filter`). */
  function WithoutSocket(clients: seq<Client>, socketId: SocketId): (r: seq<Client>)
    ensures forall c :: c in r <==> c in clients && c.socketId != socketId
    ensures forall c: Client :: c.socketId != socketId ==> multiset(r)[c] == multiset(clients)[c]
    ensures |r| <= |clients|
    decreases |clients|
  {
    if |clients| == 0 then []
    else
      var rest := WithoutSocket(clients[1..], socketId);
      assert clients == [clients[0]] + clients[1..];
      if clients[0].socketId != socketId then [clients[0]] + rest else rest
  }

  /** No client that uses `socketId` survives the removal. */
  lemma RemovalLeavesNoTrace(clients: seq<Client>, socketId: SocketId)
    ensures forall i :: 0 <= i < |WithoutSocket(clients, socketId)| ==>
              WithoutSocket(clients, socketId)[i].socketId != socketId
  {
  }

  /** The survivors keep their relative order. */
  lemma {:induction false} RemovalKeepsOrder(clients: seq<Client>, socketId: SocketId)
    ensures IsSubsequence(WithoutSocket(clients, socketId), clients)
    decreases |clients|
  {
    if |clients| > 0 {
      RemovalKeepsOrder(clients[1..], socketId);
      var rest := WithoutSocket(clients[1..], socketId);
      if clients[0].socketId == socketId {
        if |rest| > 0 {
          assert rest[0] in rest;
        }
      }
    }
  }

  /** A socket id that no listed client uses leaves the list as it was. */
  lemma {:induction false} RemovalOfUnknownIsIdentity(clients: seq<Client>, socketId: SocketId)
    requires forall c :: c in clients ==> c.socketId != socketId
    ensures WithoutSocket(clients, socketId) == clients
    decreases |clients|
  {
    if |clients| > 0 {
      var tail := clients[1..];
      assert clients == [clients[0]] + tail;
      RemovalOfUnknownIsIdentity(tail, socketId);
    }
  }

  /** Removing the same socket id twice is the same as removing it once. */
  lemma {:induction false} RemovalIdempotent(clients: seq<Client>, socketId: SocketId)
    ensures WithoutSocket(WithoutSocket(clients, socketId), socketId) == WithoutSocket(clients, socketId)
  {
    RemovalOfUnknownIsIdentity(WithoutSocket(clients, socketId), socketId);
  }

  /** Two departures give the same list whichever is processed first. */
  lemma {:induction false} RemovalCommutes(clients: seq<Client>, a: SocketId, b: SocketId)
    ensures WithoutSocket(WithoutSocket(clients, a), b) == WithoutSocket(WithoutSocket(clients, b), a)
    decreases |clients|
  {
    if |clients| > 0 {
      RemovalCommutes(clients[1..], a, b);
    }
  }

  /** Reference characterisation of the removal: any list that is an
      order-preserving sub-list of `clients`, holds no client with `socketId`,
      and keeps every other client as often as `clients` does, IS the
      removal.  With the contract of `WithoutSocket` and `RemovalKeepsOrder`
      (the converse direction) this pins the filter down completely. */
  lemma {:induction false} RemovalIsUnique(clients: seq<Client>, socketId: SocketId, r: seq<Client>)
    requires IsSubsequence(r, clients)
    requires forall i :: 0 <= i < |r| ==> r[i].socketId != socketId
    requires forall c: Client :: c.socketId != socketId ==> multiset(r)[c] == multiset(clients)[c]
    ensures r == WithoutSocket(clients, socketId)
    decreases |clients|
  {
    if |clients| == 0 {
    } else {
      var head := clients[0];
      var tail := clients[1..];
      assert clients == [head] + tail;
      if head.socketId == socketId {
        // The head cannot start `r`, so `r` is matched inside the tail.
        assert |r| == 0 || r[0] != head;
        forall c: Client | c.socketId != socketId
          ensures multiset(r)[c] == multiset(tail)[c]
        {
          assert multiset(clients)[c] == multiset(tail)[c];
        }
        RemovalIsUnique(tail, socketId, r);
      } else {
        // The head must be kept, otherwise `r` would lose one occurrence of it.
        if |r| == 0 || !(r[0] == head && IsSubsequence(r[1..], tail)) {
          SubsequenceMultiset(r, tail);
          assert false;
        }
        assert r == [head] + r[1..];
        forall i | 0 <= i < |r[1..]|
          ensures r[1..][i].socketId != socketId
        {
          assert r[1..][i] == r[i + 1];
        }
        forall c: Client | c.socketId != socketId
          ensures multiset(r[1..])[c] == multiset(tail)[c]
        {
          assert multiset(r)[c] == multiset([head])[c] + multiset(r[1..])[c];
          assert multiset(clients)[c] == multiset([head])[c] + multiset(tail)[c];
        }
        RemovalIsUnique(tail, socketId, r[1..]);
      }
    }
  }

}
