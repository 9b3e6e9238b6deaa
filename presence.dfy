/**
 * The presence registry and message router of the socket server: a map
 * from a client-chosen identity to the socket that registered it, changed
 * by the `register`, `sendMessage` and `disconnect` handlers. Each handler
 * runs to completion on the event loop, so the server is a sequential state
 * machine; every emit is recorded as a delivery appended to an outbox.
 */
module Presence {
  import opened Wrappers
  import opened Seqs

  /** A connection, by an opaque id. */
  type Socket = nat

  /** One registry entry: an identity and the socket it maps to. */
  datatype Entry = Entry(id: string, socket: Socket)

  /** The events the server emits to clients (timestamps left out). */
  datatype Event =
    | ClientList(ids: seq<string>)
    | ReceiveMessage(from: string, message: string)
    | MessageSent(to: string, message: string)
    | MessageError(to: string, error: string)

  /** One emit: the event and the socket it is addressed to. */
  datatype Delivery = Delivery(dest: Socket, event: Event)

  // ---------------------------------------------------------------------
  // The registry as an insertion-ordered JavaScript Map
  // ---------------------------------------------------------------------

  /** The keys in insertion order: `Array.from(clients.keys())`. */
  function Ids(entries: seq<Entry>): (ids: seq<string>)
    ensures |ids| == |entries|
    ensures forall k :: 0 <= k < |entries| ==> ids[k] == entries[k].id
  {
    if entries == [] then [] else [entries[0].id] + Ids(entries[1..])
  }

  /** A Map never holds a key twice. */
  predicate UniqueKeys(entries: seq<Entry>)
  {
    NoDuplicates(Ids(entries))
  }

  /** Position of the entry with key `id`, if there is one (the first, should
      there be several). */
  function IndexOfId(entries: seq<Entry>, id: string): (r: Option<nat>)
    ensures r.None? ==> forall k :: 0 <= k < |entries| ==> entries[k].id != id
    ensures r.Some? ==> r.value < |entries| && entries[r.value].id == id
    ensures r.Some? ==> forall k :: 0 <= k < r.value ==> entries[k].id != id
  {
    if entries == [] then None
    else if entries[0].id == id then Some(0)
    else match IndexOfId(entries[1..], id)
      case None => None
      case Some(k) => Some(k + 1)
  }

  /** `clients.get(id)`. */
  function Get(entries: seq<Entry>, id: string): (r: Option<Socket>)
    ensures r.None? ==> forall k :: 0 <= k < |entries| ==> entries[k].id != id
    ensures r.Some? ==> Entry(id, r.value) in entries
  {
    match IndexOfId(entries, id)
    case None => None
    case Some(k) => Some(entries[k].socket)
  }

  /** `clients.set(id, s)`: an existing key keeps its place and gets the new
      socket; a new key goes to the end. */
  function Set(entries: seq<Entry>, id: string, s: Socket): seq<Entry>
  {
    match IndexOfId(entries, id)
    case Some(k) => entries[k := Entry(id, s)]
    case None => entries + [Entry(id, s)]
  }

  /** `clients.delete(id)`. */
  function Delete(entries: seq<Entry>, id: string): seq<Entry>
  {
    match IndexOfId(entries, id)
    case Some(k) => entries[..k] + entries[k + 1..]
    case None => entries
  }

  lemma IdsOfUpdate(entries: seq<Entry>, k: nat, e: Entry)
    requires k < |entries|
    ensures Ids(entries[k := e]) == Ids(entries)[k := e.id]
  {
  }

  lemma IdsOfAppend(entries: seq<Entry>, e: Entry)
    ensures Ids(entries + [e]) == Ids(entries) + [e.id]
  {
  }

  lemma {:induction false} IdsOfConcat(a: seq<Entry>, b: seq<Entry>)
    ensures Ids(a + b) == Ids(a) + Ids(b)
  {
    if a == [] {
      assert a + b == b;
    } else {
      assert (a + b)[0] == a[0];
      assert (a + b)[1..] == a[1..] + b;
      IdsOfConcat(a[1..], b);
    }
  }

  lemma IdsOfTake(entries: seq<Entry>, k: nat)
    requires k <= |entries|
    ensures Ids(entries[..k]) == Ids(entries)[..k]
  {
    var part := entries[..k];
    var l := Ids(part);
    var r := Ids(entries)[..k];
    forall j | 0 <= j < |l| ensures l[j] == r[j] {
      assert part[j] == entries[j];
    }
  }

  lemma {:induction false} IdsOfDrop(entries: seq<Entry>, k: nat)
    requires k <= |entries|
    ensures Ids(entries[k..]) == Ids(entries)[k..]
  {
    if k == 0 {
      assert entries[0..] == entries;
      assert Ids(entries)[0..] == Ids(entries);
    } else {
      var tail := entries[1..];
      IdsOfDrop(tail, k - 1);
      assert tail[k - 1..] == entries[k..];
      assert Ids(entries) == [entries[0].id] + Ids(tail);
      assert Ids(entries)[k..] == Ids(tail)[k - 1..];
    }
  }

  lemma IdsOfRemoveAt(entries: seq<Entry>, k: nat)
    requires k < |entries|
    ensures Ids(entries[..k] + entries[k + 1..]) == Ids(entries)[..k] + Ids(entries)[k + 1..]
  {
    IdsOfConcat(entries[..k], entries[k + 1..]);
    IdsOfTake(entries, k);
    IdsOfDrop(entries, k + 1);
  }

  /** The position the lookup finds is pinned down by its two properties. */
  lemma IndexOfIdIs(entries: seq<Entry>, id: string, k: nat)
    requires k < |entries| && entries[k].id == id
    requires forall j :: 0 <= j < k ==> entries[j].id != id
    ensures IndexOfId(entries, id) == Some(k)
  {
  }

  /** After `set(id, s)`, `id` maps to `s`, whatever it mapped to before
      (last writer wins). */
  lemma SetGetSame(entries: seq<Entry>, id: string, s: Socket)
    ensures Get(Set(entries, id, s), id) == Some(s)
  {
    var r := Set(entries, id, s);
    match IndexOfId(entries, id) {
      case Some(k) =>
        IndexOfIdIs(r, id, k);
      case None =>
        IndexOfIdIs(r, id, |entries|);
    }
  }

  /** `set(id, s)` leaves the socket of every other key as it was. */
  lemma SetGetOther(entries: seq<Entry>, id: string, s: Socket, other: string)
    requires other != id
    ensures Get(Set(entries, id, s), other) == Get(entries, other)
  {
    var r := Set(entries, id, s);
    assert forall j :: 0 <= j < |r| && j < |entries| && r[j].id == other ==> r[j] == entries[j];
    match IndexOfId(entries, other) {
      case Some(j) =>
        IndexOfIdIs(r, other, j);
      case None =>
        assert forall j :: 0 <= j < |r| ==> r[j].id != other;
    }
  }

  /** `set` keeps the key order: an existing key stays where it was, a new
      key is appended; keys stay unique. */
  lemma SetKeys(entries: seq<Entry>, id: string, s: Socket)
    requires UniqueKeys(entries)
    ensures Ids(Set(entries, id, s)) == if id in Ids(entries) then Ids(entries) else Ids(entries) + [id]
    ensures UniqueKeys(Set(entries, id, s))
  {
    match IndexOfId(entries, id)
    case Some(k) =>
      IdsOfUpdate(entries, k, Entry(id, s));
      assert Ids(entries)[k := id] == Ids(entries);
    case None =>
      IdsOfAppend(entries, Entry(id, s));
  }

  // ---------------------------------------------------------------------
  // Disconnect: the first entry, in insertion order, whose socket matches
  // ---------------------------------------------------------------------

  /** Position of the first entry whose socket is `s`. */
  function IndexOfSocket(entries: seq<Entry>, s: Socket): (r: Option<nat>)
    ensures r.None? <==> forall k :: 0 <= k < |entries| ==> entries[k].socket != s
    ensures r.Some? ==> r.value < |entries| && entries[r.value].socket == s
    ensures r.Some? ==> forall k :: 0 <= k < r.value ==> entries[k].socket != s
  {
    if entries == [] then None
    else if entries[0].socket == s then Some(0)
    else match IndexOfSocket(entries[1..], s)
      case None => None
      case Some(k) => Some(k + 1)
  }

  lemma IndexOfSocketIs(entries: seq<Entry>, s: Socket, i: nat)
    requires i < |entries| && entries[i].socket == s
    requires forall k :: 0 <= k < i ==> entries[k].socket != s
    ensures IndexOfSocket(entries, s) == Some(i)
  {
  }

  /** The registry after socket `s` goes away: the first entry for `s` is
      dropped and everything after it is kept, including further entries
      for `s` (the loop in the handler stops at the first match). */
  function Unregister(entries: seq<Entry>, s: Socket): seq<Entry>
  {
    if entries == [] then []
    else if entries[0].socket == s then entries[1..]
    else [entries[0]] + Unregister(entries[1..], s)
  }

  /** Unregister removes exactly the entry at the first position holding `s`. */
  lemma {:induction false} UnregisterAt(entries: seq<Entry>, s: Socket, i: nat)
    requires i < |entries| && entries[i].socket == s
    requires forall k :: 0 <= k < i ==> entries[k].socket != s
    ensures Unregister(entries, s) == entries[..i] + entries[i + 1..]
  {
    if i == 0 {
      assert entries[..0] + entries[1..] == entries[1..];
    } else {
      var tail := entries[1..];
      assert entries[0].socket != s;
      assert forall k :: 0 <= k < i - 1 ==> tail[k] == entries[k + 1];
      UnregisterAt(tail, s, i - 1);
      assert tail[..i - 1] == entries[1..i] && tail[i..] == entries[i + 1..];
      assert [entries[0]] + (entries[1..i] + entries[i + 1..]) == entries[..i] + entries[i + 1..];
    }
  }

  /** With no entry for `s`, Unregister changes nothing. */
  lemma {:induction false} UnregisterNone(entries: seq<Entry>, s: Socket)
    requires forall k :: 0 <= k < |entries| ==> entries[k].socket != s
    ensures Unregister(entries, s) == entries && IndexOfSocket(entries, s).None?
  {
    if entries != [] {
      var tail := entries[1..];
      assert forall k :: 0 <= k < |tail| ==> tail[k] == entries[k + 1];
      UnregisterNone(tail, s);
      assert [entries[0]] + tail == entries;
    }
  }

  /** Unregister removes exactly the entry at the first position holding
      `s`, and nothing when there is none. */
  lemma UnregisterRemovesFirst(entries: seq<Entry>, s: Socket)
    ensures Unregister(entries, s) == match IndexOfSocket(entries, s)
      case None => entries
      case Some(i) => entries[..i] + entries[i + 1..]
  {
    match IndexOfSocket(entries, s)
    case None => UnregisterNone(entries, s);
    case Some(i) => UnregisterAt(entries, s, i);
  }

  /** At most one entry goes, exactly one when `s` has an entry; the keys
      stay unique. */
  lemma UnregisterSize(entries: seq<Entry>, s: Socket)
    requires UniqueKeys(entries)
    ensures |Unregister(entries, s)| == if IndexOfSocket(entries, s).Some? then |entries| - 1 else |entries|
    ensures UniqueKeys(Unregister(entries, s))
  {
    UnregisterRemovesFirst(entries, s);
    match IndexOfSocket(entries, s) {
      case None =>
      case Some(i) =>
        IdsOfRemoveAt(entries, i);
        NoDuplicatesRemoveAt(Ids(entries), i);
    }
  }

  /** Deleting the key of the entry at `i` removes that entry. */
  lemma DeleteAt(entries: seq<Entry>, i: nat)
    requires UniqueKeys(entries) && i < |entries|
    ensures Delete(entries, entries[i].id) == entries[..i] + entries[i + 1..]
  {
    var ids := Ids(entries);
    forall j | 0 <= j < i ensures entries[j].id != entries[i].id {
      assert ids[j] == entries[j].id && ids[i] == entries[i].id;
    }
    IndexOfIdIs(entries, entries[i].id, i);
  }

  /** A socket that registered two identities loses only the first on
      disconnect: the second still routes to the closed socket. */
  lemma StaleEntryAfterDisconnect(a: string, b: string, s: Socket)
    requires a != b
    ensures var entries := Set(Set([], a, s), b, s);
            Unregister(entries, s) == [Entry(b, s)] && Get(Unregister(entries, s), b) == Some(s)
  {
    assert Set([], a, s) == [Entry(a, s)];
    assert IndexOfId([Entry(a, s)], b) == None;
  }

  // ---------------------------------------------------------------------
  // Emits and what each socket receives
  // ---------------------------------------------------------------------

  /** The events addressed to socket `d`, in emit order. */
  function Inbox(out: seq<Delivery>, d: Socket): seq<Event>
  {
    if out == [] then []
    else (if out[0].dest == d then [out[0].event] else []) + Inbox(out[1..], d)
  }

  lemma {:induction false} InboxAppend(a: seq<Delivery>, b: seq<Delivery>, d: Socket)
    ensures Inbox(a + b, d) == Inbox(a, d) + Inbox(b, d)
  {
    if a != [] {
      assert (a + b)[0] == a[0];
      assert (a + b)[1..] == a[1..] + b;
      InboxAppend(a[1..], b, d);
    } else {
      assert a + b == b;
    }
  }

  lemma InboxOne(x: Delivery, d: Socket)
    ensures Inbox([x], d) == if x.dest == d then [x.event] else []
  {
    assert [x][1..] == [];
  }

  /** `io.emit(ev)`: one delivery to each connected socket, in connection
      order. */
  function Fanout(connected: seq<Socket>, ev: Event): (r: seq<Delivery>)
    ensures |r| == |connected|
    ensures forall k :: 0 <= k < |r| ==> r[k].dest == connected[k] && r[k].event == ev
  {
    if connected == [] then [] else [Delivery(connected[0], ev)] + Fanout(connected[1..], ev)
  }

  /** A broadcast reaches every connected socket exactly once and no other. */
  lemma {:induction false} InboxFanout(connected: seq<Socket>, ev: Event, d: Socket)
    requires NoDuplicates(connected)
    ensures Inbox(Fanout(connected, ev), d) == if d in connected then [ev] else []
  {
    if connected != [] {
      InboxFanout(connected[1..], ev, d);
      assert connected[0] !in connected[1..];
      assert d in connected <==> d == connected[0] || d in connected[1..];
    }
  }

  /** A `register` broadcast: every connected socket gets exactly one
      `clientList`, no other socket gets one, and its payload is the keys in
      insertion order, each once, with the new identity at the end unless it
      was already registered. */
  lemma RegisterBroadcast(entries: seq<Entry>, connected: seq<Socket>, id: string, s: Socket, d: Socket)
    requires UniqueKeys(entries) && NoDuplicates(connected)
    ensures var ids := Ids(Set(entries, id, s));
            && Inbox(Fanout(connected, ClientList(ids)), d) == (if d in connected then [ClientList(ids)] else [])
            && NoDuplicates(ids)
            && ids == if id in Ids(entries) then Ids(entries) else Ids(entries) + [id]
  {
    SetKeys(entries, id, s);
    InboxFanout(connected, ClientList(Ids(Set(entries, id, s))), d);
  }

  /** The error text of a miss. */
  function OfflineError(to: string): string
  {
    "User " + to + " is offline"
  }

  /** The emits of `sendMessage` from socket `sender`: on a hit the
      recipient gets `receiveMessage` with `from` copied from the payload and
      the sender gets `messageSent`; on a miss only the sender hears back. */
  function Route(entries: seq<Entry>, sender: Socket, to: string, from: string, msg: string): (r: seq<Delivery>)
    ensures to in Ids(entries) ==>
      r == [Delivery(Get(entries, to).value, ReceiveMessage(from, msg)), Delivery(sender, MessageSent(to, msg))]
    ensures to !in Ids(entries) ==> r == [Delivery(sender, MessageError(to, OfflineError(to)))]
  {
    match Get(entries, to)
    case Some(recipient) =>
      [Delivery(recipient, ReceiveMessage(from, msg)), Delivery(sender, MessageSent(to, msg))]
    case None =>
      [Delivery(sender, MessageError(to, OfflineError(to)))]
  }

  /** A hit gives the recipient exactly one `receiveMessage` and the sender
      exactly one `messageSent` (both to the sender when it wrote to
      itself); no other socket gets anything. */
  lemma RouteHit(entries: seq<Entry>, sender: Socket, to: string, from: string, msg: string, d: Socket)
    requires Get(entries, to).Some?
    ensures var recipient := Get(entries, to).value;
            var inbox := Inbox(Route(entries, sender, to, from, msg), d);
            && (d == recipient && d != sender ==> inbox == [ReceiveMessage(from, msg)])
            && (d == sender && d != recipient ==> inbox == [MessageSent(to, msg)])
            && (d == sender && d == recipient ==> inbox == [ReceiveMessage(from, msg), MessageSent(to, msg)])
            && (d != sender && d != recipient ==> inbox == [])
  {
    var r := Route(entries, sender, to, from, msg);
    assert r == [r[0]] + [r[1]];
    InboxAppend([r[0]], [r[1]], d);
    InboxOne(r[0], d);
    InboxOne(r[1], d);
  }

  /** A miss gives the sender exactly one `messageError` naming `to`, and
      contacts no other socket. */
  lemma RouteMiss(entries: seq<Entry>, sender: Socket, to: string, from: string, msg: string, d: Socket)
    requires Get(entries, to).None?
    ensures Inbox(Route(entries, sender, to, from, msg), d) ==
      if d == sender then [MessageError(to, "User " + to + " is offline")] else []
  {
    InboxOne(Route(entries, sender, to, from, msg)[0], d);
  }

  /** The sender's registered identity plays no part: any `from` is passed on. */
  lemma FromNotChecked(entries: seq<Entry>, sender: Socket, mine: string, to: string, forged: string, msg: string)
    requires Get(entries, mine) == Some(sender) && forged != mine && to in Ids(entries)
    ensures Route(entries, sender, to, forged, msg)[0].event == ReceiveMessage(forged, msg)
  {
  }


  // ---------------------------------------------------------------------
  // The server
  // ---------------------------------------------------------------------

  /** The entry the handler's loop stops at is the first one naming `s`;
      deleting its key is exactly what Unregister does. */
  lemma DeleteFirstOfSocket(entries: seq<Entry>, s: Socket, i: nat)
    requires UniqueKeys(entries) && i < |entries| && entries[i].socket == s
    requires forall k :: 0 <= k < i ==> entries[k].socket != s
    ensures IndexOfSocket(entries, s) == Some(i)
    ensures Delete(entries, entries[i].id) == Unregister(entries, s)
  {
    IndexOfSocketIs(entries, s, i);
    UnregisterAt(entries, s, i);
    DeleteAt(entries, i);
  }

  /** Every socket the registry names was handed out before `next`. */
  predicate SocketsBelow(entries: seq<Entry>, next: Socket)
  {
    forall k :: 0 <= k < |entries| ==> entries[k].socket < next
  }

  /** Keys are unique, no socket is live twice, and every live socket and
      every socket the registry names was handed out before `next`. */
  ghost predicate ServerInvariant(clients: seq<Entry>, connected: seq<Socket>, next: Socket)
  {
    && UniqueKeys(clients)
    && NoDuplicates(connected)
    && (forall x :: x in connected ==> x < next)
    && SocketsBelow(clients, next)
  }

  /** `set(id, s)` with a socket below `next` keeps all sockets below it. */
  lemma SetSocketsBelow(entries: seq<Entry>, id: string, s: Socket, next: Socket)
    requires SocketsBelow(entries, next) && s < next
    ensures SocketsBelow(Set(entries, id, s), next)
  {
  }

  /** Disconnect only removes entries, so the bound stays. */
  lemma {:induction false} UnregisterSocketsBelow(entries: seq<Entry>, s: Socket, next: Socket)
    requires SocketsBelow(entries, next)
    ensures SocketsBelow(Unregister(entries, s), next)
  {
    if entries != [] && entries[0].socket != s {
      var tail := entries[1..];
      assert forall k :: 0 <= k < |tail| ==> tail[k] == entries[k + 1];
      UnregisterSocketsBelow(tail, s, next);
      var r := Unregister(entries, s);
      forall k | 0 <= k < |r| ensures r[k].socket < next {
        if k > 0 { assert r[k] == Unregister(tail, s)[k - 1]; }
      }
    }
  }

  /** A new connection keeps the invariant, and no registry entry names the
      new socket: a lookup by socket cannot hit an entry of an earlier
      connection. */
  lemma ConnectKeepsInvariant(clients: seq<Entry>, connected: seq<Socket>, next: Socket)
    requires ServerInvariant(clients, connected, next)
    ensures ServerInvariant(clients, connected + [next], next + 1)
    ensures forall k :: 0 <= k < |clients| ==> clients[k].socket != next
    ensures IndexOfSocket(clients, next).None?
  {
    NoDuplicatesAppend(connected, next);
  }

  /** A registration by a live socket keeps the invariant. */
  lemma RegisterKeepsInvariant(clients: seq<Entry>, connected: seq<Socket>, next: Socket, id: string, s: Socket)
    requires ServerInvariant(clients, connected, next) && s in connected
    ensures ServerInvariant(Set(clients, id, s), connected, next)
  {
    SetKeys(clients, id, s);
    SetSocketsBelow(clients, id, s, next);
  }

  /** A disconnect keeps the invariant. */
  lemma DisconnectKeepsInvariant(clients: seq<Entry>, connected: seq<Socket>, next: Socket, s: Socket)
    requires ServerInvariant(clients, connected, next)
    ensures ServerInvariant(Unregister(clients, s), Without(connected, s), next)
  {
    UnregisterSize(clients, s);
    UnregisterSocketsBelow(clients, s, next);
    WithoutNoDuplicates(connected, s);
  }

  class Server {
    /** The `clients` Map, in insertion order. */
    var clients: seq<Entry>
    /** The sockets of the namespace, in connection order. */
    var connected: seq<Socket>
    /** Every emit so far. */
    var outbox: seq<Delivery>
    /** The id the next connection gets. */
    var nextSocket: Socket

    ghost predicate Valid()
      reads this
    {
      ServerInvariant(clients, connected, nextSocket)
    }

    constructor ()
      ensures Valid()
      ensures clients == [] && connected == [] && outbox == []
    {
      clients, connected, outbox, nextSocket := [], [], [], 0;
    }

    /** A new connection: a fresh socket joins the namespace. */
    method Connect() returns (s: Socket)
      requires Valid()
      modifies this
      ensures Valid()
      ensures s == old(nextSocket) && s !in old(connected) && connected == old(connected) + [s]
      ensures forall k :: 0 <= k < |clients| ==> clients[k].socket != s
      ensures clients == old(clients) && outbox == old(outbox)
    {
      s := nextSocket;
      ConnectKeepsInvariant(clients, connected, s);
      nextSocket := nextSocket + 1;
      connected := connected + [s];
    }

    /** The `register` handler: map `clientId` to `s`, then broadcast the
        key list to every connected socket. */
    method Register(s: Socket, clientId: string)
      requires Valid() && s in connected
      modifies this
      ensures Valid()
      ensures clients == Set(old(clients), clientId, s)
      ensures outbox == old(outbox) + Fanout(connected, ClientList(Ids(clients)))
      ensures connected == old(connected) && nextSocket == old(nextSocket)
    {
      RegisterKeepsInvariant(clients, connected, nextSocket, clientId, s);
      clients := Set(clients, clientId, s);
      outbox := outbox + Fanout(connected, ClientList(Ids(clients)));
    }

    /** The `sendMessage` handler: route the payload `{to, from, message}`
        sent by socket `s`; the registry is only read. */
    method SendMessage(s: Socket, to: string, from: string, msg: string)
      requires Valid() && s in connected
      modifies this`outbox
      ensures Valid()
      ensures outbox == old(outbox) + Route(clients, s, to, from, msg)
    {
      var recipientSocket := Get(clients, to);
      if recipientSocket.Some? {
        outbox := outbox + [Delivery(recipientSocket.value, ReceiveMessage(from, msg))];
        outbox := outbox + [Delivery(s, MessageSent(to, msg))];
      } else {
        outbox := outbox + [Delivery(s, MessageError(to, OfflineError(to)))];
      }
    }

    /** The `disconnect` handler. The transport has already taken `s` out of
        the namespace (`live`), so the broadcast goes to the sockets that
        remain; the loop walks the entries in insertion order, deletes
        the first one whose socket is `s`, broadcasts the key list and stops. */
    method Disconnect(s: Socket)
      requires Valid() && s in connected
      modifies this
      ensures Valid()
      ensures connected == Without(old(connected), s) && nextSocket == old(nextSocket)
      ensures clients == Unregister(old(clients), s)
      ensures outbox == old(outbox) + if IndexOfSocket(old(clients), s).Some?
                                      then Fanout(connected, ClientList(Ids(clients)))
                                      else []
    {
      var live := Without(connected, s);
      ghost var found := false;
      var i := 0;
      while i < |clients|
        invariant 0 <= i <= |clients|
        invariant !found ==> clients == old(clients) && outbox == old(outbox)
        invariant !found ==> forall k :: 0 <= k < i ==> clients[k].socket != s
        invariant found ==> clients == Unregister(old(clients), s) && IndexOfSocket(old(clients), s).Some?
        invariant found ==> outbox == old(outbox) + Fanout(live, ClientList(Ids(clients)))
        invariant connected == old(connected) && nextSocket == old(nextSocket)
      {
        var entry := clients[i];
        if entry.socket == s {
          DeleteFirstOfSocket(clients, s, i);
          clients := Delete(clients, entry.id);
          outbox := outbox + Fanout(live, ClientList(Ids(clients)));
          found := true;
          break;
        }
        i := i + 1;
      }
      DisconnectKeepsInvariant(old(clients), connected, nextSocket, s);
      connected := live;
      if !found {
        UnregisterNone(clients, s);
      }
    }
  }
}
