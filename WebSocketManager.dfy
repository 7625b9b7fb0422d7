/** WebSocketConnectionManager (app/utils/websocket.py): the registry from
    user id to the live WebSocket of that user. The dictionary
    `active_connections` is kept as its keys in insertion order (`keys`) and
    the key-to-handle map (`conns`), because `disconnect` scans it in that
    order. Handles are compared with `==`, as the source compares WebSocket
    objects. What goes over the wire is recorded in the ghost log `wire`. */
module WebSocketManager {
  import opened Base

  /** A JSON text message sent with `send_json`. */
  datatype Frame =
    | Notification(message: string)               // {"message": message}
    | CloseMessage(code: int, reason: string)     // {"type": "websocket.close", "code": code, "reason": reason}

  /** A notification a signal hands to `send_notification`: the user it is
      for and the message text. */
  datatype Notice = Notice(recipient: int, message: string)

  /** One I/O step on a handle: the handshake is accepted, or a frame is sent. */
  datatype WireEvent<H> = Accepted(ws: H) | Sent(ws: H, frame: Frame)

  /** A dictionary with insertion order: each key listed once, in the order
      it was first inserted, and exactly the listed keys mapped. */
  datatype Registry<H> = Registry(keys: seq<int>, conns: map<int, H>)
  {
    ghost predicate Valid()
    {
      && (forall i, j :: 0 <= i < j < |keys| ==> keys[i] != keys[j])
      && (forall k :: 0 <= k < |keys| ==> keys[k] in conns)
      && (forall u :: u in conns ==> u in keys)
    }
  }

  /** `active_connections[user_id] = ws`: an existing key keeps its place and
      takes the new handle; a new key goes last. */
  function Insert<H>(r: Registry<H>, userId: int, ws: H): (r': Registry<H>)
    requires r.Valid()
    ensures r'.Valid()
    ensures r'.conns == r.conns[userId := ws]
    ensures r'.keys == if userId in r.conns then r.keys else r.keys + [userId]
  {
    if userId in r.conns then Registry(r.keys, r.conns[userId := ws])
    else Registry(r.keys + [userId], r.conns[userId := ws])
  }

  /** The position, in insertion order, of the first entry whose handle is
      `ws`. */
  function FirstIndexOf<H(==)>(r: Registry<H>, ws: H): (i: Option<nat>)
    requires r.Valid()
    ensures i.Some? ==> i.value < |r.keys| && r.conns[r.keys[i.value]] == ws
    ensures i.Some? ==> forall k :: 0 <= k < i.value ==> r.conns[r.keys[k]] != ws
    ensures i.None? <==> forall u :: u in r.conns ==> r.conns[u] != ws
  {
    FirstIndexFrom(r, ws, 0)
  }

  function FirstIndexFrom<H(==)>(r: Registry<H>, ws: H, from: nat): (i: Option<nat>)
    requires r.Valid() && from <= |r.keys|
    requires forall k :: 0 <= k < from ==> r.conns[r.keys[k]] != ws
    ensures i.Some? ==> from <= i.value < |r.keys| && r.conns[r.keys[i.value]] == ws
    ensures i.Some? ==> forall k :: 0 <= k < i.value ==> r.conns[r.keys[k]] != ws
    ensures i.None? <==> forall k :: 0 <= k < |r.keys| ==> r.conns[r.keys[k]] != ws
    decreases |r.keys| - from
  {
    if from == |r.keys| then None
    else if r.conns[r.keys[from]] == ws then Some(from)
    else FirstIndexFrom(r, ws, from + 1)
  }

  /** The registry without the entry at position `i`. */
  function RemoveAt<H>(r: Registry<H>, i: nat): (r': Registry<H>)
    requires r.Valid() && i < |r.keys|
    ensures r'.Valid()
    ensures r'.conns == map u | u in r.conns && u != r.keys[i] :: r.conns[u]
    ensures r'.keys == r.keys[..i] + r.keys[i + 1..]
  {
    var r' := Registry(r.keys[..i] + r.keys[i + 1..], map u | u in r.conns && u != r.keys[i] :: r.conns[u]);
    assert forall u :: u in r'.keys <==> u in r.keys && u != r.keys[i] by {
      assert r.keys == r.keys[..i] + [r.keys[i]] + r.keys[i + 1..];
    }
    r'
  }

  /** `disconnect(ws)`: removes the first entry, in insertion order, whose
      handle is `ws`, and nothing else. */
  function Remove<H(==)>(r: Registry<H>, ws: H): (r': Registry<H>)
    requires r.Valid()
    ensures r'.Valid()
  {
    match FirstIndexOf(r, ws)
    case None => r
    case Some(i) => RemoveAt(r, i)
  }

  /** After a connect, the user's one entry is the new handle, whatever was
      there before, and every other user's entry is unchanged. */
  lemma ConnectOverwrites<H>(r: Registry<H>, userId: int, ws: H, other: int)
    requires r.Valid() && other != userId
    ensures Insert(r, userId, ws).conns[userId] == ws
    ensures other in Insert(r, userId, ws).conns <==> other in r.conns
    ensures other in r.conns ==> Insert(r, userId, ws).conns[other] == r.conns[other]
    ensures |Insert(r, userId, ws).keys| == |r.keys| + (if userId in r.conns then 0 else 1)
  {
  }

  /** A second connect for the same user supersedes the first: one entry,
      bound to the later handle. */
  lemma {:induction false} ReconnectKeepsOneEntry<H>(r: Registry<H>, userId: int, ws1: H, ws2: H)
    requires r.Valid()
    ensures var r2 := Insert(Insert(r, userId, ws1), userId, ws2);
            r2.conns[userId] == ws2 && multiset(r2.keys)[userId] == 1
  {
    var r1 := Insert(r, userId, ws1);
    var r2 := Insert(r1, userId, ws2);
    assert r2.keys == r1.keys;
    KeyCountOne(r1, userId);
  }

  lemma {:induction false} KeyCountOne<H>(r: Registry<H>, u: int)
    requires r.Valid() && u in r.conns
    ensures multiset(r.keys)[u] == 1
  {
    var i :| 0 <= i < |r.keys| && r.keys[i] == u;
    assert r.keys == r.keys[..i] + [u] + r.keys[i + 1..];
    assert u !in r.keys[..i] by {
      forall x | x in r.keys[..i] ensures x != u {
        var k :| 0 <= k < i && r.keys[..i][k] == x;
        assert r.keys[k] != r.keys[i];
      }
    }
    var tail := r.keys[i + 1..];
    assert u !in tail by {
      forall x | x in tail ensures x != u {
        var k :| 0 <= k < |tail| && tail[k] == x;
        assert r.keys[i + 1 + k] != r.keys[i];
      }
    }
    assert multiset(r.keys) == multiset(r.keys[..i]) + multiset{u} + multiset(tail);
  }

  /** Disconnect isolation: `disconnect(ws)` removes at most one entry, one
      whose handle is `ws`, and every entry it keeps is unchanged; when no
      entry holds `ws` it changes nothing. */
  lemma {:induction false} RemoveIsolation<H>(r: Registry<H>, ws: H)
    requires r.Valid()
    ensures Remove(r, ws).conns.Keys <= r.conns.Keys
    ensures |r.conns.Keys - Remove(r, ws).conns.Keys| <= 1
    ensures forall u :: u in r.conns && u !in Remove(r, ws).conns ==> r.conns[u] == ws
    ensures forall u :: u in Remove(r, ws).conns ==> Remove(r, ws).conns[u] == r.conns[u]
    ensures (forall u :: u in r.conns ==> r.conns[u] != ws) ==> Remove(r, ws) == r
    ensures FirstIndexOf(r, ws).Some? ==>
      r.keys[FirstIndexOf(r, ws).value] !in Remove(r, ws).conns &&
      |r.conns.Keys - Remove(r, ws).conns.Keys| == 1
  {
    match FirstIndexOf(r, ws)
    case None =>
    case Some(i) =>
      var gone := r.keys[i];
      assert r.conns.Keys - Remove(r, ws).conns.Keys == {gone};
  }

  /** Among several entries sharing a handle, `disconnect` removes the one
      inserted first and keeps the others. */
  lemma RemoveFirstInserted<H>(r: Registry<H>, ws: H, i: nat, j: nat)
    requires r.Valid() && i < j < |r.keys|
    requires r.conns[r.keys[i]] == ws && r.conns[r.keys[j]] == ws
    requires forall k :: 0 <= k < i ==> r.conns[r.keys[k]] != ws
    ensures r.keys[i] !in Remove(r, ws).conns
    ensures r.keys[j] in Remove(r, ws).conns
  {
    assert FirstIndexOf(r, ws) == Some(i);
  }

  /** The registry object. */
  class ConnectionManager<H(==)> {
    var keys: seq<int>
    var conns: map<int, H>
    ghost var wire: seq<WireEvent<H>>

    ghost function State(): Registry<H>
      reads this
    {
      Registry(keys, conns)
    }

    ghost predicate Valid()
      reads this
    {
      State().Valid()
    }

    constructor ()
      ensures Valid() && conns == map[] && keys == [] && wire == []
    {
      keys := [];
      conns := map[];
      wire := [];
    }

    /** `connect`: accepts the handshake, then sets the user's entry. */
    method Connect(userId: int, ws: H)
      requires Valid()
      modifies this
      ensures Valid()
      ensures State() == Insert(old(State()), userId, ws)
      ensures wire == old(wire) + [Accepted(ws)]
    {
      wire := wire + [Accepted(ws)];
      if userId !in conns {
        keys := keys + [userId];
      }
      conns := conns[userId := ws];
    }

    /** `close`: sends the close message (code 1000 and reason None unless
        given; None is sent as ""), then disconnects the handle. */
    method Close(ws: H, code: int := 1000, reason: Option<string> := None)
      requires Valid()
      modifies this
      ensures Valid()
      ensures wire == old(wire) + [Sent(ws, CloseMessage(code, if reason.Some? then reason.value else ""))]
      ensures State() == Remove(old(State()), ws)
    {
      var text := if reason.Some? then reason.value else "";
      wire := wire + [Sent(ws, CloseMessage(code, text))];
      Disconnect(ws);
    }

    /** `disconnect`: scans the entries in insertion order and deletes the
        first whose handle is `ws`. Sends nothing. */
    method Disconnect(ws: H)
      requires Valid()
      modifies this
      ensures Valid()
      ensures State() == Remove(old(State()), ws)
      ensures wire == old(wire)
    {
      var i := 0;
      while i < |keys|
        invariant 0 <= i <= |keys|
        invariant keys == old(keys) && conns == old(conns)
        invariant forall k :: 0 <= k < i ==> conns[keys[k]] != ws
      {
        if conns[keys[i]] == ws {
          assert FirstIndexOf(State(), ws) == Some(i);
          var removed := RemoveAt(Registry(keys, conns), i);
          keys, conns := removed.keys, removed.conns;
          return;
        }
        i := i + 1;
      }
    }

    /** `get_user_connection`: the user's handle, or None when the user has
        no entry. */
    function GetUserConnection(userId: int): (r: Option<H>)
      reads this
      ensures r.None? <==> userId !in conns
      ensures r.Some? ==> r.value == conns[userId]
    {
      if userId !in conns then None else Some(conns[userId])
    }

    /** `send_notification`: to a connected user, one {"message": message}
        frame over that user's handle; to anyone else, nothing. The registry
        is unchanged either way. When the transport fails (`fails`), the
        exception propagates (the result is true) and the entry stays. */
    method SendNotification(userId: int, message: string, fails: bool) returns (raised: bool)
      modifies this
      ensures keys == old(keys) && conns == old(conns)
      ensures userId !in conns ==> wire == old(wire) && !raised
      ensures userId in conns ==>
        raised == fails &&
        wire == old(wire) + (if fails then [] else [Sent(conns[userId], Notification(message))])
    {
      raised := false;
      var ws := GetUserConnection(userId);
      if ws.Some? {
        if fails {
          raised := true;
        } else {
          wire := wire + [Sent(ws.value, Notification(message))];
        }
      }
    }
  }
}
