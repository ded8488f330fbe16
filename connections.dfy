/**
 * The WebSocket subscriber registry: the list of active connection handles
 * and what has been sent to each handle.
 */
module Connections {
  import opened Wrappers

  /** A WebSocket connection handle; handles are compared by identity. */
  type ConnId(==, !new)

  /** The error `list.remove` raises for a handle that is not in the list. */
  datatype RegistryError = ValueError(handle: ConnId)

  /** How often `c` occurs in `s`. */
  function Count(s: seq<ConnId>, c: ConnId): (n: nat)
    ensures n == 0 <==> c !in s
    ensures n <= |s|
  {
    if s == [] then 0 else Count(s[..|s| - 1], c) + (if s[|s| - 1] == c then 1 else 0)
  }

  /** The position of the first occurrence of `c` in `s`, or `|s|` if none. */
  function IndexOf(s: seq<ConnId>, c: ConnId): (k: nat)
    ensures k <= |s|
    ensures k < |s| <==> c in s
    ensures k < |s| ==> s[k] == c
    ensures forall j :: 0 <= j < k ==> s[j] != c
  {
    if s == [] then 0 else if s[0] == c then 0 else 1 + IndexOf(s[1..], c)
  }

  /** `list.remove(c)` on a list holding `c`: drop its first occurrence. */
  function RemoveFirst(s: seq<ConnId>, c: ConnId): (r: seq<ConnId>)
    ensures c in s ==> |r| == |s| - 1
    ensures c !in s ==> r == s
  {
    if s == [] then []
    else
      assert s == [s[0]] + s[1..];
      if s[0] == c then s[1..] else [s[0]] + RemoveFirst(s[1..], c)
  }

  /** Removal cuts the list at the first occurrence and keeps every other entry in order. */
  lemma {:induction false} RemoveFirstSplits(s: seq<ConnId>, c: ConnId)
    requires c in s
    ensures RemoveFirst(s, c) == s[..IndexOf(s, c)] + s[IndexOf(s, c) + 1..]
  {
    if s[0] != c {
      var t := s[1..];
      var k := IndexOf(t, c);
      assert IndexOf(s, c) == k + 1;
      RemoveFirstSplits(t, c);
      calc {
        RemoveFirst(s, c);
        [s[0]] + RemoveFirst(t, c);
        [s[0]] + (t[..k] + t[k + 1..]);
        { assert s[..k + 1] == [s[0]] + t[..k]; assert s[k + 2..] == t[k + 1..]; }
        s[..k + 1] + s[k + 2..];
      }
    }
  }

  /** Registering a handle that was not registered and then removing it restores the list. */
  lemma {:induction false} ConnectThenDisconnect(s: seq<ConnId>, c: ConnId)
    requires c !in s
    ensures RemoveFirst(s + [c], c) == s
  {
    if s != [] {
      assert (s + [c])[1..] == s[1..] + [c];
      ConnectThenDisconnect(s[1..], c);
    }
  }

  /** Removal takes away one copy of the handle and keeps every other entry. */
  lemma {:induction false} RemoveFirstMultiset(s: seq<ConnId>, c: ConnId)
    ensures multiset(RemoveFirst(s, c)) == multiset(s) - multiset{c}
  {
    if s != [] {
      assert s == [s[0]] + s[1..];
      RemoveFirstMultiset(s[1..], c);
    }
  }

  /** Removal counts down exactly the removed handle. */
  lemma RemoveFirstCount(s: seq<ConnId>, c: ConnId, d: ConnId)
    requires c in s
    ensures Count(RemoveFirst(s, c), d) == Count(s, d) - (if d == c then 1 else 0)
  {
    RemoveFirstMultiset(s, c);
    CountIsMultiplicity(s, d);
    CountIsMultiplicity(RemoveFirst(s, c), d);
  }

  lemma {:induction false} CountIsMultiplicity(s: seq<ConnId>, c: ConnId)
    ensures Count(s, c) == multiset(s)[c]
  {
    if s != [] {
      assert s == s[..|s| - 1] + [s[|s| - 1]];
      CountIsMultiplicity(s[..|s| - 1], c);
    }
  }

  /** `n` copies of the message `m`. */
  function Repeat(m: string, n: nat): (r: seq<string>)
    ensures |r| == n
    ensures forall k :: 0 <= k < n ==> r[k] == m
  {
    if n == 0 then [] else Repeat(m, n - 1) + [m]
  }

  /** Each message of `msgs`, in order, `n` times over: what a handle registered `n` times receives. */
  function Stream(msgs: seq<string>, n: nat): (r: seq<string>)
  {
    if msgs == [] then [] else Stream(msgs[..|msgs| - 1], n) + Repeat(msgs[|msgs| - 1], n)
  }

  /** A handle registered once receives the messages exactly, in order. */
  lemma {:induction false} StreamOnce(msgs: seq<string>)
    ensures Stream(msgs, 1) == msgs
  {
    if msgs != [] {
      StreamOnce(msgs[..|msgs| - 1]);
      assert msgs == msgs[..|msgs| - 1] + [msgs[|msgs| - 1]];
    }
  }

  /** A handle that is not registered receives nothing. */
  lemma {:induction false} StreamNever(msgs: seq<string>)
    ensures Stream(msgs, 0) == []
  {
    if msgs != [] {
      StreamNever(msgs[..|msgs| - 1]);
    }
  }

  /** The position of the first handle in `s` whose send fails, or `|s|` if none. */
  function FirstBroken(s: seq<ConnId>, broken: set<ConnId>): (k: nat)
    ensures k <= |s|
    ensures k < |s| ==> s[k] in broken
    ensures forall j :: 0 <= j < k ==> s[j] !in broken
  {
    if s == [] then 0 else if s[0] in broken then 0 else 1 + FirstBroken(s[1..], broken)
  }

  /** The first failing position is the one before which no send fails and at which one does. */
  lemma FirstBrokenIs(s: seq<ConnId>, broken: set<ConnId>, i: nat)
    requires i <= |s|
    requires forall j :: 0 <= j < i ==> s[j] !in broken
    requires i < |s| ==> s[i] in broken
    ensures FirstBroken(s, broken) == i
  {
  }

  /** What has been sent to `c` so far, according to the outbox map. */
  function SentIn(outbox: map<ConnId, seq<string>>, c: ConnId): (r: seq<string>)
  {
    if c in outbox then outbox[c] else []
  }

  /**
   * The outbox after sending `message` on each handle of `conns`, in order.
   * `DeliverSends` states what each handle then holds.
   */
  function Deliver(outbox: map<ConnId, seq<string>>, conns: seq<ConnId>, message: string): (r: map<ConnId, seq<string>>)
  {
    if conns == [] then outbox
    else
      var last := conns[|conns| - 1];
      var before := Deliver(outbox, conns[..|conns| - 1], message);
      before[last := SentIn(before, last) + [message]]
  }

  /** Delivering to a list sends the message to each handle once per occurrence, after what it had. */
  lemma {:induction false} DeliverSends(outbox: map<ConnId, seq<string>>, conns: seq<ConnId>, message: string, c: ConnId)
    ensures SentIn(Deliver(outbox, conns, message), c) == SentIn(outbox, c) + Repeat(message, Count(conns, c))
  {
    if conns != [] {
      DeliverSends(outbox, conns[..|conns| - 1], message, c);
    }
  }

  /**
   * The outbox after each message of `msgs`, in order, has been delivered
   * to every handle of `conns`. `DeliverEachSends` states what each handle
   * then holds.
   */
  function DeliverEach(outbox: map<ConnId, seq<string>>, conns: seq<ConnId>, msgs: seq<string>): (r: map<ConnId, seq<string>>)
  {
    if msgs == [] then outbox
    else Deliver(DeliverEach(outbox, conns, msgs[..|msgs| - 1]), conns, msgs[|msgs| - 1])
  }

  /** Successive broadcasts to one list reach each handle in broadcast order, once per occurrence. */
  lemma {:induction false} DeliverEachSends(outbox: map<ConnId, seq<string>>, conns: seq<ConnId>, msgs: seq<string>, c: ConnId)
    ensures SentIn(DeliverEach(outbox, conns, msgs), c) == SentIn(outbox, c) + Stream(msgs, Count(conns, c))
  {
    if msgs != [] {
      var init, last, k := msgs[..|msgs| - 1], msgs[|msgs| - 1], Count(conns, c);
      var mid := DeliverEach(outbox, conns, init);
      calc {
        SentIn(DeliverEach(outbox, conns, msgs), c);
        SentIn(Deliver(mid, conns, last), c);
        { DeliverSends(mid, conns, last, c); }
        SentIn(mid, c) + Repeat(last, k);
        { DeliverEachSends(outbox, conns, init, c); }
        (SentIn(outbox, c) + Stream(init, k)) + Repeat(last, k);
        SentIn(outbox, c) + (Stream(init, k) + Repeat(last, k));
        SentIn(outbox, c) + Stream(msgs, k);
      }
    }
  }

  /** Delivering to one more entry of a list appends the message to that entry's handle. */
  lemma DeliverStep(outbox: map<ConnId, seq<string>>, conns: seq<ConnId>, i: nat, message: string,
                    before: map<ConnId, seq<string>>)
    requires i < |conns|
    requires before == Deliver(outbox, conns[..i], message)
    ensures Deliver(outbox, conns[..i + 1], message) == before[conns[i] := SentIn(before, conns[i]) + [message]]
  {
    assert conns[..i + 1][..i] == conns[..i];
  }

  /** `DeliverSends` for every handle at once. */
  lemma DeliverSendsAll(outbox: map<ConnId, seq<string>>, conns: seq<ConnId>, message: string)
    ensures forall c :: SentIn(Deliver(outbox, conns, message), c) == SentIn(outbox, c) + Repeat(message, Count(conns, c))
  {
    forall c ensures SentIn(Deliver(outbox, conns, message), c) == SentIn(outbox, c) + Repeat(message, Count(conns, c)) {
      DeliverSends(outbox, conns, message, c);
    }
  }

  /**
   * `ConnectionManager`: the list of active connections. `outbox` records,
   * per handle, every text sent on it, in the order it was sent.
   */
  class ConnectionManager {
    var activeConnections: seq<ConnId>
    var outbox: map<ConnId, seq<string>>

    /** Everything sent to `c`, in order. */
    function Sent(c: ConnId): (r: seq<string>)
      reads this
    {
      SentIn(outbox, c)
    }

    /** A new manager has no active connections and has sent nothing. */
    constructor ()
      ensures activeConnections == []
      ensures forall c :: Sent(c) == []
    {
      activeConnections := [];
      outbox := map[];
    }

    /** `connect`: the handle is appended after every handle already registered. */
    method Connect(c: ConnId)
      modifies this
      ensures activeConnections == old(activeConnections) + [c]
      ensures outbox == old(outbox)
    {
      activeConnections := activeConnections + [c];
    }

    /**
     * `disconnect`: the first occurrence of `c` is removed; a handle that
     * is not registered raises `ValueError` and changes nothing.
     */
    method Disconnect(c: ConnId) returns (r: Outcome<RegistryError>)
      modifies this
      ensures r == if c in old(activeConnections) then Pass else Fail(ValueError(c))
      ensures activeConnections == RemoveFirst(old(activeConnections), c)
      ensures outbox == old(outbox)
    {
      if c !in activeConnections {
        return Fail(ValueError(c));
      }
      activeConnections := RemoveFirst(activeConnections, c);
      r := Pass;
    }

    /**
     * `broadcast`: `message` is sent to each list entry in list order. The
     * first send that fails (a handle in `broken`) raises and ends the loop,
     * so entries before it have the message and later entries do not. The
     * list itself is unchanged.
     */
    method Broadcast(message: string, broken: set<ConnId>) returns (failed: Option<ConnId>)
      modifies this
      ensures activeConnections == old(activeConnections)
      ensures var n := FirstBroken(activeConnections, broken);
        && outbox == Deliver(old(outbox), activeConnections[..n], message)
        && failed == (if n < |activeConnections| then Some(activeConnections[n]) else None)
        && forall c :: Sent(c) == SentIn(old(outbox), c) + Repeat(message, Count(activeConnections[..n], c))
    {
      var conns := activeConnections;
      ghost var start := outbox;
      var i := 0;
      failed := None;
      while i < |conns|
        invariant 0 <= i <= |conns|
        invariant activeConnections == conns
        invariant forall j :: 0 <= j < i ==> conns[j] !in broken
        invariant failed == None
        invariant outbox == Deliver(start, conns[..i], message)
      {
        var conn := conns[i];
        if conn in broken {
          failed := Some(conn);
          break;
        } else {
          DeliverStep(start, conns, i, message, outbox);
          outbox := outbox[conn := SentIn(outbox, conn) + [message]];
          i := i + 1;
        }
      }
      FirstBrokenIs(conns, broken, i);
      DeliverSendsAll(start, conns[..i], message);
    }
  }
}
