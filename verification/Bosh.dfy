/** The BOSH client's outgoing queue: stanzas wait in `data`, go out in numbered bodies, and
    a body is posted again when its request fails. */
module Bosh {
  type Stanza = string

  /** Queued data; `Blank` asks for an empty request. */
  datatype Item = Node(stanza: Stanza) | Restart | Blank

  datatype Body = Body(rid: nat, stanzas: seq<Stanza>, restart: bool)

  /** `unsent` is an XMLHttpRequest in its initial state. */
  datatype Request = Request(body: Body, sends: nat, unsent: bool)

  // ---- conservation ----

  function Pending(data: seq<Item>): seq<Stanza> {
    if data == [] then []
      else Pending(data[..|data| - 1]) + (if data[|data| - 1].Node? then [data[|data| - 1].stanza] else [])
  }

  function Carried(bodies: seq<Body>): seq<Stanza> {
    if bodies == [] then [] else Carried(bodies[..|bodies| - 1]) + bodies[|bodies| - 1].stanzas
  }

  lemma CarriedAppend(bodies: seq<Body>, b: Body)
    ensures Carried(bodies + [b]) == Carried(bodies) + b.stanzas
  {
    assert (bodies + [b])[..|bodies|] == bodies;
  }

  lemma PendingAppend(data: seq<Item>, item: Item)
    ensures Pending(data + [item]) == Pending(data) + if item.Node? then [item.stanza] else []
  {
    assert (data + [item])[..|data|] == data;
  }

  lemma PendingNext(elements: seq<Item>, i: nat)
    requires i < |elements| && elements[i].Node?
    ensures Pending(elements[..i + 1]) == Pending(elements[..i]) + [elements[i].stanza]
  {
    assert elements[..i + 1] == elements[..i] + [elements[i]];
    PendingAppend(elements[..i], elements[i]);
  }

  lemma {:induction false} PendingCount(elements: seq<Item>, n: nat)
    requires n <= |elements| && forall k :: 0 <= k < n ==> elements[k].Node?
    ensures |Pending(elements[..n])| == n
  {
    if n > 0 {
      PendingCount(elements, n - 1);
      PendingNext(elements, n - 1);
    }
  }

  /** A stanza that is not pending any more is at one place of one body, the place its turn
      gives it. */
  lemma {:induction false} PlacedInOrder(bodies: seq<Body>, k: nat) returns (i: nat, j: nat)
    requires k < |Carried(bodies)|
    ensures i < |bodies| && j < |bodies[i].stanzas| && bodies[i].stanzas[j] == Carried(bodies)[k]
    ensures |Carried(bodies[..i])| + j == k
  {
    var n := |bodies| - 1;
    var before := Carried(bodies[..n]);
    if k < |before| {
      i, j := PlacedInOrder(bodies[..n], k);
      assert bodies[..n][..i] == bodies[..i];
    } else {
      i, j := n, k - |before|;
    }
  }

  /** How many elements come before the first one that is not an element. */
  function Leading(items: seq<Item>): (n: nat)
    ensures n <= |items| && (forall i :: 0 <= i < n ==> items[i].Node?) && (n < |items| ==> !items[n].Node?)
  {
    if items == [] || !items[0].Node? then 0 else 1 + Leading(items[1..])
  }

  lemma LeadingIs(items: seq<Item>, n: nat)
    requires n <= |items| && (forall k :: 0 <= k < n ==> items[k].Node?) && (n < |items| ==> !items[n].Node?)
    ensures n == Leading(items)
  {
  }

  // ---- numbering ----

  /** From `start` on, bodies are numbered one after the other up to the next number. */
  ghost predicate Consecutive(bodies: seq<Body>, start: nat, next: nat) {
    start <= |bodies| && forall i :: start <= i < |bodies| ==> bodies[i].rid == next - (|bodies| - i)
  }

  /** So within a session a number identifies a body. */
  lemma SameNumberSameBody(bodies: seq<Body>, start: nat, next: nat, i: nat, j: nat)
    requires Consecutive(bodies, start, next) && start <= i < |bodies| && start <= j < |bodies|
    requires bodies[i].rid == bodies[j].rid
    ensures i == j
  {
  }

  lemma ConsecutiveGrows(bodies: seq<Body>, start: nat, next: nat, b: Body)
    requires Consecutive(bodies, start, next) && b.rid == next
    ensures Consecutive(bodies + [b], start, next + 1)
  {
  }

  /** What is in a request, or was posted, is a body that was built. */
  ghost predicate Built(requests: seq<Request>, posted: seq<Body>, bodies: seq<Body>) {
    && (forall k :: 0 <= k < |requests| ==> requests[k].body in bodies)
    && (forall k :: 0 <= k < |posted| ==> posted[k] in bodies)
  }

  /** `restarts` says how many bodies there were whenever a restart was queued: it is still
      pending, or a body built since carries it; and no body carries one that was not queued. */
  ghost predicate RestartsKept(restarts: seq<nat>, data: seq<Item>, bodies: seq<Body>) {
    && (forall n :: n in restarts ==> n <= |bodies| && (Restart in data || CarriesSince(bodies, n)))
    && (forall i :: 0 <= i < |bodies| && bodies[i].restart ==> exists n :: n in restarts && n <= i)
    && (Restart in data ==> restarts != [])
  }

  ghost predicate CarriesSince(bodies: seq<Body>, n: nat) {
    exists i :: n <= i < |bodies| && bodies[i].restart
  }

  lemma RestartsQueued(restarts: seq<nat>, data: seq<Item>, bodies: seq<Body>, item: Item)
    requires RestartsKept(restarts, data, bodies)
    ensures RestartsKept(restarts + if item.Restart? then [|bodies|] else [], data + [item], bodies)
  {
    var more := restarts + if item.Restart? then [|bodies|] else [];
    assert Restart in data + [item] <==> Restart in data || item == Restart;
    forall i | 0 <= i < |bodies| && bodies[i].restart ensures exists n :: n in more && n <= i {
      var n :| n in restarts && n <= i;
      assert n in more;
    }
  }

  lemma RestartsFlushed(restarts: seq<nat>, data: seq<Item>, bodies: seq<Body>, b: Body)
    requires RestartsKept(restarts, data, bodies) && (b.restart <==> Restart in data)
    ensures RestartsKept(restarts, [], bodies + [b])
  {
    var all := bodies + [b];
    forall n | n in restarts ensures n <= |all| && CarriesSince(all, n) {
      if b.restart {
        assert all[|bodies|].restart;
      } else {
        var i :| n <= i < |bodies| && bodies[i].restart;
        assert all[i].restart;
      }
    }
    forall i | 0 <= i < |all| && all[i].restart ensures exists n :: n in restarts && n <= i {
      if i == |bodies| { assert restarts[0] in restarts; }
    }
  }

  lemma RestartsUntouched(restarts: seq<nat>, data: seq<Item>, bodies: seq<Body>, b: Body)
    requires RestartsKept(restarts, data, bodies) && !b.restart
    ensures RestartsKept(restarts, data, bodies + [b])
  {
    var all := bodies + [b];
    forall n | n in restarts ensures n <= |all| && (Restart in data || CarriesSince(all, n)) {
      if Restart !in data {
        var i :| n <= i < |bodies| && bodies[i].restart;
        assert all[i].restart;
      }
    }
  }

  // ---- the connection ----

  class Connection {
    var data: seq<Item>
    var requests: seq<Request>
    var rid: nat
    var authenticated: bool
    var disconnecting: bool
    var paused: bool
    const window: nat

    /** Every stanza ever queued, every body ever built, every body posted; the session's
        first body; how many bodies there were at each restart that was queued. */
    ghost var queued: seq<Stanza>
    ghost var bodies: seq<Body>
    ghost var posted: seq<Body>
    ghost var start: nat
    ghost var restarts: seq<nat>

    ghost predicate Valid()
      reads this
    {
      && queued == Carried(bodies) + Pending(data)
      && Consecutive(bodies, start, rid) && Built(requests, posted, bodies)
      && RestartsKept(restarts, data, bodies)
    }

    constructor (rid: nat, window: nat)
      ensures Valid() && data == [] && requests == [] && queued == [] && bodies == [] && restarts == []
    {
      data, requests, this.rid, this.window := [], [], rid, window;
      authenticated, disconnecting, paused := false, false, false;
      queued, bodies, posted, start, restarts := [], [], [], 0, [];
    }

    method Push(item: Item)
      requires Valid()
      modifies this`data, this`queued, this`restarts
      ensures Valid() && data == old(data) + [item]
      ensures queued == old(queued) + if item.Node? then [item.stanza] else []
      ensures restarts == old(restarts) + if item.Restart? then [|bodies|] else []
    {
      PendingAppend(data, item);
      RestartsQueued(restarts, data, bodies, item);
      restarts := restarts + if item.Restart? then [|bodies|] else [];
      data := data + [item];
      queued := queued + if item.Node? then [item.stanza] else [];
      assert queued == Carried(bodies) + Pending(data);
    }

    /** Queues elements up to the first thing that is none. */
    method QueueAll(elements: seq<Item>) returns (n: nat)
      requires Valid()
      modifies this`data, this`queued, this`restarts
      ensures restarts == old(restarts)
      ensures Valid() && n <= |elements| && (n < |elements| ==> !elements[n].Node?)
      ensures forall k :: 0 <= k < n ==> elements[k].Node?
      ensures data == old(data) + elements[..n] && queued == old(queued) + Pending(elements[..n])
    {
      n := 0;
      while n < |elements| && elements[n].Node?
        invariant Valid() && n <= |elements| && restarts == old(restarts)
        invariant forall k :: 0 <= k < n ==> elements[k].Node?
        invariant data == old(data) + elements[..n] && queued == old(queued) + Pending(elements[..n])
      {
        PendingNext(elements, n);
        Push(elements[n]);
        n := n + 1;
      }
    }

    /** `send`: what is not an element throws, after the elements before it are queued. */
    method Send(elements: seq<Item>, retry: bool) returns (thrown: bool)
      requires Valid()
      modifies this
      ensures Valid() && bodies == old(bodies) && restarts == old(restarts)
      ensures thrown <==> exists i :: 0 <= i < |elements| && !elements[i].Node?
      ensures data == old(data) + elements[..Leading(elements)]
      ensures queued == old(queued) + Pending(elements[..Leading(elements)])
      ensures |queued| == |old(queued)| + Leading(elements)
      ensures thrown ==> requests == old(requests) && posted == old(posted)
    {
      var n := QueueAll(elements);
      LeadingIs(elements, n);
      PendingCount(elements, n);
      thrown := n < |elements|;
      if !thrown { ThrottledRequestHandler(retry, retry); }
    }

    /** `_buildBody`, then a request for it at the end of the queue. */
    method PushRequest(stanzas: seq<Stanza>, restart: bool)
      requires Consecutive(bodies, start, rid) && Built(requests, posted, bodies)
      modifies this`rid, this`requests, this`bodies
      ensures var b := Body(old(rid), stanzas, restart);
        bodies == old(bodies) + [b] && requests == old(requests) + [Request(b, 0, true)] && rid == old(rid) + 1
      ensures Consecutive(bodies, start, rid) && Built(requests, posted, bodies)
      ensures Carried(bodies) == Carried(old(bodies)) + stanzas
    {
      var b := Body(rid, stanzas, restart);
      ConsecutiveGrows(bodies, start, rid, b);
      CarriedAppend(bodies, b);
      rid := rid + 1;
      requests := requests + [Request(b, 0, true)];
      bodies := bodies + [b];
    }

    static method Collect(items: seq<Item>) returns (stanzas: seq<Stanza>, restart: bool)
      ensures stanzas == Pending(items) && (restart <==> Restart in items)
    {
      stanzas, restart := [], false;
      for i := 0 to |items|
        invariant stanzas == Pending(items[..i]) && (restart <==> Restart in items[..i])
      {
        assert items[..i + 1] == items[..i] + [items[i]];
        PendingAppend(items[..i], items[i]);
        match items[i] {
          case Blank =>
          case Restart => restart := true;
          case Node(stanza) => stanzas := stanzas + [stanza];
        }
      }
      assert items[..|items|] == items;
    }

    /** Everything pending goes into one body, in order. */
    method FlushData()
      requires Valid() && data != []
      modifies this`data, this`rid, this`requests, this`bodies
      ensures Valid() && data == [] && Carried(bodies) == queued
      ensures var b := Body(old(rid), Pending(old(data)), Restart in old(data));
        bodies == old(bodies) + [b] && requests == old(requests) + [Request(b, 0, true)]
    {
      var stanzas, restart := Collect(data);
      RestartsFlushed(restarts, data, bodies, Body(rid, stanzas, restart));
      PushRequest(stanzas, restart);
      data := [];
    }

    /** ... and it is posted. */
    method FlushAndPost(retry: bool)
      requires Valid() && data != []
      modifies this`data, this`rid, this`requests, this`bodies, this`posted
      ensures Valid() && data == [] && Carried(bodies) == queued
      ensures var b := Body(old(rid), Pending(old(data)), Restart in old(data));
        bodies == old(bodies) + [b] && posted == old(posted) + [b]
    {
      FlushData();
      ProcessRequest(|requests| - 1, retry);
    }

    /** One idle cycle: what is pending goes out as one body, and a blank one if nothing is
        pending and no request is left; not while paused or with two requests out. */
    method OnIdle(retry: bool)
      requires Valid()
      modifies this
      ensures Valid() && queued == old(queued) && old(bodies) <= bodies && restarts == old(restarts)
      ensures var blank := authenticated && old(requests) == [] && old(data) == [] && !disconnecting;
        if |old(requests)| < 2 && !paused && (blank || old(data) != []) then
          && data == [] && Carried(bodies) == queued
          && var b := Body(old(rid), Pending(old(data)), Restart in old(data));
             bodies == old(bodies) + [b] && posted == old(posted) + [b]
        else bodies == old(bodies) && posted == old(posted) && requests == old(requests)
      ensures authenticated == old(authenticated) && disconnecting == old(disconnecting) && paused == old(paused)
    {
      if authenticated && |requests| == 0 && |data| == 0 && !disconnecting {
        Push(Blank);
        PendingAppend([], Blank);
        assert [] + [Blank] == [Blank];
      }
      if |requests| < 2 && |data| > 0 && !paused {
        FlushAndPost(retry);
      }
    }

    /** `_processRequest`: a dead request is replaced by a new one with the same number and
        payload; an unsent one is posted. */
    method ProcessRequest(i: nat, dead: bool)
      requires Valid() && i < |requests|
      modifies this`requests, this`posted
      ensures Valid() && |requests| == |old(requests)| && requests[i].body == old(requests)[i].body
      ensures forall k :: 0 <= k < |requests| && k != i ==> requests[k] == old(requests)[k]
      ensures if dead || old(requests)[i].unsent
        then posted == old(posted) + [old(requests)[i].body] && !requests[i].unsent
        else posted == old(posted) && requests == old(requests)
    {
      var r := requests[i];
      if dead {
        r := Request(r.body, r.sends, true);
      }
      if r.unsent {
        r := Request(r.body, r.sends + 1, false);
        posted := posted + [r.body];
      }
      requests := requests[i := r];
    }

    /** The first request is posted if it is dead or unsent; so is the second one, unless it
        has to wait because its number is outside the window. */
    method ThrottledRequestHandler(dead0: bool, dead1: bool)
      requires Valid()
      modifies this`requests, this`posted
      ensures Valid() && |requests| == |old(requests)|
      ensures forall k :: 0 <= k < |requests| ==> requests[k].body == old(requests)[k].body
      ensures |requests| > 1 && requests[1].body.rid - requests[0].body.rid >= window - 1 ==>
        requests[1..] == old(requests)[1..]
      ensures var first := |requests| > 0 && (dead0 || old(requests)[0].unsent);
        var near := |requests| > 1 && Abs(requests[0].body.rid - requests[1].body.rid) < window - 1;
        var second := near && (dead1 || old(requests)[1].unsent);
        posted == old(posted) + (if first then [requests[0].body] else []) + if second then [requests[1].body] else []
    {
      if |requests| == 0 { return; }
      ProcessRequest(0, dead0);
      if |requests| > 1 && Abs(requests[0].body.rid - requests[1].body.rid) < window - 1 {
        ProcessRequest(1, dead1);
      }
    }

    /** `_removeRequest`: the number and payload of the others stay. */
    method RemoveRequest(i: nat, dead: bool)
      requires Valid() && i < |requests|
      modifies this`requests, this`posted
      ensures Valid() && |requests| == |old(requests)| - 1
      ensures forall k :: 0 <= k < |requests| ==> requests[k].body == old(requests)[if k < i then k else k + 1].body
    {
      requests := requests[..i] + requests[i + 1..];
      ThrottledRequestHandler(dead, dead);
    }

    /** `connect`, `_connect_cb` and `_sendTerminate` build bodies of their own, without
        queued stanzas. */
    method SendControl(terminate: bool)
      requires Valid()
      modifies this
      ensures Valid() && queued == old(queued) && data == old(data) && restarts == old(restarts)
      ensures bodies == old(bodies) + [Body(old(rid), [], false)]
    {
      BuildControl(terminate);
      ThrottledRequestHandler(false, false);
    }

    method BuildControl(terminate: bool)
      requires Valid()
      modifies this`rid, this`requests, this`bodies, this`disconnecting
      ensures Valid() && bodies == old(bodies) + [Body(old(rid), [], false)]
    {
      RestartsUntouched(restarts, data, bodies, Body(rid, [], false));
      PushRequest([], false);
      disconnecting := disconnecting || terminate;
      assert Carried(bodies) == Carried(old(bodies));
    }

    /** `reset` forgets the requests and `_doDisconnect` does not; either way a new session
        starts at a random number, and queued data is not cleared. */
    method NewSession(random: nat, forget: bool)
      requires Valid()
      modifies this
      ensures Valid() && queued == old(queued) && data == old(data) && bodies == old(bodies) && start == |bodies|
      ensures restarts == old(restarts)
      ensures requests == if forget then [] else old(requests)
    {
      rid := random;
      if forget { requests := []; }
      authenticated, disconnecting := false, false;
      start := |bodies|;
    }

    /** Any run of calls, idle cycles, replies and resends.  Every stanza queued so far is in
        the bodies built so far, in order, or still pending; bodies already built never
        change, and everything posted is one of them. */
    method Run(events: seq<Event>)
      requires Valid()
      modifies this
      ensures Valid() && queued == Carried(bodies) + Pending(data) && old(restarts) <= restarts
      ensures forall n :: n in restarts ==> Restart in data || CarriesSince(bodies, n)
      ensures forall i :: 0 <= i < |bodies| && bodies[i].restart ==> exists n :: n in restarts && n <= i
      ensures old(bodies) <= bodies && old(queued) <= queued
      ensures forall k :: 0 <= k < |posted| ==> posted[k] in bodies
    {
      for k := 0 to |events|
        invariant Valid() && old(bodies) <= bodies && old(queued) <= queued && old(restarts) <= restarts
      {
        match events[k] {
          case Sending(elements, dead) =>
            var thrown := Send(elements, dead);
          case Restarting =>
            Push(Restart);
          case Idle(dead) =>
            OnIdle(dead);
          case Process(i, dead) =>
            if i < |requests| { ProcessRequest(i, dead); }
          case Remove(i, dead) =>
            if i < |requests| { RemoveRequest(i, dead); }
          case Control(terminate) =>
            SendControl(terminate);
          case Session(random, forget) =>
            NewSession(random, forget);
          case Pausing(pause) =>
            paused := pause;
        }
      }
    }
  }

  datatype Event =
    | Sending(elements: seq<Item>, dead: bool)
    | Restarting
    | Idle(dead: bool)
    | Process(i: nat, dead: bool)
    | Remove(i: nat, dead: bool)
    | Control(terminate: bool)
    | Session(random: nat, forget: bool)
    | Pausing(pause: bool)

  function Abs(n: int): nat { if n < 0 then -n else n }
}
