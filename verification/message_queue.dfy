/**
 The one message queue that the acceptor, the workers and the rooms share. Receiving follows
 msgrcv() in the System Interfaces volume of IEEE Std 1003.1-2017: a positive selector takes the
 first message of that type, a negative one the first message of the lowest type that is not
 above its absolute value.
 */
module MessageQueue {
  import opened Wrappers
  import opened Protocol

  const MSG_JOIN := 1
  const MSG_CREATE := 2
  const MSG_WRK := 3
  const MSG_ROOM := -2

  /** A connection on its way to a worker, or a request on its way to a room. */
  datatype Message = Connection(socket: Conn) | Request(info: JoinInfo)

  function TypeOf(m: Message): int
  {
    match m
    case Connection(_) => MSG_WRK
    case Request(info) => if info.create then MSG_CREATE else MSG_JOIN
  }

  predicate Matches(m: Message, selector: int)
  {
    if selector > 0 then TypeOf(m) == selector
    else if selector < 0 then TypeOf(m) <= -selector
    else true
  }

  /** The message that msgrcv must deliver, said without computing it. */
  predicate MustDeliver(queue: seq<Message>, selector: int, i: nat)
    requires i < |queue|
  {
    && Matches(queue[i], selector)
    && (forall j :: 0 <= j < i && Matches(queue[j], selector) ==> selector < 0 && TypeOf(queue[i]) < TypeOf(queue[j]))
    && (forall j :: i < j < |queue| && Matches(queue[j], selector) ==>
          selector >= 0 || TypeOf(queue[i]) <= TypeOf(queue[j]))
  }

  function First(queue: seq<Message>, mtype: int): (r: Option<nat>)
    ensures r.Some? ==> r.value < |queue| && TypeOf(queue[r.value]) == mtype
    ensures r.Some? ==> forall j :: 0 <= j < r.value ==> TypeOf(queue[j]) != mtype
    ensures r.None? ==> forall j :: 0 <= j < |queue| ==> TypeOf(queue[j]) != mtype
  {
    if queue == [] then None
    else
      var n := |queue| - 1;
      match First(queue[..n], mtype)
      case Some(i) => Some(i)
      case None => if TypeOf(queue[n]) == mtype then Some(n) else None
  }

  /** The lowest type in the queue, above every type when it is empty. */
  function Lowest(queue: seq<Message>): (t: int)
    ensures forall j :: 0 <= j < |queue| ==> t <= TypeOf(queue[j])
    ensures t <= MSG_WRK ==> exists j :: 0 <= j < |queue| && TypeOf(queue[j]) == t
    ensures queue != [] ==> t <= MSG_WRK
  {
    if queue == [] then MSG_WRK + 1
    else
      var n := |queue| - 1;
      var t := Lowest(queue[..n]);
      if TypeOf(queue[n]) < t then TypeOf(queue[n]) else t
  }

  /** The position that msgrcv takes; none means that the call blocks. */
  function Select(queue: seq<Message>, selector: int): (r: Option<nat>)
    ensures r.Some? ==> r.value < |queue| && MustDeliver(queue, selector, r.value)
    ensures r.None? ==> forall j :: 0 <= j < |queue| ==> !Matches(queue[j], selector)
  {
    if selector > 0 then First(queue, selector)
    else if selector == 0 then if queue == [] then None else Some(0)
    else if Lowest(queue) <= -selector then First(queue, Lowest(queue))
    else None
  }

  // There is only one message to deliver.
  lemma DeliveryIsUnique(queue: seq<Message>, selector: int, i: nat, j: nat)
    requires i < |queue| && MustDeliver(queue, selector, i)
    requires j < |queue| && MustDeliver(queue, selector, j)
    ensures i == j
  {
  }

  function Without(queue: seq<Message>, i: nat): seq<Message>
    requires i < |queue|
  {
    queue[..i] + queue[i + 1..]
  }

  // What each of the three receivers can get. A room in INIT takes a request to create a room only
  // when nobody waits to join one; no room ever takes a connection meant for a worker.
  lemma WhatReceiversGet(queue: seq<Message>)
    ensures var w := Select(queue, MSG_WRK); w.Some? ==> queue[w.value].Connection?
    ensures var j := Select(queue, MSG_JOIN); j.Some? ==> queue[j.value].Request? && !queue[j.value].info.create
    ensures var r := Select(queue, MSG_ROOM);
            r.Some? ==>
              && queue[r.value].Request?
              && (queue[r.value].info.create <==> forall k :: 0 <= k < |queue| ==> TypeOf(queue[k]) != MSG_JOIN)
  {
    var r := Select(queue, MSG_ROOM);
    if r.Some? && queue[r.value].info.create {
      assert forall k :: 0 <= k < |queue| && Matches(queue[k], MSG_ROOM) ==> TypeOf(queue[k]) >= TypeOf(queue[r.value]);
    }
  }

  // ----- order of delivery -----

  function OfType(messages: seq<Message>, mtype: int): seq<Message>
  {
    if messages == [] then []
    else
      var n := |messages| - 1;
      OfType(messages[..n], mtype) + if TypeOf(messages[n]) == mtype then [messages[n]] else []
  }

  lemma {:induction false} OfTypeConcat(a: seq<Message>, b: seq<Message>, mtype: int)
    ensures OfType(a + b, mtype) == OfType(a, mtype) + OfType(b, mtype)
  {
    if b == [] {
      assert a + b == a;
    } else {
      assert (a + b)[..|a + b| - 1] == a + b[..|b| - 1];
      OfTypeConcat(a, b[..|b| - 1], mtype);
    }
  }

  lemma {:induction false} NoneOfType(messages: seq<Message>, mtype: int)
    requires forall j :: 0 <= j < |messages| ==> TypeOf(messages[j]) != mtype
    ensures OfType(messages, mtype) == []
  {
    if messages != [] {
      NoneOfType(messages[..|messages| - 1], mtype);
    }
  }

  /** Per type, what was sent is what was received followed by what is still queued, in order. */
  ghost predicate Fifo(sent: seq<Message>, received: seq<Message>, queue: seq<Message>)
  {
    forall mtype :: OfType(sent, mtype) == OfType(received, mtype) + OfType(queue, mtype)
  }

  lemma SendKeepsFifo(sent: seq<Message>, received: seq<Message>, queue: seq<Message>, m: Message)
    requires Fifo(sent, received, queue)
    ensures Fifo(sent + [m], received, queue + [m])
  {
    forall mtype ensures OfType(sent + [m], mtype) == OfType(received, mtype) + OfType(queue + [m], mtype) {
      OfTypeConcat(sent, [m], mtype);
      OfTypeConcat(queue, [m], mtype);
    }
  }

  lemma OfTypeOne(m: Message, mtype: int)
    ensures OfType([m], mtype) == if TypeOf(m) == mtype then [m] else []
  {
    assert [m][..0] == [];
  }

  // Taking the delivered message out of the middle leaves the order of every type alone.
  lemma TakeFromMiddle(queue: seq<Message>, selector: int, i: nat, mtype: int)
    requires i < |queue| && MustDeliver(queue, selector, i)
    ensures OfType(queue, mtype) == OfType([queue[i]], mtype) + OfType(Without(queue, i), mtype)
  {
    hide OfType;
    var front, back := queue[..i], queue[i + 1..];
    OfTypeOne(queue[i], mtype);
    assert queue == front + ([queue[i]] + back);
    OfTypeConcat(front, [queue[i]] + back, mtype);
    OfTypeConcat([queue[i]], back, mtype);
    OfTypeConcat(front, back, mtype);
    if TypeOf(queue[i]) == mtype {
      assert forall j :: 0 <= j < i && TypeOf(front[j]) == mtype ==> Matches(queue[j], selector);
      NoneOfType(front, mtype);
    }
  }

  lemma ReceiveKeepsFifo(sent: seq<Message>, received: seq<Message>, queue: seq<Message>, selector: int, i: nat)
    requires Fifo(sent, received, queue) && i < |queue| && MustDeliver(queue, selector, i)
    ensures Fifo(sent, received + [queue[i]], Without(queue, i))
  {
    forall mtype
      ensures OfType(sent, mtype) == OfType(received + [queue[i]], mtype) + OfType(Without(queue, i), mtype)
    {
      TakeFromMiddle(queue, selector, i, mtype);
      OfTypeConcat(received, [queue[i]], mtype);
    }
  }

  /** The queue as the threads use it, with the history of all sends and receives. */
  class Queue {
    var items: seq<Message>
    ghost var sent: seq<Message>
    ghost var received: seq<Message>

    ghost predicate Valid()
      reads this
    {
      Fifo(sent, received, items)
    }

    constructor ()
      ensures Valid() && items == sent == received == []
    {
      items, sent, received := [], [], [];
    }

    // A failed send leaves no trace; no caller looks at the outcome.
    method MsgSnd(m: Message, ok: bool)
      requires Valid()
      modifies this
      ensures Valid() && received == old(received)
      ensures ok ==> items == old(items) + [m] && sent == old(sent) + [m]
      ensures !ok ==> items == old(items) && sent == old(sent)
    {
      if ok {
        SendKeepsFifo(sent, received, items, m);
        items := items + [m];
        sent := sent + [m];
      }
    }

    // Searches the queue for the message to deliver and takes it out.
    method MsgRcv(selector: int) returns (m: Message)
      requires Valid() && Select(items, selector).Some?
      modifies this
      ensures Valid() && sent == old(sent) && received == old(received) + [m]
      ensures var i := Select(old(items), selector).value; m == old(items)[i] && items == Without(old(items), i)
    {
      var best: Option<nat> := None;
      for k := 0 to |items|
        invariant best == None ==> forall j :: 0 <= j < k ==> !Matches(items[j], selector)
        invariant best != None ==> best.value < k && MustDeliver(items[..k], selector, best.value)
      {
        if Matches(items[k], selector) {
          if best == None || (selector < 0 && TypeOf(items[k]) < TypeOf(items[best.value])) {
            best := Some(k);
          }
        }
        assert items[..k + 1][..k] == items[..k];
      }
      assert items[..|items|] == items;
      DeliveryIsUnique(items, selector, best.value, Select(items, selector).value);
      m := items[best.value];
      ReceiveKeepsFifo(sent, received, items, selector, best.value);
      items := Without(items, best.value);
      received := received + [m];
    }
  }
}
