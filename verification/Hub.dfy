/** Topic-keyed broadcast hub over bounded channels that drop their oldest entry. */
module Broadcast {

  /**
   * A bounded broadcast channel. `ring` holds the newest entries, at most `capacity`
   * of them, and `base` is the position of the oldest one still held.
   */
  datatype Channel<T> = Channel(capacity: nat, base: nat, ring: seq<T>)
  {
    predicate Valid()
    {
      && 0 < capacity
      && |ring| <= capacity
      && (0 < base ==> |ring| == capacity)
    }

    /** Position the next entry will take; new subscribers start here. */
    function Tail(): nat { base + |ring| }

    function Send(x: T): (c: Channel<T>)
      requires Valid()
      ensures c.Valid()
      ensures c.capacity == capacity && c.Tail() == Tail() + 1
    {
      if |ring| < capacity
      then Channel(capacity, base, ring + [x])
      else Channel(capacity, base + 1, ring[1..] + [x])
    }

    /** One receive at `cursor`: nothing yet, the entry, or how many entries were overwritten. */
    function Receive(cursor: nat): Received<T>
      requires cursor <= Tail()
    {
      if cursor < base then Lagged(base - cursor)
      else if cursor < Tail() then Item(ring[cursor - base])
      else Nothing
    }

    function CursorAfter(cursor: nat): nat
      requires cursor <= Tail()
    {
      if cursor < base then base
      else if cursor < Tail() then cursor + 1
      else cursor
    }
  }

  datatype Received<T> = Nothing | Item(value: T) | Lagged(missed: nat)

  /** The channel holds exactly the newest part of the whole history of accepted entries. */
  ghost predicate Holds<T(!new)>(c: Channel<T>, history: seq<T>)
  {
    c.Valid() && c.Tail() == |history| && c.ring == history[c.base..]
  }

  lemma SendExtendsHistory<T(!new)>(c: Channel<T>, history: seq<T>, x: T)
    requires Holds(c, history)
    ensures Holds(c.Send(x), history + [x])
  {
    var after := c.Send(x);
    assert after.ring == (history + [x])[after.base..];
  }

  /** A receive never skips an entry silently: it yields the next entry or reports the exact number lost. */
  lemma ReceiveAccountsForEveryEntry<T(!new)>(c: Channel<T>, history: seq<T>, cursor: nat)
    requires Holds(c, history) && cursor <= |history|
    ensures match c.Receive(cursor)
            case Nothing => cursor == |history| && c.CursorAfter(cursor) == cursor
            case Item(x) => cursor < |history| && x == history[cursor] && c.CursorAfter(cursor) == cursor + 1
            case Lagged(n) => 0 < n && c.CursorAfter(cursor) == cursor + n <= |history|
                              && cursor + n == |history| - c.capacity
  {
  }
}

module Hub {
  import opened Broadcast

  /** A topic's channel and the number of receivers still alive. */
  datatype TopicState<T> = TopicState(channel: Channel<T>, receivers: nat)

  class Hub<Topic(==), T> {
    const capacity: nat
    var topics: map<Topic, TopicState<T>>

    ghost predicate Valid()
      reads this
    {
      0 < capacity && forall t | t in topics :: topics[t].channel.Valid()
    }

    constructor (capacity: nat)
      requires 0 < capacity
      ensures Valid() && topics == map[] && this.capacity == capacity
    {
      this.capacity := capacity;
      topics := map[];
    }

    /** Dropped when the topic was never subscribed or nobody listens any more; otherwise appended. */
    method Publish(topic: Topic, data: T)
      requires Valid()
      modifies this
      ensures Valid()
      ensures topics == if topic in old(topics) && 0 < old(topics)[topic].receivers
                        then old(topics)[topic := old(topics)[topic].(channel := old(topics)[topic].channel.Send(data))]
                        else old(topics)
    {
      if topic in topics && 0 < topics[topic].receivers {
        topics := topics[topic := topics[topic].(channel := topics[topic].channel.Send(data))];
      }
    }

    /** Creates the topic on first use; the new receiver sees only what is published from now on. */
    method Subscribe(topic: Topic) returns (cursor: nat)
      requires Valid()
      modifies this
      ensures Valid()
      ensures topic in topics && cursor == topics[topic].channel.Tail()
      ensures topics[topic].channel == (if topic in old(topics) then old(topics)[topic].channel else Channel(capacity, 0, []))
      ensures topics[topic].receivers == 1 + (if topic in old(topics) then old(topics)[topic].receivers else 0)
      ensures topics == old(topics)[topic := topics[topic]]
    {
      if topic !in topics {
        topics := topics[topic := TopicState(Channel(capacity, 0, []), 0)];
      }
      var state := topics[topic];
      topics := topics[topic := state.(receivers := state.receivers + 1)];
      cursor := state.channel.Tail();
    }

    /** A receiver goes away; once the last one is gone, publications are dropped until somebody subscribes again. */
    method DropReceiver(topic: Topic)
      requires Valid() && topic in topics && 0 < topics[topic].receivers
      modifies this
      ensures Valid()
      ensures topics == old(topics)[topic := old(topics)[topic].(receivers := old(topics)[topic].receivers - 1)]
    {
      topics := topics[topic := topics[topic].(receivers := topics[topic].receivers - 1)];
    }
  }
}
