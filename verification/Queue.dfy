/** The message queue of src/sc_tools.c: a linked list in which every item points to the older one. */
module Queue {
  import opened CBase

  const LIFETIME := 15000

  class Item {
    const index: nat
    const msg: string
    const expire: int
    var next: Item?

    constructor (index: nat, msg: string, expire: int, next: Item?)
      ensures this.index == index && this.msg == msg && this.expire == expire && this.next == next
    {
      this.index, this.msg, this.expire, this.next := index, msg, expire, next;
    }
  }

  /** What queue_pick answers when the queue holds msgs with indices from base on. */
  function Picked(base: nat, msgs: seq<string>, id: int): Option<string> {
    if msgs == [] || id >= base + |msgs| then None
    else if id < base then Some(msgs[0])
    else Some(msgs[id - base])
  }

  /** For id >= 0 that is the message with the least index not below id, and none if there is none. */
  lemma PickedIsLeast(base: nat, msgs: seq<string>, id: nat) returns (k: nat)
    ensures Picked(base, msgs, id) == None <==> msgs == [] || base + |msgs| - 1 < id
    ensures Picked(base, msgs, id) != None ==>
      && k < |msgs| && Picked(base, msgs, id) == Some(msgs[k])
      && base + k >= id && (k > 0 ==> base + k - 1 < id)
  {
    k := if id < base then 0 else id - base;
  }

  class MsgQueue {
    var lastIndex: nat
    var firstOut: Item?   // oldest
    var lastOut: Item?    // newest
    ghost var items: seq<Item>  // oldest first

    constructor ()
      ensures Valid() && Msgs() == [] && Base() == 0 && fresh(items)
    {
      lastIndex, firstOut, lastOut, items := 0, null, null, [];
    }

    /** The list from lastOut is finite and acyclic, ends at firstOut, and indices fall by one. */
    ghost predicate Valid()
      reads this, items
    {
      && |items| <= lastIndex
      && (forall k :: 0 <= k < |items| ==> items[k].index == lastIndex - |items| + k)
      && (forall k :: 0 < k < |items| ==> items[k].next == items[k - 1])
      && (items == [] ==> firstOut == null && lastOut == null)
      && (items != [] ==> firstOut == items[0] && lastOut == items[|items| - 1] && items[0].next == null)
    }

    // The messages, oldest first, and the index of the oldest.
    ghost function Msgs(): (m: seq<string>)
      reads this
      ensures |m| == |items| && forall k :: 0 <= k < |m| ==> m[k] == items[k].msg
    {
      var list := items;
      seq(|list|, k requires 0 <= k < |list| => list[k].msg)
    }

    ghost function Base(): int
      reads this
    {
      lastIndex - |items|
    }

    // src/sc_tools.c:155-174
    method Put(msg: string, now: int) returns (item: Item)
      requires Valid()
      modifies this
      ensures Valid() && fresh(item) && items == old(items) + [item]
      ensures Msgs() == old(Msgs()) + [msg] && Base() == old(Base()) && item.expire == LIFETIME + now
    {
      item := new Item(lastIndex, msg, LIFETIME + now, lastOut);
      lastIndex := lastIndex + 1;
      lastOut := item;
      if item.next == null {
        firstOut := item;
      }
      items := items + [item];
    }

    /** queue_get (src/sc_tools.c:176-187) as written: it returns the oldest message, but goes on to the
        next older item, of which there is none, and so empties the queue. */
    method Get() returns (msg: Option<string>)
      requires Valid()
      modifies this
      ensures Valid() && items == [] && lastIndex == old(lastIndex)
      ensures msg == if old(Msgs()) == [] then None else Some(old(Msgs())[0])
      ensures Msgs() == (if old(Msgs()) == [] then [] else old(Msgs())[1..]) <==> |old(Msgs())| <= 1
    {
      if firstOut == null {
        return None;
      }
      msg := Some(firstOut.msg);
      firstOut := firstOut.next;
      if firstOut == null {
        lastOut := null;
      }
      items := [];
    }

    // src/sc_tools.c:192-207
    method Pick(id: int) returns (msg: Option<string>)
      requires Valid()
      ensures Base() >= 0 && msg == Picked(Base(), Msgs(), id)
    {
      if firstOut == null {
        return None;
      }
      if id < 0 {
        return Some(firstOut.msg);
      }
      var nearest := lastOut;
      if nearest.index < id {
        return None;
      }
      var pt := lastOut;
      ghost var k := |items|;
      while pt != null
        invariant 0 <= k <= |items| && pt == (if k == 0 then null else items[k - 1])
        invariant nearest != null
        invariant nearest == items[if k == |items| then k - 1 else if k >= id - Base() then k else if id < Base() then 0 else id - Base()]
        decreases k
      {
        if pt.index >= id {
          nearest := pt;
        }
        pt := pt.next;
        k := k - 1;
      }
      return Some(nearest.msg);
    }

    // src/sc_tools.c:210-216
    method Size() returns (n: int)
      requires Valid()
      ensures n == |Msgs()|
    {
      if firstOut == null {
        return 0;
      }
      return 1 + lastOut.index - firstOut.index;
    }

    /** queue_expire (src/sc_tools.c:218-231): once the oldest message has expired, everything goes. */
    method Expire(now: int)
      requires Valid()
      modifies this
      ensures Valid() && lastIndex == old(lastIndex)
      ensures items == if old(items) != [] && old(items)[0].expire <= now then [] else old(items)
    {
      var item := firstOut;
      while item != null
        invariant Valid() && item == firstOut && lastIndex == old(lastIndex)
        invariant items == old(items) || (items == [] && old(items) != [] && old(items)[0].expire <= now)
        decreases |items|
      {
        if item.expire > now {
          return;
        }
        var _ := Get();
        item := firstOut;
      }
    }
  }
}
