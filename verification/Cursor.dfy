/** How a web page follows the queue: it asks with the number of commands it has handled
    (src/web_server.c:99-126, html/crono.js:8-9, 53-79). */
module Cursor {
  import opened CBase
  import opened Queue
  import opened TextTools

  // What the server answers: a command if there is one, and the number it was asked with.
  datatype Answer = Answer(command: Option<string>, id: string)

  // readData of src/web_server.c.
  method ServerRead(queue: MsgQueue, idValue: string) returns (a: Answer)
    requires queue.Valid()
    ensures queue.Base() >= 0 && a.command == Asked(queue.Base(), queue.Msgs(), Atoi(idValue)) && a.id == Decimal(Atoi(idValue))
  {
    var cmdid := Atoi(idValue);
    var msg := queue.Pick(if cmdid <= 0 then -1 else cmdid);
    return Answer(msg, Decimal(cmdid));
  }

  function Asked(base: nat, msgs: seq<string>, id: int): Option<string> {
    Picked(base, msgs, if id <= 0 then -1 else id)
  }

  class Page {
    var lastID: int
    ghost var handled: seq<string>

    constructor ()
      ensures lastID == 0 && handled == []
    {
      lastID, handled := 0, [];
    }

    // parseCommand (html/crono.js:8-9); what the command does to the page is not modelled.
    method ParseCommand(command: string)
      modifies this
      ensures lastID == old(lastID) + 1 && handled == old(handled) + [command]
    {
      lastID := lastID + 1;
      handled := handled + [command];
    }

    // A page opened or restarted (html/index.html:50, 191).
    method Load()
      modifies this
      ensures lastID == 0 && handled == []
    {
      lastID, handled := 0, [];
    }

    /** readData (html/crono.js:53-79) with its answer handled at once. An empty command counts as none. */
    method ReadData(queue: MsgQueue)
      requires queue.Valid()
      modifies this
      ensures queue.Base() >= 0 &&
        View(lastID, handled) == AfterPoll(View(old(lastID), old(handled)), queue.Base(), queue.Msgs())
    {
      AtoiDecimal(lastID);
      var a := ServerRead(queue, Decimal(lastID));
      lastID := Atoi(a.id);
      if a.command.Some? && a.command.value != "" {
        ParseCommand(a.command.value);
      }
    }
  }

  datatype View = View(lastID: int, handled: seq<string>)

  function AfterPoll(v: View, base: nat, msgs: seq<string>): View {
    var c := Asked(base, msgs, v.lastID);
    if c.Some? && c.value != "" then View(v.lastID + 1, v.handled + [c.value]) else v
  }

  // ---- runs: everything ever put, what of it the queue has dropped, and the page

  datatype Net = Net(all: seq<string>, base: nat, view: View)

  datatype Act = Put(msg: string) | Poll | Drop | Load

  predicate Sound(n: Net) { n.base <= |n.all| }

  // Drop is queue_get or an expiry: the queue is emptied. Load is a new page.
  function Step(n: Net, a: Act): (n': Net)
    requires Sound(n)
    ensures Sound(n')
  {
    match a
    case Put(msg) => n.(all := n.all + [msg])
    case Poll => n.(view := AfterPoll(n.view, n.base, n.all[n.base..]))
    case Drop => n.(base := |n.all|)
    case Load => n.(view := View(0, []))
  }

  function Run(n: Net, acts: seq<Act>): (n': Net)
    requires Sound(n)
    ensures Sound(n')
    decreases |acts|
  {
    if acts == [] then n else Run(Step(n, acts[0]), acts[1..])
  }

  // ---- the runs are those of the objects

  ghost predicate Ties(n: Net, queue: MsgQueue, page: Page)
    reads page, queue, queue.items
  {
    && queue.Valid() && Sound(n) && queue.lastIndex == |n.all| && queue.Base() == n.base
    && queue.Msgs() == n.all[n.base..] && n.view == View(page.lastID, page.handled)
  }

  method Perform(a: Act, queue: MsgQueue, page: Page, now: int, ghost n: Net)
    requires Ties(n, queue, page)
    modifies queue, page
    ensures Ties(Step(n, a), queue, page)
  {
    hide AfterPoll;
    match a
    case Put(msg) =>
      var _ := queue.Put(msg, now);
      assert (n.all + [msg])[n.base..] == n.all[n.base..] + [msg];
    case Poll => page.ReadData(queue);
    case Drop => var _ := queue.Get();
    case Load => page.Load();
  }

  // The regular expiry of the manager thread (src/web_mgr.c:167): a Drop, or nothing.
  method ExpireTurn(queue: MsgQueue, page: Page, now: int, ghost n: Net) returns (ghost dropped: bool)
    requires Ties(n, queue, page)
    modifies queue
    ensures Ties(if dropped then Step(n, Drop) else n, queue, page)
    ensures dropped <==> old(queue.items) != [] && old(queue.items)[0].expire <= now
  {
    dropped := queue.items != [] && queue.items[0].expire <= now;
    queue.Expire(now);
  }

  // ---- what a page handles

  // The k-th command for a page that was loaded when index b was the oldest in the queue.
  function Kth(all: seq<string>, b: nat, k: nat): string
    requires b < |all| && k < |all|
  {
    if k < b then all[b] else all[k]
  }

  /** The page loaded at b has handled lastID commands: the one of index b over and over while lastID is
      below b, each of the others once and in order; and the queue has not dropped anything it still needs. */
  predicate Follows(n: Net, b: nat) {
    && Sound(n) && b <= n.base && |n.view.handled| == n.view.lastID <= |n.all|
    && (n.view.lastID < n.base ==> n.base == b)
    && (n.view.lastID > 0 ==> b < |n.all|)
    && (forall k :: 0 <= k < n.view.lastID ==> n.view.handled[k] == Kth(n.all, b, k))
    && (forall k :: 0 <= k < |n.all| ==> n.all[k] != "")
  }

  /** For a page that was there from the start: it has handled exactly the first lastID of all commands put,
      in order, none twice. */
  lemma FollowsFromStart(n: Net)
    ensures Follows(n, 0) <==>
      && Sound(n) && n.base <= n.view.lastID <= |n.all| && n.view.handled == n.all[..n.view.lastID]
      && forall k :: 0 <= k < |n.all| ==> n.all[k] != ""
  {
    if Follows(n, 0) {
      assert n.view.handled == n.all[..n.view.lastID];
    }
  }

  // Puts are not empty, the queue is only emptied when the page has caught up or nothing is in it, and
  // the page is not loaded anew after the queue has dropped something.
  predicate Careful(n: Net, b: nat, a: Act) {
    match a
    case Put(msg) => msg != ""
    case Poll => true
    case Drop => n.view.lastID == |n.all| || n.base == |n.all|
    case Load => n.base == b
  }

  predicate CarefulRun(n: Net, b: nat, acts: seq<Act>)
    requires Sound(n)
    decreases |acts|
  {
    acts == [] || (Careful(n, b, acts[0]) && CarefulRun(Step(n, acts[0]), b, acts[1..]))
  }

  /** One act lets the page go on following iff it is careful. */
  lemma StepKeepsIff(n: Net, b: nat, a: Act)
    requires Follows(n, b)
    ensures Follows(Step(n, a), b) <==> Careful(n, b, a)
  {
    var n' := Step(n, a);
    match a
    case Put(msg) =>
      assert n'.all[|n.all|] == msg;
      assert forall k :: 0 <= k < |n.all| ==> n'.all[k] == n.all[k];
    case Poll => PollFollows(n, b);
    case Drop =>
    case Load =>
  }

  // A poll brings the next command, if there is one.
  lemma PollFollows(n: Net, b: nat)
    requires Follows(n, b)
    ensures var c := n.view.lastID;
      if n.base == |n.all| || c == |n.all| then Step(n, Poll) == n
      else b < |n.all| && Step(n, Poll).view == View(c + 1, n.view.handled + [Kth(n.all, b, c)])
  {
    var c := n.view.lastID;
    if n.base < |n.all| && c < |n.all| {
      var msgs := n.all[n.base..];
      assert msgs[0] == n.all[n.base];
      assert c >= n.base ==> msgs[c - n.base] == n.all[c];
      assert Asked(n.base, msgs, c) == Some(Kth(n.all, b, c));
    }
  }

  /** Delivery over whole runs. */
  lemma {:induction false} Delivered(n: Net, b: nat, acts: seq<Act>)
    requires Follows(n, b) && CarefulRun(n, b, acts)
    ensures Follows(Run(n, acts), b)
    decreases |acts|
  {
    if acts != [] {
      StepKeepsIff(n, b, acts[0]);
      Delivered(Step(n, acts[0]), b, acts[1..]);
    }
  }

  function Polls(k: nat): (acts: seq<Act>)
    ensures |acts| == k
  {
    if k == 0 then [] else [Poll] + Polls(k - 1)
  }

  /** Unless the queue is empty, each of k polls brings one more command, as long as there are any left. */
  lemma {:induction false} PollsDeliver(n: Net, b: nat, k: nat)
    requires Follows(n, b) && n.view.lastID + k <= |n.all| && (k > 0 ==> n.base < |n.all|)
    ensures CarefulRun(n, b, Polls(k))
    ensures var m := Run(n, Polls(k)); m.all == n.all && m.view.lastID == n.view.lastID + k && Follows(m, b)
    decreases k
  {
    if k > 0 {
      PollFollows(n, b);
      StepKeepsIff(n, b, Poll);
      PollsDeliver(Step(n, Poll), b, k - 1);
      assert Polls(k)[1..] == Polls(k - 1);
    }
  }

  /** So the page catches up, with as many polls as its count is behind. */
  lemma CatchesUp(n: Net, b: nat)
    requires Follows(n, b) && (n.view.lastID == |n.all| || n.base < |n.all|)
    ensures var m := Run(n, Polls(|n.all| - n.view.lastID)); m.all == n.all && m.view.lastID == |n.all| && Follows(m, b)
  {
    PollsDeliver(n, b, |n.all| - n.view.lastID);
  }

  /** A page loaded after the queue has dropped b commands handles the oldest one b + 1 times. */
  lemma LatePageRepeats(all: seq<string>, b: nat)
    requires b < |all| && forall k :: 0 <= k < |all| ==> all[k] != ""
    ensures Run(Net(all, b, View(0, [])), Polls(b + 1)).view == View(b + 1, seq(b + 1, _ => all[b]))
  {
    var n := Net(all, b, View(0, []));
    PollsDeliver(n, b, b + 1);
    assert Run(n, Polls(b + 1)).view.handled == seq(b + 1, _ => all[b]);
  }

  // A new page: whatever careful run follows, it handles the commands from the oldest on, each once and in order.
  ghost predicate ServedInOrder(all: seq<string>, b: nat)
    requires b <= |all|
  {
    forall acts {:trigger Run(Net(all, b, View(0, [])), acts)} :: CarefulRun(Net(all, b, View(0, [])), b, acts) ==>
      var m := Run(Net(all, b, View(0, [])), acts);
      b <= |m.all| && m.view.handled <= m.all[b..]
  }

  /** A new page is served that way exactly when the queue has not dropped anything yet. */
  lemma ServedInOrderIff(all: seq<string>, b: nat)
    requires b <= |all| && forall k :: 0 <= k < |all| ==> all[k] != ""
    ensures ServedInOrder(all, b) <==> b == 0
  {
    hide Run, CarefulRun, Follows;
    var n := Net(all, b, View(0, []));
    NewFollows(all, b);
    if b == 0 {
      forall acts | CarefulRun(n, 0, acts) ensures Run(n, acts).view.handled <= Run(n, acts).all[0..] {
        Delivered(n, 0, acts);
        FollowsFromStart(Run(n, acts));
        assert Run(n, acts).all[0..] == Run(n, acts).all;
      }
    } else {
      var acts := OutOfOrder(all, b);
      assert !(Run(n, acts).view.handled <= Run(n, acts).all[b..]);
    }
  }

  lemma NewFollows(all: seq<string>, b: nat)
    requires b <= |all| && forall k :: 0 <= k < |all| ==> all[k] != ""
    ensures Follows(Net(all, b, View(0, [])), b)
  {
  }

  // Two more commands put, the second unlike the one that will be handled in its place, and enough polls.
  lemma OutOfOrder(all: seq<string>, b: nat) returns (acts: seq<Act>)
    requires 0 < b <= |all| && forall k :: 0 <= k < |all| ==> all[k] != ""
    ensures var n := Net(all, b, View(0, []));
      CarefulRun(n, b, acts) && b <= |Run(n, acts).all| && !(Run(n, acts).view.handled <= Run(n, acts).all[b..])
  {
    hide Run, CarefulRun, Follows;
    var n := Net(all, b, View(0, []));
    NewFollows(all, b);
    var k := |all| + 1 - b;
    var more := all + ["x"];
    var shown := Kth(more, b, k);
    var z := if shown == "x" then "y" else "x";
    acts := [Put("x"), Put(z)] + Polls(k + 1);
    var n2 := n.(all := more + [z]);
    TwoPuts(n, b, "x", z, Polls(k + 1));
    PutFollows(n, b, "x");
    PutFollows(n.(all := more), b, z);
    PollsDeliver(n2, b, k + 1);
    LastHandled(Run(n2, Polls(k + 1)), b, k);
    assert n2.all[b..][k] == z;
    assert Kth(n2.all, b, k) == shown;
  }

  lemma PutFollows(n: Net, b: nat, msg: string)
    requires Follows(n, b) && msg != ""
    ensures Follows(n.(all := n.all + [msg]), b)
  {
    StepKeepsIff(n, b, Put(msg));
  }

  lemma LastHandled(m: Net, b: nat, k: nat)
    requires Follows(m, b) && m.view.lastID == k + 1
    ensures b < |m.all| && k < |m.all| && |m.view.handled| == k + 1 && m.view.handled[k] == Kth(m.all, b, k)
  {
  }

  lemma TwoPuts(n: Net, b: nat, x: string, y: string, acts: seq<Act>)
    requires Sound(n) && x != "" && y != ""
    ensures var n2 := n.(all := n.all + [x] + [y]);
      Run(n, [Put(x), Put(y)] + acts) == Run(n2, acts) && CarefulRun(n, b, [Put(x), Put(y)] + acts) == CarefulRun(n2, b, acts)
  {
    var all := [Put(x), Put(y)] + acts;
    assert all[1..] == [Put(y)] + acts && all[1..][1..] == acts;
    var n1 := Step(n, Put(x));
    assert Run(n1, all[1..]) == Run(Step(n1, Put(y)), acts);
    assert CarefulRun(n1, b, all[1..]) == CarefulRun(Step(n1, Put(y)), b, acts);
  }

  /** Emptied before the page has caught up, the queue loses what was waiting: the next command put is
      handled in its place. */
  lemma EarlyDropSkips(n: Net, msg: string)
    requires Follows(n, 0) && n.view.lastID < |n.all| && msg != ""
    ensures var m := Run(n, [Drop, Put(msg), Poll]);
      m.view.handled == n.all[..n.view.lastID] + [msg] && m.view.lastID < |m.all|
  {
    FollowsFromStart(n);
    var acts := [Drop, Put(msg), Poll];
    assert acts[1..] == [Put(msg), Poll] && [Put(msg), Poll][1..] == [Poll] && [Poll][1..] == [];
    var m := Step(Step(n, Drop), Put(msg));
    assert m.all[m.base..] == [msg];
    assert Run(m, [Poll]) == Step(m, Poll);
    assert Run(Step(n, Drop), [Put(msg), Poll]) == Run(m, [Poll]);
  }
}
