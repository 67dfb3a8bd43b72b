/** The state of the pointer loop between two steps: the open containers, outermost first, with the
    children each has so far. What is left of the recursive parse, and how it lies in the pool. */
module JsonZipper {
  import opened CBase
  import opened JsonGrammar
  import opened JsonLex
  import opened JsonStore

  datatype Frame = Frame(name: Option<string>, isArray: bool, kids: seq<Tree>)

  function AsTree(f: Frame): Tree {
    Branch(f.name, f.isArray, f.kids)
  }

  // One more child for the innermost container.
  function Push(stack: seq<Frame>, t: Tree): seq<Frame>
    requires stack != []
  {
    var n := |stack| - 1;
    stack[..n] + [stack[n].(kids := stack[n].kids + [t])]
  }

  /** The recursive parse continued from i with these containers open. */
  function Resume(s: string, i: nat, stack: seq<Frame>): Parsed<Tree>
    requires stack != []
    decreases |stack|
  {
    var top := stack[|stack| - 1];
    match Items(s, i, top.isArray)
    case Bad => Bad
    case Good(kids, n) =>
      var t := Branch(top.name, top.isArray, top.kids + kids);
      if |stack| == 1 then Good(t, n) else Resume(s, n, Push(stack[..|stack| - 1], t))
  }

  lemma ResumeStart(s: string, i: nat)
    requires At(s, i) == '{'
    ensures ValueAt(s, i, None) == Resume(s, i + 1, [Frame(None, false, [])])
  {
    var r := Items(s, i + 1, false);
    if r.Good? {
      assert [] + r.value == r.value;
    }
  }

  // One turn of the loop, case by case, with j the first character that is no blank.
  lemma ResumeEnds(s: string, i: nat, stack: seq<Frame>)
    requires stack != [] && GoBlank(s, i) == -1
    ensures Resume(s, i, stack) == Bad
  {
  }

  lemma ResumeBlank(s: string, i: nat, j: nat, stack: seq<Frame>)
    requires stack != [] && GoBlank(s, i) == j
    ensures GoBlank(s, j) == j && Resume(s, i, stack) == Resume(s, j, stack)
  {
  }

  lemma ResumeComma(s: string, j: nat, stack: seq<Frame>)
    requires stack != [] && GoBlank(s, j) == j && s[j] == ','
    ensures Resume(s, j, stack) == Resume(s, j + 1, stack)
  {
  }

  lemma ResumeClose(s: string, j: nat, stack: seq<Frame>)
    requires stack != [] && GoBlank(s, j) == j && s[j] == Closer(stack[|stack| - 1].isArray)
    ensures var t := AsTree(stack[|stack| - 1]);
      Resume(s, j, stack) == if |stack| == 1 then Good(t, j + 1) else Resume(s, j + 1, Push(stack[..|stack| - 1], t))
  {
    var top := stack[|stack| - 1];
    assert top.kids + [] == top.kids;
  }

  ghost predicate ItemStarts(s: string, i: nat, j: nat, stack: seq<Frame>) {
    stack != [] && GoBlank(s, i) == j && s[j] != ',' && s[j] != Closer(stack[|stack| - 1].isArray)
  }

  lemma ResumeItem(s: string, i: nat, j: nat, stack: seq<Frame>)
    requires ItemStarts(s, i, j, stack)
    ensures var item := ItemAt(s, j, stack[|stack| - 1].isArray);
      Resume(s, i, stack) == if item.Bad? then Bad else Resume(s, item.next, Push(stack, item.value))
  {
    hide ItemAt;
    var n := |stack| - 1;
    var top := stack[n];
    var item := ItemAt(s, j, top.isArray);
    if item.Good? {
      var rest := Items(s, item.next, top.isArray);
      if rest.Good? {
        assert top.kids + ([item.value] + rest.value) == (top.kids + [item.value]) + rest.value;
      }
      assert Push(stack, item.value)[..n] == stack[..n];
    }
  }

  lemma ResumeOpen(s: string, i: nat, j: nat, stack: seq<Frame>, v: nat, name: Option<string>, isArray: bool)
    requires ItemStarts(s, i, j, stack) && (At(s, v) == '{' || At(s, v) == '[') && isArray == (At(s, v) == '[')
    requires ItemAt(s, j, stack[|stack| - 1].isArray) == ValueAt(s, v, name)
    ensures Resume(s, i, stack) == Resume(s, v + 1, stack + [Frame(name, isArray, [])])
  {
    hide ItemAt, Items;
    ResumeItem(s, i, j, stack);
    var more := stack + [Frame(name, isArray, [])];
    assert more[..|more| - 1] == stack;
    var r := Items(s, v + 1, isArray);
    if r.Good? {
      assert [] + r.value == r.value;
    }
  }

  // The nodes in use while these containers are open.
  function NodesIn(stack: seq<Frame>): nat {
    if stack == [] then 0 else NodesIn(stack[..|stack| - 1]) + 1 + SizeAll(stack[|stack| - 1].kids)
  }

  lemma PushNodes(stack: seq<Frame>, t: Tree)
    requires stack != []
    ensures NodesIn(Push(stack, t)) == NodesIn(stack) + Size(t)
  {
    var n := |stack| - 1;
    SizeAllAppend(stack[n].kids, t);
    assert Push(stack, t)[..n] == stack[..n];
  }

  lemma {:induction false} SizeAllConcat(a: seq<Tree>, b: seq<Tree>)
    ensures SizeAll(a + b) == SizeAll(a) + SizeAll(b)
  {
    if a == [] {
      assert a + b == b;
    } else {
      assert (a + b)[1..] == a[1..] + b;
      SizeAllConcat(a[1..], b);
    }
  }

  // The finished tree holds at least the nodes in use now.
  lemma {:induction false} ResumeGrows(s: string, i: nat, stack: seq<Frame>)
    requires stack != []
    ensures Resume(s, i, stack).Good? ==> Size(Resume(s, i, stack).value) >= NodesIn(stack)
    decreases |stack|
  {
    hide Items;
    var top := stack[|stack| - 1];
    var r := Items(s, i, top.isArray);
    if r.Good? {
      var t := Branch(top.name, top.isArray, top.kids + r.value);
      SizeAllConcat(top.kids, r.value);
      if |stack| > 1 {
        ResumeGrows(s, r.next, Push(stack[..|stack| - 1], t));
        PushNodes(stack[..|stack| - 1], t);
      }
    }
  }

  // An item ahead needs one node more than are in use.
  lemma ItemNeedsNode(s: string, i: nat, j: nat, stack: seq<Frame>)
    requires ItemStarts(s, i, j, stack)
    ensures Resume(s, i, stack).Good? ==> Size(Resume(s, i, stack).value) > NodesIn(stack)
  {
    hide ItemAt, Resume;
    ResumeItem(s, i, j, stack);
    var item := ItemAt(s, j, stack[|stack| - 1].isArray);
    if item.Good? {
      ResumeGrows(s, item.next, Push(stack, item.value));
      PushNodes(stack, item.value);
    }
  }

  /** Open container f at node i: its sibling field leads to its parent, and the chain of its children
      ends in tail (the child still open or just added, if any). */
  predicate FrameStored(m: seq<Json>, b: seq<char>, i: nat, f: Frame, parent: int, tail: int, pos: nat) {
    && i + 1 + SizeAll(f.kids) <= |m| && NameStored(b, m[i].name, f.name, pos, true)
    && m[i].ty == Type(f.isArray) && m[i].u.Links? && m[i].sibling == parent
    && m[i].u.child == (if f.kids == [] then tail else i + 1)
    && (if tail != NULL then m[i].u.last == tail else f.kids != [] ==> m[i].u.last == LastOf(i + 1, f.kids))
    && ChainStored(m, b, i + 1, f.kids, tail, pos, true)
  }

  function Parent(idx: seq<nat>, d: nat): int
    requires d < |idx|
  {
    if d == 0 then NULL else idx[d - 1]
  }

  function Tail(idx: seq<nat>, d: nat, tail: int): int
    requires d < |idx|
  {
    if d == |idx| - 1 then tail else idx[d + 1]
  }

  // Each open container starts right behind the finished children of the one around it.
  predicate Nested(idx: seq<nat>, stack: seq<Frame>) {
    && |idx| == |stack| >= 1 && idx[0] == 0
    && (forall d: nat {:trigger stack[d]} :: d < |idx| - 1 ==> idx[d + 1] == idx[d] + 1 + SizeAll(stack[d].kids))
  }

  /** All open containers, at nodes idx; the chain of the innermost ends in tail. */
  ghost predicate FramesStored(m: seq<Json>, b: seq<char>, idx: seq<nat>, stack: seq<Frame>, tail: int, pos: nat) {
    && Nested(idx, stack)
    && (forall d: nat {:trigger stack[d]} :: d < |idx| ==> FrameStored(m, b, idx[d], stack[d], Parent(idx, d), Tail(idx, d, tail), pos))
  }

  // The first slot not in use.
  function FreeSlot(idx: seq<nat>, stack: seq<Frame>): nat
    requires |idx| == |stack| >= 1
  {
    idx[|idx| - 1] + 1 + SizeAll(stack[|stack| - 1].kids)
  }

  lemma {:induction false} NodesBelow(idx: seq<nat>, stack: seq<Frame>, d: nat)
    requires Nested(idx, stack) && d < |idx|
    ensures idx[d] == NodesIn(stack[..d])
    decreases d
  {
    if d > 0 {
      NodesBelow(idx, stack, d - 1);
      assert stack[..d][..d - 1] == stack[..d - 1];
      assert idx[(d - 1) + 1] == idx[d - 1] + 1 + SizeAll(stack[d - 1].kids);
    }
  }

  lemma FreeIsNodes(idx: seq<nat>, stack: seq<Frame>)
    requires Nested(idx, stack)
    ensures FreeSlot(idx, stack) == NodesIn(stack)
  {
    NodesBelow(idx, stack, |idx| - 1);
  }

  // The part of an outer container lies below the next one.
  lemma {:induction false} IndicesGrow(idx: seq<nat>, stack: seq<Frame>, d: nat, e: nat)
    requires Nested(idx, stack) && d < e < |idx|
    ensures idx[d] + 1 + SizeAll(stack[d].kids) <= idx[e]
    decreases e
  {
    assert idx[(e - 1) + 1] == idx[e - 1] + 1 + SizeAll(stack[e - 1].kids);
    if d < e - 1 {
      IndicesGrow(idx, stack, d, e - 1);
    }
  }

  lemma FramePasses(m: seq<Json>, m': seq<Json>, was: seq<char>, now: seq<char>, i: nat, f: Frame, parent: int, tail: int, pos: nat, next: nat)
    requires FrameStored(m, was, i, f, parent, tail, pos) && Passed(was, now, pos, next, true)
    requires |m| == |m'| && m'[i..i + 1 + SizeAll(f.kids)] == m[i..i + 1 + SizeAll(f.kids)]
    ensures FrameStored(m', now, i, f, parent, tail, next)
  {
    var end := i + 1 + SizeAll(f.kids);
    if f.name.Some? {
      TextPasses(was, now, m[i].name, f.name.value, pos, next, true);
    }
    assert m'[i] == m'[i..end][0] == m[i..end][0] == m[i];
    SubSlice(m, m', i, end, i + 1, end);
    ChainPasses(m, m', was, now, i + 1, f.kids, tail, pos, next, true);
  }

  // Reading on, and changes of free slots only.
  lemma FramesPass(m: seq<Json>, m': seq<Json>, was: seq<char>, now: seq<char>, idx: seq<nat>, stack: seq<Frame>, tail: int, pos: nat, next: nat)
    requires FramesStored(m, was, idx, stack, tail, pos) && Passed(was, now, pos, next, true)
    requires FreeSlot(idx, stack) <= |m| == |m'| && m'[..FreeSlot(idx, stack)] == m[..FreeSlot(idx, stack)]
    ensures FramesStored(m', now, idx, stack, tail, next)
  {
    hide FrameStored, Passed;
    forall d: nat {:trigger stack[d]} | d < |idx| ensures FrameStored(m', now, idx[d], stack[d], Parent(idx, d), Tail(idx, d, tail), next) {
      var end := idx[d] + 1 + SizeAll(stack[d].kids);
      if d < |idx| - 1 {
        IndicesGrow(idx, stack, d, |idx| - 1);
      }
      SubSlice(m, m', 0, FreeSlot(idx, stack), idx[d], end);
      FramePasses(m, m', was, now, idx[d], stack[d], Parent(idx, d), Tail(idx, d, tail), pos, next);
    }
  }

  /** add() of src/tiny-json.c:313-322: node p becomes the last child of node i. */
  function AddTo(m: seq<Json>, i: nat, p: nat): seq<Json>
    requires i < |m| && p < |m| && i != p && m[i].u.Links? && -1 <= m[i].u.child
    requires m[i].u.child != NULL ==> 0 <= m[i].u.last < |m| && m[i].u.last != i && m[i].u.last != p
  {
    var m0 := m[p := m[p].(sibling := NULL)];
    if m[i].u.child == NULL then m0[i := m0[i].(u := Links(p, p))]
    else
      var last := m[i].u.last;
      m0[last := m0[last].(sibling := p)][i := m0[i].(u := Links(m[i].u.child, p))]
  }

  predicate CanAdd(m: seq<Json>, i: nat, p: nat) {
    && i < |m| && p < |m| && i != p && m[i].u.Links? && -1 <= m[i].u.child
    && (m[i].u.child != NULL ==> 0 <= m[i].u.last < |m| && m[i].u.last != i && m[i].u.last != p)
  }

  lemma AddToFrame(m: seq<Json>, b: seq<char>, i: nat, f: Frame, parent: int, pos: nat)
    requires FrameStored(m, b, i, f, parent, NULL, pos) && i + 1 + SizeAll(f.kids) < |m|
    ensures var p := i + 1 + SizeAll(f.kids);
      CanAdd(m, i, p) && FrameStored(AddTo(m, i, p), b, i, f, parent, p, pos)
    ensures var p := i + 1 + SizeAll(f.kids); var m' := AddTo(m, i, p);
      |m'| == |m| && m'[..i] == m[..i] && m'[p] == m[p].(sibling := NULL) && m'[p + 1..] == m[p + 1..]
  {
    var p := i + 1 + SizeAll(f.kids);
    if f.kids != [] {
      LastInRange(i + 1, f.kids);
      ChainRelinks(m, b, i + 1, f.kids, NULL, p, pos);
      var last := LastOf(i + 1, f.kids);
      var m1 := m[last := m[last].(sibling := p)];
      var m' := AddTo(m, i, p);
      assert m'[i + 1..p] == m1[i + 1..p];
      ChainPasses(m1, m', b, b, i + 1, f.kids, p, pos, pos, true);
    }
  }

  // add() seen by all open containers.
  lemma FramesAdd(m: seq<Json>, b: seq<char>, idx: seq<nat>, stack: seq<Frame>, pos: nat)
    requires FramesStored(m, b, idx, stack, NULL, pos) && FreeSlot(idx, stack) < |m|
    ensures var i, p := idx[|idx| - 1], FreeSlot(idx, stack);
      CanAdd(m, i, p) && FramesStored(AddTo(m, i, p), b, idx, stack, p, pos)
    ensures var m', p := AddTo(m, idx[|idx| - 1], FreeSlot(idx, stack)), FreeSlot(idx, stack);
      |m'| == |m| && m'[p] == m[p].(sibling := NULL) && m'[p + 1..] == m[p + 1..]
  {
    hide FrameStored, Passed;
    var n := |idx| - 1;
    var i, p := idx[n], FreeSlot(idx, stack);
    AddToFrame(m, b, i, stack[n], Parent(idx, n), pos);
    var m' := AddTo(m, i, p);
    forall d: nat {:trigger stack[d]} | d < |idx| ensures FrameStored(m', b, idx[d], stack[d], Parent(idx, d), Tail(idx, d, p), pos) {
      if d < n {
        IndicesGrow(idx, stack, d, n);
        SubSlice(m, m', 0, i, idx[d], idx[d] + 1 + SizeAll(stack[d].kids));
        FramePasses(m, m', b, b, idx[d], stack[d], Parent(idx, d), Tail(idx, d, NULL), pos, pos);
      }
    }
  }

  // A finished node behind the chain becomes its last child.
  lemma FrameAbsorbs(m: seq<Json>, b: seq<char>, i: nat, f: Frame, parent: int, t: Tree, pos: nat)
    requires FrameStored(m, b, i, f, parent, i + 1 + SizeAll(f.kids), pos)
    requires Stored(m, b, i + 1 + SizeAll(f.kids), t, pos, true) && m[i + 1 + SizeAll(f.kids)].sibling == NULL
    ensures FrameStored(m, b, i, f.(kids := f.kids + [t]), parent, NULL, pos)
  {
    SizeAllAppend(f.kids, t);
    ChainAppends(m, b, i + 1, f.kids, t, NULL, pos);
  }

  lemma FramesAbsorb(m: seq<Json>, b: seq<char>, idx: seq<nat>, stack: seq<Frame>, t: Tree, pos: nat)
    requires |idx| == |stack| >= 1 && FramesStored(m, b, idx, stack, FreeSlot(idx, stack), pos)
    requires Stored(m, b, FreeSlot(idx, stack), t, pos, true) && m[FreeSlot(idx, stack)].sibling == NULL
    ensures FramesStored(m, b, idx, Push(stack, t), NULL, pos)
    ensures FreeSlot(idx, Push(stack, t)) == FreeSlot(idx, stack) + Size(t)
  {
    hide FrameStored, Stored;
    var n := |idx| - 1;
    var pushed := Push(stack, t);
    FrameAbsorbs(m, b, idx[n], stack[n], Parent(idx, n), t, pos);
    SizeAllAppend(stack[n].kids, t);
    forall d: nat {:trigger pushed[d]} | d < |idx| ensures FrameStored(m, b, idx[d], pushed[d], Parent(idx, d), Tail(idx, d, NULL), pos) {
      if d < n {
        assert pushed[d] == stack[d];
      }
    }
    assert Nested(idx, pushed);
  }

  // The node just added is opened.
  lemma FramesOpen(m: seq<Json>, b: seq<char>, idx: seq<nat>, stack: seq<Frame>, f: Frame, pos: nat)
    requires |idx| == |stack| >= 1 && FramesStored(m, b, idx, stack, FreeSlot(idx, stack), pos)
    requires FrameStored(m, b, FreeSlot(idx, stack), f, idx[|idx| - 1], NULL, pos) && f.kids == []
    ensures FramesStored(m, b, idx + [FreeSlot(idx, stack)], stack + [f], NULL, pos)
  {
    hide FrameStored;
    var more, frames := idx + [FreeSlot(idx, stack)], stack + [f];
    forall d: nat {:trigger frames[d]} | d < |more| ensures FrameStored(m, b, more[d], frames[d], Parent(more, d), Tail(more, d, NULL), pos) {
      if d < |idx| {
        assert Parent(more, d) == Parent(idx, d) && Tail(more, d, NULL) == Tail(idx, d, FreeSlot(idx, stack));
      }
    }
    assert Nested(more, frames);
  }

  // A container with nothing open inside is a finished tree.
  lemma FrameIsStored(m: seq<Json>, b: seq<char>, i: nat, f: Frame, parent: int, pos: nat)
    requires FrameStored(m, b, i, f, parent, NULL, pos)
    ensures Stored(m, b, i, AsTree(f), pos, true)
  {
  }

  // The innermost container is closed: its link to the parent is cleared and it becomes a child.
  lemma FramesClose(m: seq<Json>, was: seq<char>, now: seq<char>, idx: seq<nat>, stack: seq<Frame>, pos: nat, next: nat)
    requires FramesStored(m, was, idx, stack, NULL, pos) && Passed(was, now, pos, next, true) && |idx| >= 2
    requires FreeSlot(idx, stack) <= |m|
    ensures var n := |idx| - 1; var m' := m[idx[n] := m[idx[n]].(sibling := NULL)];
      FramesStored(m', now, idx[..n], Push(stack[..n], AsTree(stack[n])), NULL, next)
      && FreeSlot(idx[..n], Push(stack[..n], AsTree(stack[n]))) == FreeSlot(idx, stack)
  {
    hide FrameStored, Passed, Stored;
    var n := |idx| - 1;
    var outer, frames, t, i := idx[..n], stack[..n], AsTree(stack[n]), idx[n];
    var m' := m[i := m[i].(sibling := NULL)];
    assert idx[(n - 1) + 1] == idx[n - 1] + 1 + SizeAll(stack[n - 1].kids);
    assert i == FreeSlot(outer, frames);
    forall d: nat {:trigger frames[d]} | d < n ensures FrameStored(m', now, outer[d], frames[d], Parent(outer, d), Tail(outer, d, i), next) {
      IndicesGrow(idx, stack, d, n);
      assert m'[..i] == m[..i];
      SubSlice(m, m', 0, i, idx[d], idx[d] + 1 + SizeAll(stack[d].kids));
      FramePasses(m, m', was, now, idx[d], stack[d], Parent(idx, d), Tail(idx, d, NULL), pos, next);
    }
    assert Nested(outer, frames);
    FrameIsStored(m, was, i, stack[n], Parent(idx, n), pos);
    StoredPasses(m, m', was, now, i, t, pos, next, true);
    FramesAbsorb(m', now, outer, frames, t, next);
  }
}
