/** objValue of src/tiny-json.c: no recursion, a fixed pool of nodes, the sibling field of an open
    container holding its parent, and the text overwritten on the way. */
module JsonParser {
  import opened CBase
  import opened JsonGrammar
  import opened JsonLex
  import opened JsonStore
  import opened JsonZipper

  // jsonStaticPool_t; qty is mem.Length.
  class StaticPool {
    const mem: array<Json>
    var nextFree: nat

    constructor (mem: array<Json>)
      ensures this.mem == mem
    {
      this.mem := mem;
      nextFree := 0;
    }

    // src/tiny-json.c:389-393
    method Init() returns (root: nat)
      modifies this
      ensures root == 0 && nextFree == 1
    {
      nextFree := 1;
      return 0;
    }

    // src/tiny-json.c:399-403
    method Alloc() returns (node: int)
      modifies this
      ensures if old(nextFree) >= mem.Length then node == NULL && nextFree == old(nextFree)
              else node == old(nextFree) && nextFree == old(nextFree) + 1
    {
      if nextFree >= mem.Length {
        return NULL;
      }
      node := nextFree;
      nextFree := nextFree + 1;
    }
  }

  // src/tiny-json.c:313-322
  method Add(mem: array<Json>, obj: nat, property: nat)
    requires CanAdd(mem[..], obj, property)
    modifies mem
    ensures mem[..] == AddTo(old(mem[..]), obj, property)
  {
    mem[property] := mem[property].(sibling := NULL);
    if mem[obj].u.child == NULL {
      mem[obj] := mem[obj].(u := Links(property, property));
    } else {
      var last := mem[obj].u.last;
      mem[last] := mem[last].(sibling := property);
      mem[obj] := mem[obj].(u := Links(mem[obj].u.child, property));
    }
  }

  // What the loop knows between two steps.
  ghost predicate State(m: seq<Json>, b: seq<char>, s: string, nextFree: nat, obj: nat, ptr: nat, idx: seq<nat>, stack: seq<Frame>) {
    && |idx| == |stack| >= 1
    && Unread(b, s, ptr) && FramesStored(m, b, idx, stack, NULL, ptr)
    && obj == idx[|idx| - 1] && nextFree == FreeSlot(idx, stack) <= |m|
  }

  // The same, with a node just added that has its name but no value yet; the value starts at ptr.
  ghost predicate Pending(m: seq<Json>, b: seq<char>, s: string, nextFree: nat, obj: nat, ptr: nat, idx: seq<nat>, stack: seq<Frame>, name: Option<string>) {
    && |idx| == |stack| >= 1
    && var p := FreeSlot(idx, stack);
    && Unread(b, s, ptr) && FramesStored(m, b, idx, stack, p, ptr)
    && obj == idx[|idx| - 1] && nextFree == p + 1 <= |m|
    && NameStored(b, m[p].name, name, ptr, true) && m[p].sibling == NULL
  }

  lemma LeafNotBracket(s: string, i: nat)
    ensures LeafAt(s, i).Good? ==> !IsBracket(At(s, i))
  {
  }

  lemma StateBounds(m: seq<Json>, b: seq<char>, s: string, nextFree: nat, obj: nat, ptr: nat, idx: seq<nat>, stack: seq<Frame>)
    requires State(m, b, s, nextFree, obj, ptr, idx, stack)
    ensures |idx| == |stack| >= 1
    ensures obj < |m| && m[obj].ty == Type(stack[|stack| - 1].isArray) && m[obj].sibling == Parent(idx, |idx| - 1)
    ensures nextFree == NodesIn(stack) == FreeSlot(idx, stack)
  {
    assert stack[|stack| - 1] == stack[|idx| - 1];
    FreeIsNodes(idx, stack);
  }

  // Blanks and commas are read past.
  lemma StateSkips(m: seq<Json>, b: seq<char>, s: string, nextFree: nat, obj: nat, ptr: nat, idx: seq<nat>, stack: seq<Frame>, next: nat)
    requires State(m, b, s, nextFree, obj, ptr, idx, stack)
    requires ptr <= next <= |s| && (ptr < next ==> !IsBracket(At(s, ptr)))
    ensures State(m, b, s, nextFree, obj, next, idx, stack)
  {
    FramesPass(m, m, b, b, idx, stack, NULL, ptr, next);
  }

  lemma BlankNotBracket(s: string, i: nat)
    ensures GoBlank(s, i) > i ==> !IsBracket(At(s, i))
  {
  }

  // Node p is written (name only) and linked in: State becomes Pending.
  lemma AddPends(m: seq<Json>, m1: seq<Json>, was: seq<char>, now: seq<char>, s: string, p: nat, obj: nat, ptr: nat, v: nat,
                 idx: seq<nat>, stack: seq<Frame>, name: Option<string>)
    requires State(m, was, s, p, obj, ptr, idx, stack) && p < |m| == |m1| && m1[..p] == m[..p]
    requires Passed(was, now, ptr, v, true) && Unread(now, s, v) && NameStored(now, m1[p].name, name, v, true)
    ensures CanAdd(m1, obj, p) && Pending(AddTo(m1, obj, p), now, s, p + 1, obj, v, idx, stack, name)
    ensures |AddTo(m1, obj, p)| == |m1|
  {
    hide FramesStored, AddTo, Passed;
    FramesPass(m, m1, was, now, idx, stack, NULL, ptr, v);
    FramesAdd(m1, now, idx, stack, v);
  }

  // A leaf's lexeme has been read: the node is finished and becomes a child.
  lemma LeafJoins(m: seq<Json>, m1: seq<Json>, was: seq<char>, now: seq<char>, s: string, nextFree: nat, obj: nat, ptr: nat, next: nat,
                  idx: seq<nat>, stack: seq<Frame>, name: Option<string>, v: nat, x: Lexeme)
    requires Pending(m, was, s, nextFree, obj, ptr, idx, stack, name)
    requires var p := nextFree - 1;
      |m1| == |m| && m1[..p] == m[..p] && m1[p] == m[p].(u := Value(v), ty := PRIM(x.kind))
    requires ptr <= v && Placed(was, now, v, x.text, next) && !IsBracket(At(s, ptr)) && ptr < next <= |s|
    ensures var t := Leaf(name, x.kind, x.text);
      State(m1, now, s, nextFree, obj, next, idx, Push(stack, t))
  {
    hide FramesStored;
    var p, t := nextFree - 1, Leaf(name, x.kind, x.text);
    assert now[..ptr] == now[..v][..ptr] == was[..v][..ptr] == was[..ptr];
    assert Passed(was, now, ptr, next, true);
    StillUnread(was, now, s, ptr, next);
    if name.Some? {
      TextPasses(was, now, m[p].name, name.value, ptr, next, true);
    }
    FramesPass(m, m1, was, now, idx, stack, p, ptr, next);
    assert Stored(m1, now, p, t, next, true);
    FramesAbsorb(m1, now, idx, stack, t, next);
  }

  // A bracket has been read: the node becomes the innermost open container.
  lemma BranchOpens(m: seq<Json>, m1: seq<Json>, b: seq<char>, s: string, nextFree: nat, obj: nat, ptr: nat,
                    idx: seq<nat>, stack: seq<Frame>, name: Option<string>, isArray: bool)
    requires Pending(m, b, s, nextFree, obj, ptr, idx, stack, name)
    requires var p := nextFree - 1;
      |m1| == |m| && m1[..p] == m[..p] && m1[p] == m[p].(sibling := obj, u := Links(NULL, NULL), ty := Type(isArray))
    requires ptr < |s| && !IsBracket(At(s, ptr))
    ensures State(m1, b, s, nextFree, nextFree - 1, ptr + 1, idx + [nextFree - 1], stack + [Frame(name, isArray, [])])
  {
    hide FramesStored;
    var p := nextFree - 1;
    if name.Some? {
      TextPasses(b, b, m[p].name, name.value, ptr, ptr + 1, true);
    }
    FramesPass(m, m1, b, b, idx, stack, p, ptr, ptr + 1);
    FramesOpen(m1, b, idx, stack, Frame(name, isArray, []), ptr + 1);
  }

  // src/tiny-json.c:351-360: a node is taken, named and linked in; ptr is where its value starts.
  method TakeNode(buf: array<char>, pool: StaticPool, obj: nat, str: nat, ghost s: string, ghost idx: seq<nat>, ghost stack: seq<Frame>)
      returns (ptr: int, property: nat, ghost name: Option<string>)
    requires State(pool.mem[..], buf[..], s, pool.nextFree, obj, str, idx, stack) && str < |s|
    modifies buf, pool, pool.mem
    ensures var isArray := stack[|stack| - 1].isArray;
      if ptr == NULL then old(pool.nextFree) >= pool.mem.Length || ItemAt(s, str, isArray) == Bad
      else && property == old(pool.nextFree) && str <= ptr < |s| && (ItemAt(s, str, isArray) == ValueAt(s, ptr, name))
           && Pending(pool.mem[..], buf[..], s, pool.nextFree, obj, ptr, idx, stack, name)
           && buf[ptr..] == old(buf[..])[ptr..]
  {
    hide FramesStored, AddTo, CanAdd, ValueAt;
    property, name := 0, None;
    StateBounds(pool.mem[..], buf[..], s, pool.nextFree, obj, str, idx, stack);
    var node := pool.Alloc();
    if node == NULL {
      return NULL, 0, None;
    }
    property, ptr := node, str;
    if pool.mem[obj].ty != ARRAY {
      if buf[ptr] != '\"' {
        return NULL, property, None;
      }
      ptr := PropertyName(buf, ptr, pool.mem, property, s);
      if ptr == NULL {
        return NULL, property, None;
      }
      name := Some(NameAt(s, str).value);
    } else {
      pool.mem[property] := pool.mem[property].(name := NULL);
    }
    AddPends(old(pool.mem[..]), pool.mem[..], old(buf[..]), buf[..], s, property, obj, str, ptr, idx, stack, name);
    Add(pool.mem, obj, property);
  }

  // The cases of the switch that are no containers (src/tiny-json.c:376-380).
  method ReadLeaf(buf: array<char>, str: nat, mem: array<Json>, property: nat, ghost s: string) returns (next: int, ghost v: nat)
    requires Unread(buf[..], s, str) && property < mem.Length && mem[property].u == Value(str)
    requires At(s, str) != '{' && At(s, str) != '['
    modifies buf, mem
    ensures var r := LeafAt(s, str);
      if r.Bad? then next == NULL
      else && next == r.next && str <= v && Placed(old(buf[..]), buf[..], v, r.value.text, r.next)
           && mem[..] == old(mem[..])[property := old(mem[property]).(u := Value(v), ty := PRIM(r.value.kind))]
  {
    hide Placed, StrBody, Number;
    v := str;
    match buf[str]
    case '\"' =>
      v := str + 1;
      next := TextValue(buf, str, mem, property, s);
    case 't' => next := PrimitiveValue(buf, str, mem, property, "true", BOOLEAN, s);
    case 'f' => next := PrimitiveValue(buf, str, mem, property, "false", BOOLEAN, s);
    case 'n' => next := PrimitiveValue(buf, str, mem, property, "null", NOTHING, s);
    case _ => next := NumValue(buf, str, mem, property, s);
  }

  // One member or element, opened or read whole (src/tiny-json.c:351-382).
  method Step(buf: array<char>, pool: StaticPool, parent: nat, str: nat, ghost s: string, ghost idx: seq<nat>, ghost stack: seq<Frame>)
      returns (next: int, obj: nat, ghost idx': seq<nat>, ghost stack': seq<Frame>)
    requires State(pool.mem[..], buf[..], s, pool.nextFree, parent, str, idx, stack) && ItemStarts(s, str, str, stack)
    modifies buf, pool, pool.mem
    ensures next == NULL ==> Resume(s, str, stack).Good? ==> Size(Resume(s, str, stack).value) > pool.mem.Length
    ensures next != NULL ==>
      && str < next <= |s| && |stack'| >= 1 && State(pool.mem[..], buf[..], s, pool.nextFree, obj, next, idx', stack')
      && Resume(s, str, stack) == Resume(s, next, stack')
      && buf[next..] == old(buf[..])[next..]
  {
    hide State, Pending, Resume, ItemAt, LeafAt, Placed, Items;
    obj, idx', stack' := parent, idx, stack;
    StateBounds(pool.mem[..], buf[..], s, pool.nextFree, parent, str, idx, stack);
    ItemNeedsNode(s, str, str, stack);
    ResumeItem(s, str, str, stack);
    var ptr, property;
    ghost var name;
    ptr, property, name := TakeNode(buf, pool, parent, str, s, idx, stack);
    if ptr == NULL {
      return NULL, obj, idx, stack;
    }
    ghost var m, b := pool.mem[..], buf[..];
    PendingBounds(m, b, s, pool.nextFree, parent, ptr, idx, stack, name);
    pool.mem[property] := pool.mem[property].(u := Value(ptr));
    if buf[ptr] == '{' || buf[ptr] == '[' {
      var isArray := buf[ptr] == '[';
      pool.mem[property] := pool.mem[property].(ty := Type(isArray), u := Links(NULL, NULL), sibling := parent);
      BranchOpens(m, pool.mem[..], b, s, pool.nextFree, parent, ptr, idx, stack, name, isArray);
      ResumeOpen(s, str, str, stack, ptr, name, isArray);
      obj, idx', stack' := property, idx + [property], stack + [Frame(name, isArray, [])];
      next := ptr + 1;
    } else {
      ghost var v;
      LeafNotBracket(s, ptr);
      next, v := ReadLeaf(buf, ptr, pool.mem, property, s);
      if next != NULL {
        ghost var x := LeafAt(s, ptr).value;
        LeafJoins(m, pool.mem[..], b, buf[..], s, pool.nextFree, parent, ptr, next, idx, stack, name, v, x);
        stack' := Push(stack, Leaf(name, x.kind, x.text));
        assert |stack'| == |stack|;
        PlacedSuffix(b, buf[..], v, x.text, next);
      }
    }
    if next != NULL {
      SuffixStays(old(buf[..]), b, buf[..], ptr, next);
    }
  }

  lemma PendingBounds(m: seq<Json>, b: seq<char>, s: string, nextFree: nat, obj: nat, ptr: nat, idx: seq<nat>, stack: seq<Frame>, name: Option<string>)
    requires Pending(m, b, s, nextFree, obj, ptr, idx, stack, name)
    ensures 1 <= nextFree <= |m| && Unread(b, s, ptr) && nextFree == FreeSlot(idx, stack) + 1
  {
  }

  lemma PlacedSuffix(was: seq<char>, now: seq<char>, v: nat, text: string, next: nat)
    requires Placed(was, now, v, text, next)
    ensures now[next..] == was[next..]
  {
  }

  // src/tiny-json.c:329-384
  method ObjValue(buf: array<char>, start: nat, root: nat, pool: StaticPool, ghost s: string) returns (next: int)
    requires Unread(buf[..], s, start) && At(s, start) == '{'
    requires root == 0 && pool.nextFree == 1 <= pool.mem.Length && pool.mem[root].name == NULL
    modifies buf, pool, pool.mem
    ensures var r := ValueAt(s, start, None);
      if r.Good? && Size(r.value) <= pool.mem.Length
      then next == r.next && Built(pool.mem[..], buf[..], r.value, r.next) && pool.nextFree == Size(r.value)
           && buf[next..] == old(buf[..])[next..]
      else next == NULL
  {
    hide State, Resume, Items, ItemAt, ValueAt;
    pool.mem[root] := pool.mem[root].(ty := OBJ, u := Links(NULL, NULL), sibling := NULL);
    var ptr, obj := start + 1, root;
    ghost var idx, stack := [0], [Frame(None, false, [])];
    RootState(pool.mem[..], buf[..], s, start);
    ResumeStart(s, start);
    while true
      invariant start < ptr <= |s| && |stack| >= 1
      invariant State(pool.mem[..], buf[..], s, pool.nextFree, obj, ptr, idx, stack)
      invariant ValueAt(s, start, None) == Resume(s, ptr, stack)
      invariant buf[ptr..] == old(buf[..])[ptr..]
      decreases |s| - ptr
    {
      StateBounds(pool.mem[..], buf[..], s, pool.nextFree, obj, ptr, idx, stack);
      next := SkipBlank(buf, ptr, s);
      if next == NULL {
        ResumeEnds(s, ptr, stack);
        return;
      }
      BlankNotBracket(s, ptr);
      StateSkips(pool.mem[..], buf[..], s, pool.nextFree, obj, ptr, idx, stack, next);
      ResumeBlank(s, ptr, next, stack);
      SuffixStays(old(buf[..]), buf[..], buf[..], ptr, next);
      ptr := next;
      ghost var before := buf[..];
      if buf[ptr] == ',' {
        ResumeComma(s, ptr, stack);
        StateSkips(pool.mem[..], buf[..], s, pool.nextFree, obj, ptr, idx, stack, ptr + 1);
        SuffixStays(old(buf[..]), before, buf[..], ptr, ptr + 1);
        ptr := ptr + 1;
      } else if buf[ptr] == (if pool.mem[obj].ty == OBJ then '}' else ']') {
        var closed;
        closed, obj, idx, stack := Close(buf, pool, obj, ptr, s, idx, stack);
        SuffixStays(old(buf[..]), before, buf[..], ptr, ptr + 1);
        ptr := ptr + 1;
        if closed {
          return ptr;
        }
      } else {
        next, obj, idx, stack := Step(buf, pool, obj, ptr, s, idx, stack);
        if next == NULL {
          return;
        }
        SuffixStays(old(buf[..]), before, buf[..], ptr, next);
        ptr := next;
      }
    }
  }

  lemma SuffixStays(first: seq<char>, before: seq<char>, now: seq<char>, ptr: nat, next: nat)
    requires |first| == |before| == |now| && ptr <= next <= |now|
    requires before[ptr..] == first[ptr..] && now[next..] == before[next..]
    ensures now[next..] == first[next..]
  {
    assert before[next..] == before[ptr..][next - ptr..];
    assert first[next..] == first[ptr..][next - ptr..];
  }

  // The innermost container ends at ptr (src/tiny-json.c:342-350).
  method Close(buf: array<char>, pool: StaticPool, obj: nat, ptr: nat, ghost s: string, ghost idx: seq<nat>, ghost stack: seq<Frame>)
      returns (closed: bool, parent: nat, ghost idx': seq<nat>, ghost stack': seq<Frame>)
    requires State(pool.mem[..], buf[..], s, pool.nextFree, obj, ptr, idx, stack)
    requires GoBlank(s, ptr) == ptr && s[ptr] == Closer(stack[|stack| - 1].isArray)
    modifies buf, pool.mem
    ensures buf[ptr + 1..] == old(buf[..])[ptr + 1..] && |stack'| >= 1
    ensures closed ==>
      var r := Resume(s, ptr, stack);
      r.Good? && r.next == ptr + 1 && Built(pool.mem[..], buf[..], r.value, ptr + 1) && pool.nextFree == Size(r.value)
    ensures !closed ==>
      State(pool.mem[..], buf[..], s, pool.nextFree, parent, ptr + 1, idx', stack') && Resume(s, ptr, stack) == Resume(s, ptr + 1, stack')
  {
    hide Resume, FramesStored;
    var n := |stack| - 1;
    ghost var m, b := pool.mem[..], buf[..];
    StateBounds(m, b, s, pool.nextFree, obj, ptr, idx, stack);
    ResumeClose(s, ptr, stack);
    buf[ptr] := NUL;
    assert Passed(b, buf[..], ptr, ptr + 1, true);
    StillUnread(b, buf[..], s, ptr, ptr + 1);
    parent, idx', stack' := obj, idx, stack;
    var parentObj := pool.mem[obj].sibling;
    if parentObj == NULL {
      RootCloses(m, b, buf[..], s, pool.nextFree, obj, ptr, idx, stack);
      return true, parent, idx', stack';
    }
    closed := false;
    pool.mem[obj] := pool.mem[obj].(sibling := NULL);
    FramesClose(m, b, buf[..], idx, stack, ptr, ptr + 1);
    idx', stack' := idx[..n], Push(stack[..n], AsTree(stack[n]));
    parent := parentObj;
  }

  lemma RootCloses(m: seq<Json>, was: seq<char>, now: seq<char>, s: string, nextFree: nat, obj: nat, ptr: nat, idx: seq<nat>, stack: seq<Frame>)
    requires State(m, was, s, nextFree, obj, ptr, idx, stack) && obj < |m| && m[obj].sibling == NULL
    requires Passed(was, now, ptr, ptr + 1, true)
    ensures |stack| == 1 && Built(m, now, AsTree(stack[0]), ptr + 1) && nextFree == Size(AsTree(stack[0]))
  {
    StateBounds(m, was, s, nextFree, obj, ptr, idx, stack);
    assert stack[0] == stack[|stack| - 1];
    FrameIsStored(m, was, 0, stack[0], NULL, ptr);
    StoredPasses(m, m, was, now, 0, AsTree(stack[0]), ptr, ptr + 1, false);
  }

  /** The finished tree, from node 0 on, with every string terminated and no parent link left. */
  ghost predicate Built(m: seq<Json>, b: seq<char>, t: Tree, next: nat) {
    Stored(m, b, 0, t, next, false) && m[0].sibling == NULL
  }

  lemma RootState(m: seq<Json>, b: seq<char>, s: string, start: nat)
    requires Unread(b, s, start) && start < |s| && |m| >= 1
    requires m[0].name == NULL && m[0].ty == OBJ && m[0].u == Links(NULL, NULL) && m[0].sibling == NULL
    ensures State(m, b, s, 1, 0, start + 1, [0], [Frame(None, false, [])])
  {
  }

  /** json_create (src/tiny-json.c:70-93): it succeeds iff the recursive parser accepts the text and its
      tree fits the pool; then the pool holds that tree and the text behind it is untouched. The C
      code writes mem[0] without looking at qty, so an empty pool is only allowed where it is not used. */
  method Create(buf: array<char>, mem: array<Json>, ghost s: string) returns (root: int)
    requires Unread(buf[..], s, 0)
    requires mem.Length == 0 ==> GoBlank(s, 0) == -1 || s[GoBlank(s, 0)] != '{'
    modifies buf, mem
    ensures var r := Parse(s);
      if r.Good? && Size(r.value) <= mem.Length
      then root == 0 && Built(mem[..], buf[..], r.value, r.next) && buf[r.next..] == old(buf[..])[r.next..]
      else root == NULL
  {
    hide State, Resume, Items, ItemAt, ValueAt;
    var ptr := SkipBlank(buf, 0, s);
    if ptr == NULL || buf[ptr] != '{' {
      return NULL;
    }
    var pool := new StaticPool(mem);
    root := pool.Init();
    mem[root] := mem[root].(name := NULL, sibling := NULL, u := Links(NULL, NULL));
    StillUnread(buf[..], buf[..], s, 0, ptr);
    assert buf[..] == old(buf[..]);
    ptr := ObjValue(buf, ptr, root, pool, s);
    if ptr == NULL {
      root := NULL;
    }
  }
}
