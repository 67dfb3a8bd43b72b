/** How a finished or half-finished tree lies in the node pool and the overwritten text. Nodes are
    handed out in order, so a subtree fills consecutive slots in preorder. */
module JsonStore {
  import opened CBase
  import opened JsonGrammar
  import opened JsonLex

  function Size(t: Tree): (n: nat)
    ensures n >= 1
  {
    match t case Leaf(_, _, _) => 1 case Branch(_, _, kids) => 1 + SizeAll(kids)
  }

  function SizeAll(kids: seq<Tree>): (n: nat)
    ensures n >= |kids|
  {
    if kids == [] then 0 else Size(kids[0]) + SizeAll(kids[1..])
  }

  lemma {:induction false} SizeAllAppend(kids: seq<Tree>, t: Tree)
    ensures SizeAll(kids + [t]) == SizeAll(kids) + Size(t)
    decreases |kids|
  {
    if kids == [] {
      assert [t][1..] == [];
    } else {
      assert (kids + [t])[1..] == kids[1..] + [t];
      SizeAllAppend(kids[1..], t);
    }
  }

  /** A C string stands at v. With loose, its terminator may still be missing, if it ends at pos and
      a bracket waits there to be overwritten. */
  predicate TextAt(b: seq<char>, v: int, text: string, pos: nat, loose: bool) {
    && 0 <= v && v + |text| <= pos < |b|
    && b[v..v + |text|] == text
    && (if v + |text| < pos then b[v + |text|] == NUL else loose && IsBracket(b[pos]))
  }

  predicate NameStored(b: seq<char>, v: int, name: Option<string>, pos: nat, loose: bool) {
    if name.None? then v == NULL else TextAt(b, v, name.value, pos, loose)
  }

  function Type(isArray: bool): JsonType {
    if isArray then ARRAY else OBJ
  }

  /** Node i and the slots after it hold t; the sibling link of node i is not looked at. */
  predicate Stored(m: seq<Json>, b: seq<char>, i: nat, t: Tree, pos: nat, loose: bool)
    decreases t, 1
  {
    && i + Size(t) <= |m| && NameStored(b, m[i].name, t.name, pos, loose)
    && match t
       case Leaf(_, kind, text) => m[i].ty == PRIM(kind) && m[i].u.Value? && TextAt(b, m[i].u.pos, text, pos, loose)
       case Branch(_, isArray, kids) =>
         && m[i].ty == Type(isArray) && m[i].u.Links?
         && m[i].u.child == (if kids == [] then NULL else i + 1)
         && (kids != [] ==> m[i].u.last == LastOf(i + 1, kids))
         && ChainStored(m, b, i + 1, kids, NULL, pos, loose)
  }

  // The slot of the last of kids laid out from slot i.
  function LastOf(i: nat, kids: seq<Tree>): nat
    requires kids != []
    decreases kids
  {
    if |kids| == 1 then i else LastOf(i + Size(kids[0]), kids[1..])
  }

  /** kids are laid out from slot i, each sibling link leads to the next, and the last to tail. */
  predicate ChainStored(m: seq<Json>, b: seq<char>, i: nat, kids: seq<Tree>, tail: int, pos: nat, loose: bool)
    decreases kids, 0
  {
    kids == [] ||
    (&& Stored(m, b, i, kids[0], pos, loose)
     && m[i].sibling == (if |kids| == 1 then tail else i + Size(kids[0]))
     && ChainStored(m, b, i + Size(kids[0]), kids[1..], tail, pos, loose))
  }

  // Reading goes on from pos to next: the text below pos is untouched, and a bracket passed at pos
  // has been overwritten by NUL. Nothing at all may happen too, but that terminates nothing.
  ghost predicate Passed(was: seq<char>, now: seq<char>, pos: nat, next: nat, loose: bool) {
    || (pos == next && was == now && loose)
    || (pos < next < |now| == |was| && now[..pos] == was[..pos] && (IsBracket(was[pos]) ==> now[pos] == NUL))
  }

  lemma TextPasses(was: seq<char>, now: seq<char>, v: int, text: string, pos: nat, next: nat, loose: bool)
    requires TextAt(was, v, text, pos, true) && Passed(was, now, pos, next, loose)
    ensures TextAt(now, v, text, next, loose)
  {
    if pos == next {
      return;
    }
    assert now[v..v + |text|] == now[..pos][v..v + |text|] == was[..pos][v..v + |text|] == was[v..v + |text|];
    if v + |text| < pos {
      assert now[v + |text|] == now[..pos][v + |text|] == was[..pos][v + |text|];
    }
  }

  // A stored tree survives: changes of other slots, and reading on in the text.
  lemma {:induction false} StoredPasses(m: seq<Json>, m': seq<Json>, was: seq<char>, now: seq<char>, i: nat, t: Tree, pos: nat, next: nat, loose: bool)
    requires Stored(m, was, i, t, pos, true) && Passed(was, now, pos, next, loose)
    requires |m| == |m'| && m'[i] == m[i].(sibling := m'[i].sibling) && m'[i + 1..i + Size(t)] == m[i + 1..i + Size(t)]
    ensures Stored(m', now, i, t, next, loose)
    decreases t, 1
  {
    if t.name.Some? {
      TextPasses(was, now, m[i].name, t.name.value, pos, next, loose);
    }
    match t
    case Leaf(_, _, text) => TextPasses(was, now, m[i].u.pos, text, pos, next, loose);
    case Branch(_, _, kids) => ChainPasses(m, m', was, now, i + 1, kids, NULL, pos, next, loose);
  }

  lemma {:induction false} ChainPasses(m: seq<Json>, m': seq<Json>, was: seq<char>, now: seq<char>, i: nat, kids: seq<Tree>, tail: int, pos: nat, next: nat, loose: bool)
    requires ChainStored(m, was, i, kids, tail, pos, true) && Passed(was, now, pos, next, loose)
    requires i + SizeAll(kids) <= |m| == |m'| && m'[i..i + SizeAll(kids)] == m[i..i + SizeAll(kids)]
    ensures ChainStored(m', now, i, kids, tail, next, loose)
    decreases kids, 0
  {
    if kids != [] {
      var n, all := Size(kids[0]), SizeAll(kids);
      SubSlice(m, m', i, i + all, i, i + 1);
      SubSlice(m, m', i, i + all, i + 1, i + n);
      SubSlice(m, m', i, i + all, i + n, i + all);
      assert m'[i] == m'[i..i + 1][0] == m[i..i + 1][0] == m[i];
      StoredPasses(m, m', was, now, i, kids[0], pos, next, loose);
      ChainPasses(m, m', was, now, i + n, kids[1..], tail, pos, next, loose);
    }
  }

  lemma SubSlice<T>(m: seq<T>, m': seq<T>, lo: nat, hi: nat, i: nat, j: nat)
    requires lo <= i <= j <= hi <= |m| == |m'| && m[lo..hi] == m'[lo..hi]
    ensures m[i..j] == m'[i..j]
  {
    forall k | i <= k < j ensures m[k] == m'[k] {
      assert m[k] == m[lo..hi][k - lo] == m'[lo..hi][k - lo] == m'[k];
    }
  }

  // Relinking the last sibling of a chain.
  lemma {:induction false} ChainRelinks(m: seq<Json>, b: seq<char>, i: nat, kids: seq<Tree>, tail: int, tail': int, pos: nat)
    requires ChainStored(m, b, i, kids, tail, pos, true) && kids != [] && i + SizeAll(kids) <= |m|
    ensures i <= LastOf(i, kids) < i + SizeAll(kids)
    ensures var k := LastOf(i, kids); ChainStored(m[k := m[k].(sibling := tail')], b, i, kids, tail', pos, true)
    decreases kids
  {
    LastInRange(i, kids);
    var k := LastOf(i, kids);
    var m' := m[k := m[k].(sibling := tail')];
    if |kids| == 1 {
      StoredPasses(m, m', b, b, i, kids[0], pos, pos, true);
    } else {
      ChainRelinks(m, b, i + Size(kids[0]), kids[1..], tail, tail', pos);
      LastInRange(i + Size(kids[0]), kids[1..]);
      StoredPasses(m, m', b, b, i, kids[0], pos, pos, true);
    }
  }

  lemma {:induction false} LastInRange(i: nat, kids: seq<Tree>)
    requires kids != []
    ensures i <= LastOf(i, kids) < i + SizeAll(kids)
    decreases kids
  {
    if |kids| > 1 {
      LastInRange(i + Size(kids[0]), kids[1..]);
    }
  }

  // One more child behind a chain.
  lemma {:induction false} ChainAppends(m: seq<Json>, b: seq<char>, i: nat, kids: seq<Tree>, t: Tree, tail: int, pos: nat)
    requires ChainStored(m, b, i, kids, i + SizeAll(kids), pos, true)
    requires Stored(m, b, i + SizeAll(kids), t, pos, true) && m[i + SizeAll(kids)].sibling == tail
    ensures ChainStored(m, b, i, kids + [t], tail, pos, true)
    ensures LastOf(i, kids + [t]) == i + SizeAll(kids)
    decreases kids
  {
    if kids == [] {
      assert [t][1..] == [];
    } else {
      assert (kids + [t])[1..] == kids[1..] + [t];
      ChainAppends(m, b, i + Size(kids[0]), kids[1..], t, tail, pos);
    }
  }
}
