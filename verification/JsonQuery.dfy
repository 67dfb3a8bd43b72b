/** Reading the parsed tree back out of the pool: property lookup (src/tiny-json.c:43-58) and the walk over
    the rows of an answer (parse_events, src/ajax_json.c:336-390). */
module JsonQuery {
  import opened CBase
  import opened JsonGrammar
  import opened JsonLex
  import opened JsonStore
  import opened JsonParser
  import opened JsonPool
  import TextTools

  // What the tree says

  // The first member of that name, |kids| if there is none.
  function FirstNamed(kids: seq<Tree>, name: string): (k: nat)
    ensures k <= |kids| && (k < |kids| ==> kids[k].name == Some(name))
    ensures forall j :: 0 <= j < k ==> kids[j].name != Some(name)
  {
    if kids == [] || kids[0].name == Some(name) then 0 else 1 + FirstNamed(kids[1..], name)
  }

  // The text of a leaf property; an object or array has none.
  function Property(t: Tree, name: string): Option<string> {
    if t.Leaf? then None else
    var k := FirstNamed(t.kids, name);
    if k < |t.kids| && t.kids[k].Leaf? then Some(t.kids[k].text) else None
  }

  // No string of the tree holds a NUL, so C functions see all of each.
  predicate NulFree(t: Tree) {
    && (t.name.Some? ==> NUL !in t.name.value)
    && match t case Leaf(_, _, text) => NUL !in text case Branch(_, _, kids) => forall k :: 0 <= k < |kids| ==> NulFree(kids[k])
  }

  lemma {:induction false} BodyNulFree(s: string, i: nat)
    requires StrBody(s, i).Good?
    ensures NUL !in StrBody(s, i).value
    decreases |s| - i
  {
    var c := At(s, i);
    if c == '\"' {
    } else if c != '\\' {
      BodyNulFree(s, i + 1);
    } else if At(s, i + 1) == 'u' {
      assert IsHex(At(s, i + 5));
      BodyNulFree(s, i + 6);
    } else {
      BodyNulFree(s, i + 2);
    }
  }

  lemma LeafNulFree(s: string, i: nat)
    requires NUL !in s && LeafAt(s, i).Good?
    ensures NUL !in LeafAt(s, i).value.text
  {
    if At(s, i) == '\"' {
      BodyNulFree(s, i + 1);
    }
  }

  lemma {:induction false} ValueNulFree(s: string, i: nat, name: Option<string>)
    requires NUL !in s && ValueAt(s, i, name).Good? && (name.Some? ==> NUL !in name.value)
    ensures NulFree(ValueAt(s, i, name).value)
    decreases |s| - i, 0
  {
    hide StrBody, LeafAt;
    if At(s, i) == '{' || At(s, i) == '[' {
      ItemsNulFree(s, i + 1, At(s, i) == '[');
    } else {
      LeafNulFree(s, i);
    }
  }

  lemma {:induction false} ItemsNulFree(s: string, i: nat, isArray: bool)
    requires NUL !in s && Items(s, i, isArray).Good?
    ensures forall k :: 0 <= k < |Items(s, i, isArray).value| ==> NulFree(Items(s, i, isArray).value[k])
    decreases |s| - i, 2
  {
    hide StrBody, LeafAt;
    var j := GoBlank(s, i);
    if s[j] == ',' {
      ItemsNulFree(s, j + 1, isArray);
    } else if s[j] != Closer(isArray) {
      if isArray {
        ValueNulFree(s, j, None);
      } else {
        BodyNulFree(s, j + 1);
        ValueNulFree(s, NameAt(s, j).next, Some(NameAt(s, j).value));
      }
      ItemsNulFree(s, ItemAt(s, j, isArray).next, isArray);
    }
  }

  // Strings of the finished tree

  lemma CharAt(b: seq<char>, p: nat, text: string, next: nat, i: nat)
    requires TextAt(b, p, text, next, false) && i <= |text|
    ensures p + i < |b| && b[p + i] == At(text, i) && (NUL !in text && i < |text| ==> text[i] != NUL)
  {
    if i < |text| {
      assert b[p + i] == b[p..p + |text|][i];
    }
  }

  // strcmp with a given word
  method SameText(b: array<char>, p: nat, word: string, ghost text: string, ghost next: nat) returns (same: bool)
    requires TextAt(b[..], p, text, next, false) && NUL !in text && NUL !in word
    ensures same <==> text == word
  {
    var i := 0;
    CharAt(b[..], p, text, next, 0);
    while i < |word| && b[p + i] == word[i]
      invariant i <= |word| && i <= |text| && text[..i] == word[..i]
      invariant p + i < b.Length && b[p + i] == At(text, i) && (i < |text| ==> text[i] != NUL)
    {
      assert i < |text|;
      CharAt(b[..], p, text, next, i + 1);
      i := i + 1;
    }
    same := i == |word| && b[p + i] == NUL;
    if same {
      assert text == text[..i] && word == word[..i];
    }
  }

  method CopyText(b: array<char>, p: nat, ghost text: string, ghost next: nat) returns (r: string)
    requires TextAt(b[..], p, text, next, false) && NUL !in text
    ensures r == text
  {
    r := "";
    CharAt(b[..], p, text, next, 0);
    while b[p + |r|] != NUL
      invariant |r| <= |text| && r == text[..|r|] && p + |r| < b.Length && b[p + |r|] == At(text, |r|)
      decreases |text| - |r|
    {
      CharAt(b[..], p, text, next, |r| + 1);
      r := r + [b[p + |r|]];
    }
    CharAt(b[..], p, text, next, |r|);
  }

  // Nodes

  // The slot of the k-th of kids laid out from slot i.
  function SlotOf(i: nat, kids: seq<Tree>, k: nat): nat
    requires k <= |kids|
    decreases k
  {
    if k == 0 then i else SlotOf(i + Size(kids[0]), kids[1..], k - 1)
  }

  /** json_getProperty (src/tiny-json.c:43-49): the node of the first member of that name. */
  method GetProperty(m: array<Json>, b: array<char>, obj: nat, property: string, ghost t: Tree, ghost next: nat) returns (node: int)
    requires Stored(m[..], b[..], obj, t, next, false) && t.Branch? && NulFree(t) && NUL !in property
    ensures var k := FirstNamed(t.kids, property);
      if k == |t.kids| then node == NULL
      else node >= 0 && node == SlotOf(obj + 1, t.kids, k) && Stored(m[..], b[..], node, t.kids[k], next, false)
  {
    hide Stored, NulFree;
    node := FirstChild(m, b, obj, t, next);
    ghost var kids := t.kids;
    KidsNulFree(t);
    while node != NULL
      invariant kids != [] ==> node >= 0 && ChainStored(m[..], b[..], node, kids, NULL, next, false)
      invariant kids == [] ==> node == NULL
      invariant forall k :: 0 <= k < |kids| ==> NulFree(kids[k])
      invariant |kids| <= |t.kids| && FirstNamed(t.kids, property) == |t.kids| - |kids| + FirstNamed(kids, property)
      invariant FirstNamed(kids, property) < |kids| ==>
        && t.kids[FirstNamed(t.kids, property)] == kids[FirstNamed(kids, property)]
        && SlotOf(obj + 1, t.kids, FirstNamed(t.kids, property)) == SlotOf(node, kids, FirstNamed(kids, property))
      decreases |kids|
    {
      ghost var kid := kids[0];
      HeadNode(m[..], b[..], node, kids, next);
      if m[node].name != NULL {
        var same := SameText(b, m[node].name, property, kid.name.value, next);
        if same {
          return;
        }
      }
      node := m[node].sibling;
      kids := kids[1..];
    }
  }

  // obj->u.c.child
  method FirstChild(m: array<Json>, b: array<char>, obj: nat, ghost t: Tree, ghost next: nat) returns (node: int)
    requires Stored(m[..], b[..], obj, t, next, false) && t.Branch?
    ensures if t.kids == [] then node == NULL else node == obj + 1 && ChainStored(m[..], b[..], node, t.kids, NULL, next, false)
  {
    node := m[obj].u.child;
  }

  lemma KidsNulFree(t: Tree)
    requires t.Branch? && NulFree(t)
    ensures forall k :: 0 <= k < |t.kids| ==> NulFree(t.kids[k])
  {
  }

  // What a chain says about its first node.
  lemma HeadNode(m: seq<Json>, b: seq<char>, i: nat, kids: seq<Tree>, next: nat)
    requires ChainStored(m, b, i, kids, NULL, next, false) && kids != []
    ensures Stored(m, b, i, kids[0], next, false) && i < |m|
    ensures if |kids| == 1 then m[i].sibling == NULL
            else m[i].sibling == i + Size(kids[0]) && ChainStored(m, b, m[i].sibling, kids[1..], NULL, next, false)
    ensures if kids[0].name.None? then m[i].name == NULL else m[i].name >= 0 && TextAt(b, m[i].name, kids[0].name.value, next, false)
    ensures NulFree(kids[0]) && kids[0].name.Some? ==> NUL !in kids[0].name.value
  {
    hide TextAt;
    if kids[0].name.Some? {
      assert TextAt(b, m[i].name, kids[0].name.value, next, false);
      NameInText(b, m[i].name, kids[0].name.value, next);
    }
  }

  lemma NameInText(b: seq<char>, v: int, text: string, next: nat)
    requires TextAt(b, v, text, next, false)
    ensures v >= 0
  {
  }

  /** json_getPropertyValue (src/tiny-json.c:52-58): the text of a leaf property. */
  method GetPropertyValue(m: array<Json>, b: array<char>, obj: nat, property: string, ghost t: Tree, ghost next: nat) returns (r: Option<string>)
    requires Stored(m[..], b[..], obj, t, next, false) && t.Branch? && NulFree(t) && NUL !in property
    ensures r == Property(t, property)
  {
    hide NulFree, TextAt;
    r := None;
    var field := GetProperty(m, b, obj, property, t, next);
    if field != NULL {
      ghost var kid := t.kids[FirstNamed(t.kids, property)];
      KidsNulFree(t);
      if m[field].ty.PRIM? {
        LeafNulFreeText(kid);
        ValuePlace(m[..], b[..], field, kid, next);
        var text := CopyText(b, m[field].u.pos, kid.text, next);
        r := Some(text);
      }
    }
  }

  lemma LeafNulFreeText(t: Tree)
    requires t.Leaf? && NulFree(t)
    ensures NUL !in t.text
  {
  }

  lemma ValuePlace(m: seq<Json>, b: seq<char>, i: nat, t: Tree, next: nat)
    requires Stored(m, b, i, t, next, false) && t.Leaf?
    ensures m[i].u.Value? && m[i].u.pos >= 0 && TextAt(b, m[i].u.pos, t.text, next, false)
  {
  }

  // Rows of events

  /** process_eventData (src/ajax_json.c:19-208): the command, if any, made of the last of these event data;
      those before it count as well, since events change the status. */
  type Reader = seq<string> -> Option<string>

  predicate IsEvent(t: Tree) { t.Branch? && !t.isArray }

  // The "Data" of the events among the rows, in order.
  function DataOf(rows: seq<Tree>): seq<string> {
    if rows == [] then []
    else
      var data := if IsEvent(rows[0]) then Property(rows[0], "Data") else None;
      (if data.Some? then [data.value] else []) + DataOf(rows[1..])
  }

  // The number of the last event; id if there is none.
  function LastId(rows: seq<Tree>, id: int): int {
    if rows == [] then id else LastId(rows[1..], IdOf(rows[0], id))
  }

  function IdOf(row: Tree, id: int): int {
    if IsEvent(row) && Property(row, "ID").Some? then TextTools.Atoi(Property(row, "ID").value) else id
  }

  /** The number remembered is that of the last object among the rows ... */
  lemma {:induction false} LastIdIs(front: seq<Tree>, r: Tree, back: seq<Tree>, id: int)
    requires r.Branch? && !r.isArray && Property(r, "ID").Some?
    requires forall k :: 0 <= k < |back| ==> back[k].Leaf? || back[k].isArray
    ensures LastId(front + [r] + back, id) == TextTools.Atoi(Property(r, "ID").value)
    decreases |front|
  {
    hide Property;
    var rows := front + [r] + back;
    if front == [] {
      assert rows[1..] == back;
      NoEvent(back, IdOf(r, id));
    } else {
      assert rows[1..] == front[1..] + [r] + back;
      LastIdIs(front[1..], r, back, IdOf(front[0], id));
    }
  }

  /** ... and the one known before if there is none. */
  lemma {:induction false} NoEvent(rows: seq<Tree>, id: int)
    requires forall k :: 0 <= k < |rows| ==> rows[k].Leaf? || rows[k].isArray
    ensures LastId(rows, id) == id
  {
    hide Property;
    if rows != [] {
      NoEvent(rows[1..], id);
    }
  }

  lemma {:induction false} DataJoin(a: seq<Tree>, b: seq<Tree>)
    ensures DataOf(a + b) == DataOf(a) + DataOf(b)
    decreases |a|
  {
    hide Property, IsEvent;
    if a == [] {
      assert a + b == b;
    } else {
      DataJoin(a[1..], b);
      assert (a + b)[1..] == a[1..] + b;
      var first := DataOf(a[..1]);
      assert a[..1][0] == a[0] && a[..1][1..] == [];
      assert DataOf([]) == [] && first + [] == first;
      assert first + (DataOf(a[1..]) + DataOf(b)) == first + DataOf(a[1..]) + DataOf(b);
    }
  }

  // A row that has data: an object with a leaf "Data".
  predicate HasData(t: Tree) { t.Branch? && !t.isArray && Property(t, "Data").Some? }

  /** The data are those of exactly the objects that have "Data", in row order: ks are their places. */
  lemma {:induction false} DataInOrder(rows: seq<Tree>) returns (ks: seq<nat>)
    ensures |ks| == |DataOf(rows)| && (forall i, j :: 0 <= i < j < |ks| ==> ks[i] < ks[j])
    ensures forall i :: 0 <= i < |ks| ==> ks[i] < |rows| && HasData(rows[ks[i]]) && DataOf(rows)[i] == Property(rows[ks[i]], "Data").value
    ensures forall k :: 0 <= k < |rows| && HasData(rows[k]) ==> k in ks
    decreases |rows|
  {
    hide Property;
    ks := [];
    if rows != [] {
      var n := |rows| - 1;
      var init, last := rows[..n], rows[n..];
      assert rows == init + last && last == [rows[n]] && last[1..] == [];
      DataJoin(init, last);
      assert DataOf([]) == [];
      var before := DataInOrder(init);
      ks := before + if HasData(rows[n]) then [n] else [];
      forall k | 0 <= k < |rows| && HasData(rows[k]) ensures k in ks {
        if k < n {
          assert init[k] == rows[k] && k in before;
        }
      }
    }
  }

  /** A property is the text of the first member of that name, if that is a leaf. */
  lemma PropertyIs(t: Tree, name: string, k: nat)
    requires t.Branch? && k < |t.kids| && t.kids[k].name == Some(name) && forall j :: 0 <= j < k ==> t.kids[j].name != Some(name)
    ensures Property(t, name) == if t.kids[k].Leaf? then Some(t.kids[k].text) else None
  {
  }

  lemma NoProperty(t: Tree, name: string)
    requires t.Leaf? || forall k :: 0 <= k < |t.kids| ==> t.kids[k].name != Some(name)
    ensures Property(t, name) == None
  {
  }

  // The commands, one for each of the data that has one.
  function Answers(datas: seq<string>, read: Reader): seq<string> {
    if datas == [] then []
    else Answers(datas[..|datas| - 1], read) + (if read(datas).Some? then [read(datas).value] else [])
  }

  // Which of the data have a command.
  function Kept(datas: seq<string>, read: Reader): (ks: seq<nat>)
    ensures forall i :: 0 <= i < |ks| ==> ks[i] < |datas|
  {
    if datas == [] then []
    else Kept(datas[..|datas| - 1], read) + (if read(datas).Some? then [|datas| - 1] else [])
  }

  /** The commands come out in the order of their events, each once, and none is lost. */
  lemma {:induction false} AnswersInOrder(datas: seq<string>, read: Reader)
    ensures var ks := Kept(datas, read);
      && |Answers(datas, read)| == |ks| && (forall i, j :: 0 <= i < j < |ks| ==> ks[i] < ks[j])
      && (forall k :: 0 <= k < |datas| ==> (k in ks <==> read(datas[..k + 1]).Some?))
      && forall i :: 0 <= i < |ks| ==> read(datas[..ks[i] + 1]) == Some(Answers(datas, read)[i])
  {
    if datas != [] {
      var init := datas[..|datas| - 1];
      AnswersInOrder(init, read);
      forall k | 0 < k <= |init| ensures init[..k] == datas[..k] {
      }
      assert datas[..|datas|] == datas;
      var ks := Kept(datas, read);
      forall k | 0 <= k < |datas| ensures k in ks <==> read(datas[..k + 1]).Some? {
        assert k < |init| ==> (k in ks <==> k in Kept(init, read));
      }
    }
  }

  // Every event has a number: the program reads it without looking.
  predicate HaveIds(rows: seq<Tree>) {
    forall k :: 0 <= k < |rows| && IsEvent(rows[k]) ==> Property(rows[k], "ID").Some?
  }

  // The commands go into a list of that many slots (src/ajax_json.c:364, 385), each at the place behind those
  // before it, whether or not it turns out to be one: does every write hit a slot?
  predicate WritesFit(datas: seq<string>, read: Reader, slots: int) {
    datas == [] ||
    (WritesFit(datas[..|datas| - 1], read, slots) && |Answers(datas[..|datas| - 1], read)| < slots)
  }

  /** They all do iff the last does, that is, iff the data before the last have fewer commands than there are slots. */
  lemma {:induction false} WritesFitIff(datas: seq<string>, read: Reader, slots: int)
    ensures WritesFit(datas, read, slots) <==> datas == [] || |Answers(datas[..|datas| - 1], read)| < slots
  {
    if datas != [] {
      WritesFitIff(datas[..|datas| - 1], read, slots);
    }
  }

  /** With no more rows than "total" says, all writes hit the list and an empty slot is left to end it. */
  lemma RowsFit(rows: seq<Tree>, read: Reader, total: int)
    requires |rows| <= total
    ensures WritesFit(DataOf(rows), read, 1 + total) && |Answers(DataOf(rows), read)| < 1 + total
  {
    var datas := DataOf(rows);
    DataCount(rows);
    WritesFitIff(datas, read, 1 + total);
    AnswersCount(datas, read);
    if datas != [] {
      AnswersCount(datas[..|datas| - 1], read);
    }
  }

  lemma {:induction false} DataCount(rows: seq<Tree>)
    ensures |DataOf(rows)| <= |rows|
  {
    hide Property, IsEvent;
    if rows != [] {
      DataCount(rows[1..]);
    }
  }

  lemma {:induction false} AnswersCount(datas: seq<string>, read: Reader)
    ensures |Answers(datas, read)| <= |datas|
  {
    if datas != [] {
      AnswersCount(datas[..|datas| - 1], read);
    }
  }

  // src/ajax_json.c:385-386
  method AddAnswer(seen: seq<string>, result: seq<string>, fits: bool, slots: int, data: string, read: Reader)
      returns (seen': seq<string>, result': seq<string>, fits': bool)
    requires result == Answers(seen, read) && fits == WritesFit(seen, read, slots)
    ensures seen' == seen + [data] && result' == Answers(seen', read) && fits' == WritesFit(seen', read, slots)
  {
    seen' := seen + [data];
    assert seen'[..|seen|] == seen;
    fits' := fits && |result| < slots;
    result' := if read(seen').Some? then result + [read(seen').value] else result;
    assert result + [] == result;
  }

  lemma FirstRow(rows: seq<Tree>, seen: seq<string>)
    requires rows != [] && HaveIds(rows)
    ensures IsEvent(rows[0]) ==> Property(rows[0], "ID").Some?
    ensures var data := if IsEvent(rows[0]) then Property(rows[0], "Data") else None;
      seen + DataOf(rows) == (if data.Some? then seen + [data.value] else seen) + DataOf(rows[1..])
  {
    hide Property, IsEvent;
  }

  // One row of the loop (src/ajax_json.c:371-388).
  method ReadRow(m: array<Json>, b: array<char>, node: nat, evtid: int, seen: seq<string>, result: seq<string>, fits: bool,
                 slots: int, read: Reader, ghost rows: seq<Tree>, ghost next: nat)
      returns (evtid': int, seen': seq<string>, result': seq<string>, fits': bool)
    requires rows != [] && Stored(m[..], b[..], node, rows[0], next, false) && NulFree(rows[0]) && HaveIds(rows)
    requires result == Answers(seen, read) && fits == WritesFit(seen, read, slots)
    ensures evtid' == IdOf(rows[0], evtid) && result' == Answers(seen', read) && fits' == WritesFit(seen', read, slots)
    ensures seen' + DataOf(rows[1..]) == seen + DataOf(rows)
  {
    hide NulFree, Property, Answers, WritesFit, Stored, DataOf, HaveIds;
    NodeType(m[..], b[..], node, rows[0], next);
    FirstRow(rows, seen);
    evtid', seen', result', fits' := evtid, seen, result, fits;
    if m[node].ty == OBJ {
      var eventstr := GetPropertyValue(m, b, node, "ID", rows[0], next);
      evtid' := TextTools.Atoi(eventstr.value);
      var data := GetPropertyValue(m, b, node, "Data", rows[0], next);
      if data.Some? {
        seen', result', fits' := AddAnswer(seen, result, fits, slots, data.value, read);
      }
    }
  }

  /** parse_events (src/ajax_json.c:336-390) with evtid the last event known: it fails iff the text does not
      parse, its tree does not fit the pool, or "total" or the array "rows" is missing; otherwise it answers
      the events' commands in order, and remembers the last event's number. The list of answers grows as needed
      here; fits tells whether the slots the C code has would have done. */
  method ParseEvents(buf: array<char>, evtid0: int, read: Reader, blank: Json, ghost s: string)
      returns (ok: bool, evtid: int, result: seq<string>, fits: bool)
    requires Unread(buf[..], s, 0) && NUL !in s
    requires Parse(s).Good? && RowsOf(Parse(s).value).Some? ==> HaveIds(RowsOf(Parse(s).value).value)
    modifies buf
    ensures var r := Parse(s);
      && (ok <==> r.Good? && Covered(s) && Property(r.value, "total").Some? && RowsOf(r.value).Some?)
      && (ok ==> result == Answers(DataOf(RowsOf(r.value).value), read) && evtid == LastId(RowsOf(r.value).value, evtid0))
      && (ok ==> fits == WritesFit(DataOf(RowsOf(r.value).value), read, 1 + TextTools.Atoi(Property(r.value, "total").value)))
      && (!ok ==> evtid == evtid0 && result == [] && fits)
  {
    hide Stored, NulFree, HaveIds, Property;
    ok, evtid, result, fits := false, evtid0, [], true;
    var root, m := CreateCounted(buf, s, blank);
    if root == NULL {
      return;
    }
    ghost var t, next := Parse(s).value, Parse(s).next;
    RootFacts(m[..], buf[..], s);
    var total := GetPropertyValue(m, buf, root, "total", t, next);
    if total.None? {
      return;
    }
    var rows := GetProperty(m, buf, root, "rows", t, next);
    if rows == NULL {
      return;
    }
    NodeType(m[..], buf[..], rows, t.kids[FirstNamed(t.kids, "rows")], next);
    if m[rows].ty != ARRAY {
      return;
    }
    KidsNulFree(t);
    ok := true;
    var slots := 1 + TextTools.Atoi(total.value);
    evtid, result, fits := ReadRows(m, buf, rows, evtid0, slots, read, t.kids[FirstNamed(t.kids, "rows")], next);
  }

  // The elements of the array "rows".
  function RowsOf(t: Tree): Option<seq<Tree>> {
    if t.Leaf? then None else
    var k := FirstNamed(t.kids, "rows");
    if k < |t.kids| && t.kids[k].Branch? && t.kids[k].isArray then Some(t.kids[k].kids) else None
  }

  lemma NodeType(m: seq<Json>, b: seq<char>, i: nat, t: Tree, next: nat)
    requires Stored(m, b, i, t, next, false)
    ensures i < |m| && (m[i].ty == ARRAY <==> t.Branch? && t.isArray) && (m[i].ty == OBJ <==> IsEvent(t))
  {
  }

  lemma RootFacts(m: seq<Json>, b: seq<char>, s: string)
    requires NUL !in s && Parse(s).Good? && Built(m, b, Parse(s).value, Parse(s).next)
    ensures var t := Parse(s).value; t.Branch? && NulFree(t) && Stored(m, b, 0, t, Parse(s).next, false)
  {
    hide Stored, NulFree, Items;
    ValueNulFree(s, GoBlank(s, 0), None);
  }

  method ReadRows(m: array<Json>, b: array<char>, rows: nat, evtid0: int, slots: int, read: Reader, ghost t: Tree, ghost next: nat)
      returns (evtid: int, result: seq<string>, fits: bool)
    requires Stored(m[..], b[..], rows, t, next, false) && t.Branch? && NulFree(t) && HaveIds(t.kids)
    ensures result == Answers(DataOf(t.kids), read) && evtid == LastId(t.kids, evtid0)
    ensures fits == WritesFit(DataOf(t.kids), read, slots)
  {
    hide Stored, NulFree, HaveIds, IdOf, IsEvent;
    var seen;
    evtid, seen, result, fits := evtid0, [], [], true;
    var event := FirstChild(m, b, rows, t, next);
    ghost var kids := t.kids;
    KidsNulFree(t);
    assert [] + DataOf(kids) == DataOf(kids);
    while event != NULL
      invariant kids != [] ==> event >= 0 && ChainStored(m[..], b[..], event, kids, NULL, next, false)
      invariant kids == [] ==> event == NULL
      invariant HaveIds(kids) && forall k :: 0 <= k < |kids| ==> NulFree(kids[k])
      invariant seen + DataOf(kids) == DataOf(t.kids) && result == Answers(seen, read)
      invariant fits == WritesFit(seen, read, slots)
      invariant LastId(kids, evtid) == LastId(t.kids, evtid0)
      decreases |kids|
    {
      HeadNode(m[..], b[..], event, kids, next);
      evtid, seen, result, fits := ReadRow(m, b, event, evtid, seen, result, fits, slots, read, kids, next);
      event := m[event].sibling;
      IdsLeft(kids);
      kids := kids[1..];
    }
    assert seen + [] == seen;
  }

  lemma IdsLeft(rows: seq<Tree>)
    requires HaveIds(rows) && rows != []
    ensures HaveIds(rows[1..])
  {
  }
}
