/** How large a pool a text needs: parse_events (src/ajax_json.c:337-346) counts ':', '[' and '{'. */
module JsonPool {
  import opened CBase
  import opened JsonGrammar
  import opened JsonLex
  import opened JsonStore
  import opened JsonParser
  import opened JsonRoundTrip
  import opened JsonText

  predicate Counted(c: char) { c == ':' || c == '[' || c == '{' }

  // Counted characters of s from i to j.
  function Count(s: string, i: nat, j: nat): (n: nat)
    requires j <= |s|
    decreases j - i
  {
    if i >= j then 0 else (if Counted(s[i]) then 1 else 0) + Count(s, i + 1, j)
  }

  lemma {:induction false} CountSplit(s: string, i: nat, k: nat, j: nat)
    requires i <= k <= j <= |s|
    ensures Count(s, i, j) == Count(s, i, k) + Count(s, k, j)
    decreases k - i
  {
    if i < k {
      CountSplit(s, i + 1, k, j);
    }
  }

  lemma CountPast(s: string, i: nat, k: nat)
    requires i < k <= |s|
    ensures Count(s, i, k) >= if Counted(s[i]) then 1 else 0
  {
  }

  // Array elements that are no containers: each takes a node but no counted character.
  function Bare(t: Tree): nat {
    match t case Leaf(name, _, _) => if name.None? then 1 else 0 case Branch(_, _, kids) => BareAll(kids)
  }

  function BareAll(kids: seq<Tree>): nat {
    if kids == [] then 0 else Bare(kids[0]) + BareAll(kids[1..])
  }

  // Members that are containers: each takes one node but brings two counted characters.
  function Double(t: Tree): nat {
    match t case Leaf(_, _, _) => 0 case Branch(name, _, kids) => (if name.Some? then 1 else 0) + DoubleAll(kids)
  }

  function DoubleAll(kids: seq<Tree>): nat {
    if kids == [] then 0 else Double(kids[0]) + DoubleAll(kids[1..])
  }

  // Counted characters inside strings, which bring no node: of the string whose opening quote is at i, ...
  function StringMarks(s: string, i: nat): nat {
    if StrBody(s, i + 1).Good? then Count(s, i, StrBody(s, i + 1).next) else 0
  }

  // ... of the value at i, ...
  function ValueMarks(s: string, i: nat): nat
    decreases |s| - i, 0
  {
    if At(s, i) == '{' || At(s, i) == '[' then ItemsMarks(s, i + 1, At(s, i) == '[')
    else if At(s, i) == '\"' then StringMarks(s, i)
    else 0
  }

  // ... of a member with its name, or an element, ...
  function ItemMarks(s: string, i: nat, isArray: bool): nat
    decreases |s| - i, 1
  {
    if isArray then ValueMarks(s, i)
    else if NameAt(s, i).Bad? then 0
    else StringMarks(s, i) + ValueMarks(s, NameAt(s, i).next)
  }

  // ... and of all up to the closing bracket.
  function ItemsMarks(s: string, i: nat, isArray: bool): nat
    decreases |s| - i, 2
  {
    var j := GoBlank(s, i);
    if j == -1 || s[j] == Closer(isArray) then 0
    else if s[j] == ',' then ItemsMarks(s, j + 1, isArray)
    else if ItemAt(s, j, isArray).Bad? then 0
    else ItemMarks(s, j, isArray) + ItemsMarks(s, ItemAt(s, j, isArray).next, isArray)
  }

  function Marks(s: string): nat
    requires Parse(s).Good?
  {
    ValueMarks(s, GoBlank(s, 0))
  }

  lemma {:induction false} CountNone(s: string, i: nat, j: nat)
    requires j <= |s| && forall k :: i <= k < j ==> !Counted(s[k])
    ensures Count(s, i, j) == 0
    decreases j - i
  {
    if i < j {
      CountNone(s, i + 1, j);
    }
  }

  lemma {:induction false} BlanksCountNone(s: string, i: nat)
    requires GoBlank(s, i) != -1
    ensures Count(s, i, GoBlank(s, i)) == 0
    decreases |s| - i
  {
    if IsBlank(s[i]) {
      BlanksCountNone(s, i + 1);
    }
  }

  // Besides those in its string, a name brings exactly one counted character, its colon.
  lemma NameCounts(s: string, i: nat)
    requires NameAt(s, i).Good?
    ensures Count(s, i, NameAt(s, i).next) == StringMarks(s, i) + 1
  {
    hide StrBody, GoBlank;
    var n := StrBody(s, i + 1);
    var colon := GoBlank(s, n.next);
    var v := NameAt(s, i).next;
    BlanksCountNone(s, n.next);
    BlanksCountNone(s, colon + 1);
    CountSplit(s, i, n.next, v);
    CountSplit(s, n.next, colon, v);
    assert Count(s, colon, v) == 1 + Count(s, colon + 1, v);
  }

  // The characters of a number.
  predicate InNumber(c: char) { IsDigit(c) || c in "+-.eE" }

  // Up to its end a number holds nothing else.
  lemma NumberChars(s: string, i: nat, j: nat, k: nat, m: nat)
    requires j == IntEnd(s, if At(s, i) == '-' then i + 1 else i) && k == FracEnd(s, j) && m == ExpEnd(s, k)
    ensures i <= j <= k <= m && forall x :: i <= x < m && x < |s| ==> InNumber(s[x])
  {
  }

  // A primitive that is no string holds no counted character, nor does the end character it passes.
  lemma PrimitiveCountsNone(s: string, i: nat)
    requires LeafAt(s, i).Good? && At(s, i) != '\"'
    ensures Count(s, i, LeafAt(s, i).next) == 0
  {
    hide Count, IntEnd, FracEnd, ExpEnd;
    var next := LeafAt(s, i).next;
    match At(s, i)
    case 't' => LiteralCountsNone(s, i, BOOLEAN, "true");
    case 'f' => LiteralCountsNone(s, i, BOOLEAN, "false");
    case 'n' => LiteralCountsNone(s, i, NOTHING, "null");
    case _ =>
      var j := IntEnd(s, if At(s, i) == '-' then i + 1 else i);
      NumberChars(s, i, j, FracEnd(s, j), ExpEnd(s, FracEnd(s, j)));
      CountNone(s, i, next);
  }

  lemma LiteralCountsNone(s: string, i: nat, kind: Kind, w: string)
    requires w != "" && Literal(s, i, kind, w).Good? && forall k :: 0 <= k < |w| ==> !Counted(w[k])
    ensures Count(s, i, Literal(s, i, kind, w).next) == 0
  {
    forall k | i <= k < i + |w| ensures s[k] == w[k - i] {
      assert s[k] == s[i..i + |w|][k - i];
    }
    CountNone(s, i, Literal(s, i, kind, w).next);
  }

  lemma {:induction false} ValueCounts(s: string, i: nat, name: Option<string>)
    requires ValueAt(s, i, name).Good?
    ensures var r := ValueAt(s, i, name);
      Size(r.value) + Double(r.value) + ValueMarks(s, i) == Count(s, i, r.next) + Bare(r.value) + if name.Some? then 1 else 0
    decreases |s| - i, 0
  {
    hide Items, ItemsMarks, LeafAt;
    var r := ValueAt(s, i, name);
    if At(s, i) == '{' || At(s, i) == '[' {
      ItemsCount(s, i + 1, At(s, i) == '[');
    } else if At(s, i) == '\"' {
      TextEnds(s, i);
    } else {
      PrimitiveCountsNone(s, i);
    }
  }

  lemma TextEnds(s: string, i: nat)
    requires At(s, i) == '\"' && LeafAt(s, i).Good?
    ensures StringMarks(s, i) == Count(s, i, LeafAt(s, i).next)
  {
  }

  lemma {:induction false} ItemCounts(s: string, i: nat, isArray: bool)
    requires ItemAt(s, i, isArray).Good?
    ensures var r := ItemAt(s, i, isArray);
      Size(r.value) + Double(r.value) + ItemMarks(s, i, isArray) == Count(s, i, r.next) + Bare(r.value)
    decreases |s| - i, 1
  {
    hide NameAt, ValueAt, StringMarks, ValueMarks;
    if isArray {
      ValueCounts(s, i, None);
    } else {
      var n := NameAt(s, i);
      NameCounts(s, i);
      ValueCounts(s, n.next, Some(n.value));
      CountSplit(s, i, n.next, ItemAt(s, i, isArray).next);
    }
  }

  /** Where the counted characters of a text go: each node but the bare elements takes one, each member
      that is a container takes another, and the rest stand in strings. */
  lemma {:induction false} ItemsCount(s: string, i: nat, isArray: bool)
    requires Items(s, i, isArray).Good?
    ensures var r := Items(s, i, isArray);
      SizeAll(r.value) + DoubleAll(r.value) + ItemsMarks(s, i, isArray) == Count(s, i, r.next) + BareAll(r.value)
    decreases |s| - i, 2
  {
    hide ItemAt, ItemMarks;
    var r := Items(s, i, isArray);
    var j := GoBlank(s, i);
    BlanksCountNone(s, i);
    CountSplit(s, i, j, r.next);
    if s[j] == ',' {
      ItemsCount(s, j + 1, isArray);
    } else if s[j] != Closer(isArray) {
      var item := ItemAt(s, j, isArray);
      ItemCounts(s, j, isArray);
      ItemsCount(s, item.next, isArray);
      CountSplit(s, j, item.next, r.next);
    }
  }

  // The bare elements are made up for.
  predicate Covered(s: string)
    requires Parse(s).Good?
  {
    Bare(Parse(s).value) <= Double(Parse(s).value) + Marks(s) + Count(s, Parse(s).next, |s|)
  }

  /** The counted pool is large enough exactly when there are no more bare array elements than members that
      are containers, counted characters inside strings, and counted characters behind the object, together. */
  lemma PoolFitsIff(s: string)
    requires Parse(s).Good?
    ensures Size(Parse(s).value) <= Count(s, 0, |s|) <==> Covered(s)
  {
    hide Items, ValueMarks, Count, ValueAt;
    var j := GoBlank(s, 0);
    var r := Parse(s);
    BlanksCountNone(s, 0);
    ValueCounts(s, j, None);
    CountSplit(s, 0, j, |s|);
    CountSplit(s, j, r.next, |s|);
  }

  // Arrays hold only objects and arrays.
  predicate OnlyContainers(t: Tree) {
    match t
    case Leaf(_, _, _) => true
    case Branch(_, isArray, kids) => forall k :: 0 <= k < |kids| ==> (isArray ==> kids[k].Branch?) && OnlyContainers(kids[k])
  }

  // Members of objects have names, elements of arrays have none.
  predicate Named(t: Tree) {
    match t
    case Leaf(_, _, _) => true
    case Branch(_, isArray, kids) => forall k :: 0 <= k < |kids| ==> (kids[k].name.None? <==> isArray) && Named(kids[k])
  }

  lemma {:induction false} ValueNamed(s: string, i: nat, name: Option<string>)
    requires ValueAt(s, i, name).Good?
    ensures Named(ValueAt(s, i, name).value) && ValueAt(s, i, name).value.name == name
    decreases |s| - i, 0
  {
    hide Items, LeafAt;
    if At(s, i) == '{' || At(s, i) == '[' {
      ItemsNamed(s, i + 1, At(s, i) == '[');
    }
  }

  lemma {:induction false} ItemsNamed(s: string, i: nat, isArray: bool)
    requires Items(s, i, isArray).Good?
    ensures var kids := Items(s, i, isArray).value;
      forall k :: 0 <= k < |kids| ==> (kids[k].name.None? <==> isArray) && Named(kids[k])
    decreases |s| - i, 2
  {
    hide NameAt, ValueAt, Named;
    var j := GoBlank(s, i);
    if s[j] == ',' {
      ItemsNamed(s, j + 1, isArray);
    } else if s[j] != Closer(isArray) {
      if isArray {
        ValueNamed(s, j, None);
      } else {
        ValueNamed(s, NameAt(s, j).next, Some(NameAt(s, j).value));
      }
      ItemsNamed(s, ItemAt(s, j, isArray).next, isArray);
    }
  }

  lemma {:induction false} NothingBare(t: Tree)
    requires OnlyContainers(t) && Named(t) && (t.Branch? || t.name.Some?)
    ensures Bare(t) == 0
    decreases t, 1
  {
    if t.Branch? {
      NoneBare(t.kids, t.isArray);
    }
  }

  lemma {:induction false} NoneBare(kids: seq<Tree>, isArray: bool)
    requires forall k :: 0 <= k < |kids| ==>
      (isArray ==> kids[k].Branch?) && (kids[k].name.None? <==> isArray) && OnlyContainers(kids[k]) && Named(kids[k])
    ensures BareAll(kids) == 0
    decreases kids, 0
  {
    if kids != [] {
      NothingBare(kids[0]);
      NoneBare(kids[1..], isArray);
    }
  }

  /** So it is for every text with no more bare array elements than members that are containers; in
      particular for every text whose array elements are all objects or arrays. */
  lemma PoolSuffices(s: string)
    requires Parse(s).Good?
    ensures var t := Parse(s).value;
      Bare(t) <= Double(t) || OnlyContainers(t) ==> Size(t) <= Count(s, 0, |s|)
  {
    hide Items, OnlyContainers, Named;
    PoolFitsIff(s);
    ValueNamed(s, GoBlank(s, 0), None);
    if OnlyContainers(Parse(s).value) {
      NothingBare(Parse(s).value);
    }
  }

  /** Otherwise it may not be: three bare elements in one array are already too many. */
  lemma PoolCanBeTooSmall() returns (s: string)
    ensures Parse(s).Good? && Size(Parse(s).value) > Count(s, 0, |s|)
  {
    hide PrintBody, GoodBody, Parse, Count, Size, BodyTree;
    s := "{\"a\":[1,1,1]}";
    ThreeOnesPrint();
    ThreeOnesGood();
    Complete("", ThreeOnes(), "");
    assert "" + s + "" == s;
    ThreeOnesSize();
    CountsThree();
  }

  function One(fill: string): Doc { Doc(fill, Untagged, Plain(INTEGER, "1")) }

  function Row(): Doc {
    Doc("", Tag(Spelled("a", ["a"]), "", ""), Kids(true, [One(""), One(","), One(",")], ""))
  }

  function ThreeOnes(): Body { Kids(false, [Row()], "") }

  lemma ThreeOnesPrint()
    ensures PrintBody(ThreeOnes()) == "{\"a\":[1,1,1]}"
  {
    hide PrintTag;
    TagPrints();
    RowPrints();
    assert [Row()][1..] == [];
    assert PrintDocs([Row()]) == "\"a\":[1,1,1]";
  }

  lemma TagPrints()
    ensures PrintTag(Row().tag) == "\"a\":"
  {
    assert ["a"][1..] == [];
  }

  lemma RowPrints()
    ensures PrintBody(Row().body) == "[1,1,1]"
  {
    var kids := Row().body.kids;
    assert kids[1..] == [One(","), One(",")] && kids[1..][1..] == [One(",")] && [One(",")][1..] == [];
    assert PrintDocs([One(",")]) == ",1";
    assert PrintDocs(kids[1..]) == ",1,1";
    assert PrintDocs(kids) == "1,1,1";
  }

  lemma ThreeOnesGood()
    ensures GoodBody(ThreeOnes())
  {
    var kids := Row().body.kids;
    OneIsGood();
    assert kids[1..] == [One(","), One(",")] && kids[1..][1..] == [One(",")] && [One(",")][1..] == [];
    assert GoodDocs([One(",")], true);
    assert GoodDocs(kids[1..], true);
    assert GoodDocs(kids, true);
    assert [Row()][1..] == [];
  }

  lemma OneIsGood()
    ensures GoodPlain(INTEGER, "1")
  {
    assert Val("1") == 1 by {
      assert "1"[..0] == "";
    }
  }

  lemma ThreeOnesSize()
    ensures Size(BodyTree(None, ThreeOnes())) == 5
  {
    var one := Leaf(None, INTEGER, "1");
    var kids := Row().body.kids;
    assert kids[1..] == [One(","), One(",")] && kids[1..][1..] == [One(",")] && [One(",")][1..] == [];
    assert Trees([One(",")]) == [one];
    assert Trees(kids[1..]) == [one, one];
    assert Trees(kids) == [one, one, one];
    assert [Row()][1..] == [];
    assert Trees([Row()]) == [Branch(Some("a"), true, [one, one, one])];
    assert [one, one, one][1..] == [one, one] && [one, one][1..] == [one];
    assert SizeAll([one, one, one]) == 3;
    assert SizeAll([Branch(Some("a"), true, [one, one, one])]) == 4;
  }

  lemma CountsThree()
    ensures Count("{\"a\":[1,1,1]}", 0, 13) == 3
  {
    var s := "{\"a\":[1,1,1]}";
    assert Count(s, 6, 13) == 0;
    assert Count(s, 4, 13) == 2;
    assert Count(s, 0, 13) == 3;
  }

  // src/ajax_json.c:338-339
  method CountTokens(buf: array<char>, ghost s: string) returns (count: nat)
    requires Unread(buf[..], s, 0) && NUL !in s
    ensures count == Count(s, 0, |s|)
  {
    count := 0;
    var pt := 0;
    while buf[pt] != NUL
      invariant 0 <= pt <= |s| && count + Count(s, pt, |s|) == Count(s, 0, |s|)
      decreases |s| - pt
    {
      if Counted(buf[pt]) {
        count := count + 1;
      }
      pt := pt + 1;
    }
  }

  /** The start of parse_events: a pool of the counted size, then json_create. It succeeds iff the text
      parses and its bare array elements are made up for. */
  method CreateCounted(buf: array<char>, ghost s: string, blank: Json) returns (root: int, mem: array<Json>)
    requires Unread(buf[..], s, 0) && NUL !in s
    modifies buf
    ensures var r := Parse(s);
      && (root != NULL <==> r.Good? && Covered(s))
      && (root != NULL ==> root == 0 && Built(mem[..], buf[..], r.value, r.next))
  {
    hide Parse, Covered;
    var count := CountTokens(buf, s);
    mem := new Json[count](_ => blank);
    BraceCounts(s);
    if Parse(s).Good? {
      PoolFitsIff(s);
    }
    root := Create(buf, mem, s);
  }

  lemma BraceCounts(s: string)
    ensures GoBlank(s, 0) != -1 && s[GoBlank(s, 0)] == '{' ==> Count(s, 0, |s|) >= 1
  {
    var j := GoBlank(s, 0);
    if j != -1 {
      CountSplit(s, 0, j, |s|);
      CountPast(s, j, |s|);
    }
  }
}
