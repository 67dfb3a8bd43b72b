/** Whatever is written as JSON reads back: every spelling of every string, every blank and comma. With
    printing per RFC 8259 as a special case, the round trip. */
module JsonRoundTrip {
  import opened CBase
  import opened JsonGrammar
  import opened JsonNumber
  import opened JsonText

  // ---- pieces of a text

  lemma HasSplit(s: string, i: nat, p: string, q: string)
    requires HasAt(s, i, p + q)
    ensures HasAt(s, i, p) && HasAt(s, i + |p|, q)
  {
    assert s[i..i + |p|] == s[i..i + |p + q|][..|p|] == p;
    assert s[i + |p|..i + |p| + |q|] == s[i..i + |p + q|][|p|..] == q;
  }

  lemma HasIs(s: string, i: nat, p: string)
    requires HasAt(s, i, p)
    ensures i + |p| <= |s| && s[i..i + |p|] == p
  {
  }

  lemma HasFirst(s: string, i: nat, p: string)
    requires HasAt(s, i, p) && p != ""
    ensures i < |s| && s[i] == p[0]
  {
    assert s[i] == s[i..i + |p|][0];
  }

  lemma BlankStops(s: string, i: nat)
    requires At(s, i) != NUL && !IsBlank(At(s, i))
    ensures GoBlank(s, i) == i
  {
  }

  lemma {:induction false} BlanksSkipped(s: string, i: nat, w: string)
    requires Blanks(w) && HasAt(s, i, w)
    ensures GoBlank(s, i) == GoBlank(s, i + |w|)
    decreases |w|
  {
    if w != "" {
      HasFirst(s, i, w);
      assert w == w[..1] + w[1..];
      HasSplit(s, i, w[..1], w[1..]);
      BlanksSkipped(s, i + 1, w[1..]);
    }
  }

  lemma HasTail(s: string, i: nat, p: string, n: nat)
    requires HasAt(s, i, p) && n <= |p|
    ensures HasAt(s, i, p[..n]) && HasAt(s, i + n, p[n..])
  {
    assert p == p[..n] + p[n..];
    HasSplit(s, i, p[..n], p[n..]);
  }

  // ---- strings and numbers

  lemma PieceReads(s: string, i: nat, piece: string, c: char)
    requires piece != "" && Spells(piece, c) && HasAt(s, i, piece)
    ensures StrBody(s, i) == Cons(c, StrBody(s, i + |piece|))
  {
    HasFirst(s, i, piece);
    if |piece| == 6 {
      CodeReads(s, i, piece);
    } else if |piece| == 2 {
      HasTail(s, i, piece, 1);
      HasFirst(s, i + 1, piece[1..]);
    }
  }

  lemma CodeReads(s: string, i: nat, piece: string)
    requires |piece| == 6 && Spells(piece, '?') && HasAt(s, i, piece)
    ensures StrBody(s, i) == Cons('?', StrBody(s, i + 6))
  {
    forall k | 0 <= k < 6 ensures At(s, i + k) == piece[k] {
      assert s[i..i + 6][k] == piece[k];
    }
    assert HexFour(s, i + 2) by {
      forall k | i + 2 <= k < i + 6 ensures IsHex(At(s, k)) {
        assert At(s, i + (k - i)) == piece[k - i];
      }
    }
    assert At(s, i + 0) == '\\' && At(s, i + 1) == 'u';
  }

  /** Any spelling of a text reads as the text. */
  lemma {:induction false} TextReads(s: string, i: nat, sp: Spelled)
    requires GoodSpelling(sp) && HasAt(s, i, Concat(sp.pieces) + "\"")
    ensures StrBody(s, i) == Good(sp.text, i + |Concat(sp.pieces)| + 1)
    decreases |sp.text|
  {
    hide Spells, HasAt, StrBody;
    if sp.text == "" {
      assert Concat(sp.pieces) + "\"" == "\"";
      HasFirst(s, i, "\"");
      ClosesAt(s, i);
    } else {
      var piece, rest := sp.pieces[0], Spelled(sp.text[1..], sp.pieces[1..]);
      assert Concat(sp.pieces) + "\"" == piece + (Concat(rest.pieces) + "\"");
      HasSplit(s, i, piece, Concat(rest.pieces) + "\"");
      PieceReads(s, i, piece, sp.text[0]);
      TextReads(s, i + |piece|, rest);
      assert sp.text == [sp.text[0]] + sp.text[1..];
    }
  }

  lemma ClosesAt(s: string, i: nat)
    requires At(s, i) == '\"'
    ensures StrBody(s, i) == Good("", i + 1)
  {
  }

  lemma QuoteReads(s: string, i: nat, sp: Spelled)
    requires GoodSpelling(sp) && HasAt(s, i, Quote(sp))
    ensures At(s, i) == '\"' && StrBody(s, i + 1) == Good(sp.text, i + |Quote(sp)|)
  {
    hide GoodSpelling, HasAt, StrBody, Concat;
    var body := Concat(sp.pieces) + "\"";
    assert Quote(sp) == "\"" + body;
    HasSplit(s, i, "\"", body);
    HasFirst(s, i, "\"");
    TextReads(s, i + 1, sp);
  }

  lemma {:induction false} DigitsRead(s: string, i: nat, d: string)
    requires AllDigits(d) && HasAt(s, i, d) && MayFollowDigits(At(s, i + |d|))
    ensures GoNum(s, i) == i + |d|
    decreases |d|
  {
    if d != "" {
      HasFirst(s, i, d);
      assert d == d[..1] + d[1..];
      HasSplit(s, i, d[..1], d[1..]);
      DigitsRead(s, i + 1, d[1..]);
    }
  }

  // What may follow a run of digits in a number.
  predicate MayFollowDigits(c: char) {
    EndsPrimitive(c) || c == '.' || c == 'e' || c == 'E'
  }

  lemma IntReads(s: string, i: nat, a: string)
    requires IsInteger(a) && HasAt(s, i, a) && MayFollowDigits(At(s, i + |a|))
    ensures IntEnd(s, if At(s, i) == '-' then i + 1 else i) == i + |a|
  {
    HasFirst(s, i, a);
    if a[0] == '-' {
      assert a == a[..1] + a[1..];
      HasSplit(s, i, a[..1], a[1..]);
      UnsignedReads(s, i + 1, a[1..]);
    } else {
      UnsignedReads(s, i, a);
    }
  }

  lemma UnsignedReads(s: string, i: nat, d: string)
    requires |d| >= 1 && AllDigits(d) && (d[0] == '0' ==> |d| == 1) && HasAt(s, i, d) && MayFollowDigits(At(s, i + |d|))
    ensures IntEnd(s, i) == i + |d|
  {
    HasFirst(s, i, d);
    DigitsRead(s, i, d);
  }

  lemma DigitRunReads(s: string, i: nat, d: string)
    requires d != "" && AllDigits(d) && HasAt(s, i, d) && MayFollowDigits(At(s, i + |d|))
    ensures IsDigit(At(s, i)) && GoNum(s, i + 1) == i + |d|
  {
    HasFirst(s, i, d);
    DigitsRead(s, i, d);
    assert GoNum(s, i) == GoNum(s, i + 1);
  }

  lemma FractionReads(s: string, i: nat, f: string)
    requires IsFraction(f) && HasAt(s, i, f) && MayFollowDigits(At(s, i + |f|)) && At(s, i + |f|) != '.'
    ensures FracEnd(s, i) == i + |f|
  {
    if f != "" {
      HasFirst(s, i, f);
      HasTail(s, i, f, 1);
      DigitRunReads(s, i + 1, f[1..]);
    }
  }

  // A sign, if any, and digits.
  lemma SignedRunReads(s: string, i: nat, x: string)
    requires x != "" && HasAt(s, i, x) && MayFollowDigits(At(s, i + |x|))
    requires var d := if x[0] == '-' || x[0] == '+' then x[1..] else x; d != "" && AllDigits(d)
    ensures At(s, i) == x[0]
    ensures var k := if x[0] == '-' || x[0] == '+' then i + 1 else i; IsDigit(At(s, k)) && GoNum(s, k + 1) == i + |x|
  {
    hide GoNum, HasAt, AllDigits;
    HasFirst(s, i, x);
    HasTail(s, i, x, 1);
    if x[0] == '-' || x[0] == '+' {
      DigitRunReads(s, i + 1, x[1..]);
    } else {
      DigitRunReads(s, i, x);
    }
  }

  lemma ExponentReads(s: string, i: nat, e: string)
    requires IsExponent(e) && HasAt(s, i, e) && EndsPrimitive(At(s, i + |e|))
    ensures ExpEnd(s, i) == i + |e|
  {
    hide GoNum, HasAt, AllDigits;
    if e != "" {
      var x := e[1..];
      assert x[0] == e[1] && x[1..] == e[2..];
      HasFirst(s, i, e);
      HasTail(s, i, e, 1);
      SignedRunReads(s, i + 1, x);
    }
  }

  lemma NumberReads(s: string, i: nat, text: string, a: string, f: string, e: string)
    requires text == a + f + e && IsInteger(a) && IsFraction(f) && IsExponent(e)
    requires HasAt(s, i, text) && EndsPrimitive(At(s, i + |text|))
    requires f + e == "" ==> -MAX64 - 1 <= IntValue(text) <= MAX64
    ensures Number(s, i) == Good(Lexeme(if f + e == "" then INTEGER else REAL, text), PassEnd(s, i + |text|))
  {
    hide IntEnd, FracEnd, ExpEnd, IsFraction, IsExponent, IsInteger, HasAt, IntValue, EndsPrimitive, PassEnd;
    HasSplit(s, i, a + f, e);
    HasSplit(s, i, a, f);
    PartsRead(s, i, a, f, e);
    HasIs(s, i, text);
  }

  lemma PartsRead(s: string, i: nat, a: string, f: string, e: string)
    requires IsInteger(a) && IsFraction(f) && IsExponent(e)
    requires HasAt(s, i, a) && HasAt(s, i + |a|, f) && HasAt(s, i + |a| + |f|, e) && EndsPrimitive(At(s, i + |a| + |f| + |e|))
    ensures IntEnd(s, if At(s, i) == '-' then i + 1 else i) == i + |a|
    ensures FracEnd(s, i + |a|) == i + |a| + |f|
    ensures ExpEnd(s, i + |a| + |f|) == i + |a| + |f| + |e|
  {
    hide IntEnd, FracEnd, ExpEnd, IsFraction, IsExponent, IsInteger, HasAt;
    var j := i + |a|;
    StartsFraction(f);
    StartsExponent(e);
    if f != "" {
      HasFirst(s, j, f);
    }
    if e != "" {
      HasFirst(s, j + |f|, e);
    }
    IntReads(s, i, a);
    FractionReads(s, j, f);
    ExponentReads(s, j + |f|, e);
  }

  lemma StartsFraction(f: string)
    requires IsFraction(f)
    ensures f != "" ==> f[0] == '.'
  {
  }

  lemma StartsExponent(e: string)
    requires IsExponent(e)
    ensures e != "" ==> e[0] == 'e' || e[0] == 'E'
  {
  }

  lemma NumberLeafReads(s: string, i: nat, kind: Kind, text: string)
    requires GoodPlain(kind, text) && (kind == INTEGER || kind == REAL)
    requires HasAt(s, i, text) && EndsPrimitive(At(s, i + |text|))
    ensures IsDigit(At(s, i)) || At(s, i) == '-'
    ensures Number(s, i) == Good(Lexeme(kind, text), PassEnd(s, i + |text|))
  {
    hide HasAt, Number, IsInteger, IsFraction, IsExponent;
    var a, f, e := text, "", "";
    if kind == REAL {
      a, f, e :| text == a + f + e && IsInteger(a) && IsFraction(f) && IsExponent(e) && f + e != "";
    } else {
      assert a + "" + "" == a;
      EmptyParts();
    }
    NumberStarts(a, f, e);
    HasFirst(s, i, text);
    NumberReads(s, i, text, a, f, e);
  }

  lemma EmptyParts()
    ensures IsFraction("") && IsExponent("") && "" + "" == ""
  {
  }

  lemma NumberStarts(a: string, f: string, e: string)
    requires IsInteger(a)
    ensures a != "" && (a + f + e)[0] == a[0] && (IsDigit(a[0]) || a[0] == '-')
  {
  }

  // ---- values, members and elements

  // Where reading goes on after a value that ends at end.
  function Behind(s: string, body: Body, end: nat): nat {
    if body.Plain? then PassEnd(s, end) else end
  }

  // What may follow a value.
  predicate MayFollow(s: string, body: Body, end: nat) {
    body.Plain? ==> EndsPrimitive(At(s, end))
  }

  lemma LeafReads(s: string, i: nat, body: Body)
    requires !body.Kids? && GoodBody(body) && HasAt(s, i, PrintBody(body)) && MayFollow(s, body, i + |PrintBody(body)|)
    ensures Starts(At(s, i)) && At(s, i) != '{' && At(s, i) != '['
    ensures LeafAt(s, i) ==
      Good(if body.Plain? then Lexeme(body.kind, body.text) else Lexeme(TEXT, body.sp.text), Behind(s, body, i + |PrintBody(body)|))
  {
    hide HasAt, StrBody, Concat, Number, GoodSpelling;
    match body
    case Quoted(sp) => QuoteReads(s, i, sp);
    case Plain(kind, text) =>
      if kind == BOOLEAN || kind == NOTHING {
        HasFirst(s, i, text);
      } else {
        NumberLeafReads(s, i, kind, text);
      }
  }

  // A member's name, up to where its value starts.
  lemma TagReads(s: string, i: nat, tag: Tag)
    requires tag.Tag? && GoodTag(tag, false) && HasAt(s, i, PrintTag(tag))
    requires var v := i + |PrintTag(tag)|; v < |s| && !IsBlank(s[v]) && s[v] != NUL
    ensures NameAt(s, i) == Good(tag.name.text, i + |PrintTag(tag)|) && At(s, i) == '\"'
  {
    hide StrBody, HasAt, GoBlank, Blanks, GoodSpelling, Quote;
    var q, w, x := Quote(tag.name), tag.before, tag.after;
    HasSplit(s, i, q + w + ":", x);
    HasSplit(s, i, q + w, ":");
    HasSplit(s, i, q, w);
    QuoteReads(s, i, tag.name);
    var n := i + |q|;
    BlanksSkipped(s, n, w);
    HasFirst(s, n + |w|, ":");
    BlankStops(s, n + |w|);
    BlanksSkipped(s, n + |w| + 1, x);
    BlankStops(s, n + |w| + 1 + |x|);
  }

  // A blank or a comma is read past.
  lemma ItemsSkip(s: string, i: nat, isArray: bool)
    requires IsBlank(At(s, i)) || At(s, i) == ','
    ensures Items(s, i, isArray) == Items(s, i + 1, isArray)
  {
  }

  lemma ItemsBehind(s: string, body: Body, end: nat, isArray: bool)
    requires MayFollow(s, body, end)
    ensures Items(s, Behind(s, body, end), isArray) == Items(s, end, isArray)
  {
    hide Items;
    if body.Plain? && !IsBracket(At(s, end)) {
      ItemsSkip(s, end, isArray);
    }
  }

  /** Blanks and commas, in any number, are read past. */
  lemma {:induction false} ItemsFill(s: string, i: nat, w: string, isArray: bool)
    requires Filler(w) && HasAt(s, i, w)
    ensures Items(s, i, isArray) == Items(s, i + |w|, isArray)
    decreases |w|
  {
    hide Items;
    if w != "" {
      HasFirst(s, i, w);
      HasTail(s, i, w, 1);
      ItemsSkip(s, i, isArray);
      ItemsFill(s, i + 1, w[1..], isArray);
    }
  }

  lemma ItemsStep(s: string, i: nat, isArray: bool)
    requires At(s, i) != NUL && !IsBlank(At(s, i)) && At(s, i) != ',' && !IsBracket(At(s, i))
    ensures var item := ItemAt(s, i, isArray);
      Items(s, i, isArray) ==
        if item.Bad? then Bad
        else var rest := Items(s, item.next, isArray);
          if rest.Bad? then Bad else Good([item.value] + rest.value, rest.next)
  {
    hide ItemAt;
  }

  lemma ItemsClose(s: string, i: nat, isArray: bool)
    requires At(s, i) == Closer(isArray)
    ensures Items(s, i, isArray) == Good([], i + 1)
  {
  }

  // The first character of a value or an item is the start of something.
  predicate Starts(c: char) {
    c != NUL && !IsBlank(c) && c != ',' && !IsBracket(c)
  }

  lemma {:induction false} BodyReads(s: string, i: nat, body: Body, name: Option<string>)
    requires GoodBody(body) && HasAt(s, i, PrintBody(body)) && MayFollow(s, body, i + |PrintBody(body)|)
    ensures Starts(At(s, i)) && ValueAt(s, i, name) == Good(BodyTree(name, body), Behind(s, body, i + |PrintBody(body)|))
    decreases body, 0
  {
    hide HasAt, Items, LeafAt;
    if body.Kids? {
      var open, rest := if body.isArray then "[" else "{", PrintDocs(body.kids) + body.end + [Closer(body.isArray)];
      HasSplit(s, i, open, rest);
      HasFirst(s, i, open);
      KidsRead(s, i + 1, body.kids, body.end, body.isArray);
    } else {
      LeafReads(s, i, body);
    }
  }

  lemma {:induction false} DocReads(s: string, i: nat, d: Doc, isArray: bool)
    requires GoodTag(d.tag, isArray) && GoodBody(d.body)
    requires HasAt(s, i, PrintDoc(d)) && MayFollow(s, d.body, i + |PrintDoc(d)|)
    ensures Starts(At(s, i)) && ItemAt(s, i, isArray) == Good(TreeOf(d), Behind(s, d.body, i + |PrintDoc(d)|))
    decreases d, 1
  {
    hide HasAt, ValueAt, NameAt, PrintBody, PrintTag, BodyTree, GoodBody, GoodTag;
    HasSplit(s, i, PrintTag(d.tag), PrintBody(d.body));
    TagKind(d.tag, isArray);
    BodyReads(s, i + |PrintTag(d.tag)|, d.body, NameOf(d.tag));
    if d.tag.Tag? {
      TagReads(s, i, d.tag);
    }
  }

  lemma TagKind(tag: Tag, isArray: bool)
    requires GoodTag(tag, isArray)
    ensures (tag.Untagged? <==> isArray) && (tag.Untagged? ==> PrintTag(tag) == "")
  {
  }

  // What stands behind the first of several items may follow it.
  lemma FollowedRight(s: string, kids: seq<Doc>, end: string, isArray: bool, j: nat)
    requires kids != [] && GoodDocs(kids, isArray) && Filler(end)
    requires HasAt(s, j, PrintDocs(kids[1..]) + end + [Closer(isArray)])
    ensures MayFollow(s, kids[0].body, j)
  {
    hide HasAt, PrintDoc, GoodBody, GoodTag;
    var p := PrintDocs(kids[1..]) + end + [Closer(isArray)];
    HasFirst(s, j, p);
    if |kids| == 1 {
      assert p == end + [Closer(isArray)];
      assert p[0] == if end == "" then Closer(isArray) else end[0];
    } else if kids[0].body.Plain? {
      assert kids[1..][0] == kids[1];
      assert p[0] == kids[1].fill[0];
    }
  }

  /** Members or elements as they may be written, up to their closing bracket, read back in order. */
  lemma {:induction false} KidsRead(s: string, i: nat, kids: seq<Doc>, end: string, isArray: bool)
    requires GoodDocs(kids, isArray) && Filler(end) && HasAt(s, i, PrintDocs(kids) + end + [Closer(isArray)])
    ensures Items(s, i, isArray) == Good(Trees(kids), i + |PrintDocs(kids)| + |end| + 1)
    decreases kids, 0
  {
    hide HasAt, Items, ItemAt, PrintDoc, GoodTag, GoodBody, TreeOf, Filler, MayFollow;
    var close := [Closer(isArray)];
    if kids == [] {
      assert PrintDocs(kids) + end + close == end + close;
      HasSplit(s, i, end, close);
      ItemsFill(s, i, end, isArray);
      HasFirst(s, i + |end|, close);
      ItemsClose(s, i + |end|, isArray);
    } else {
      var d, rest := kids[0], PrintDocs(kids[1..]) + end + close;
      assert PrintDocs(kids) + end + close == d.fill + (PrintDoc(d) + rest);
      var j := i + |d.fill|;
      HasSplit(s, i, d.fill, PrintDoc(d) + rest);
      HasSplit(s, j, PrintDoc(d), rest);
      ItemsFill(s, i, d.fill, isArray);
      FollowedRight(s, kids, end, isArray, j + |PrintDoc(d)|);
      DocReads(s, j, d, isArray);
      ItemsStep(s, j, isArray);
      ItemsBehind(s, d.body, j + |PrintDoc(d)|, isArray);
      KidsRead(s, j + |PrintDoc(d)|, kids[1..], end, isArray);
    }
  }

  /** A whole text: blanks, an object, and anything behind it. */
  lemma Complete(w: string, body: Body, rest: string)
    requires Blanks(w) && GoodBody(body) && body.Kids? && !body.isArray
    ensures Parse(w + PrintBody(body) + rest) == Good(BodyTree(None, body), |w + PrintBody(body)|)
  {
    hide ValueAt, GoodBody, PrintBody;
    var p := PrintBody(body);
    var s := w + p + rest;
    assert s[0..|w|] == w && s[|w|..|w| + |p|] == p;
    BlanksSkipped(s, 0, w);
    BodyReads(s, |w|, body, None);
    OpensBrace(body);
    HasFirst(s, |w|, p);
    BlankStops(s, |w|);
  }

  lemma OpensBrace(body: Body)
    requires body.Kids? && !body.isArray
    ensures PrintBody(body) != "" && PrintBody(body)[0] == '{'
  {
  }

  // ---- printing a tree; w is the blank string put wherever RFC 8259 allows one

  predicate PrintableText(t: string) {
    forall k :: 0 <= k < |t| ==> t[k] >= ' ' || ShortEscape(t[k]) != ""
  }

  // As itself where that is allowed, else by its short escape.
  function PieceOf(c: char): string {
    if c == '/' || ShortEscape(c) == "" then [c] else ShortEscape(c)
  }

  function SpelledOf(t: string): Spelled {
    Spelled(t, seq(|t|, (k: nat) requires k < |t| => PieceOf(t[k])))
  }

  function BodyOf(t: Tree, w: string): Body
    decreases t, 0
  {
    match t
    case Leaf(_, kind, text) => if kind == TEXT then Quoted(SpelledOf(text)) else Plain(kind, text)
    case Branch(_, isArray, kids) => Kids(isArray, DocsOf(kids, w, w), w)
  }

  function TagOf(name: Option<string>, w: string): Tag {
    if name.None? then Untagged else Tag(SpelledOf(name.value), w, w)
  }

  // first stands before the first, a comma between blanks before each of the others.
  function DocsOf(kids: seq<Tree>, first: string, w: string): (ds: seq<Doc>)
    ensures |ds| == |kids|
    decreases kids, 0
  {
    if kids == [] then []
    else [Doc(first, TagOf(kids[0].name, w), BodyOf(kids[0], w))] + DocsOf(kids[1..], w + "," + w, w)
  }

  function PrintValue(t: Tree, w: string): string {
    PrintBody(BodyOf(t, w))
  }

  // ---- what can be printed: all but control characters without a short escape

  ghost predicate GoodLeaf(kind: Kind, text: string) {
    if kind == TEXT then PrintableText(text) else GoodPlain(kind, text)
  }

  /** Members of objects are named, elements of arrays are not. */
  ghost predicate GoodTree(t: Tree, inArray: bool)
    decreases t, 1
  {
    && (t.name.Some? <==> !inArray) && (t.name.Some? ==> PrintableText(t.name.value))
    && GoodValue(t)
  }

  ghost predicate GoodValue(t: Tree)
    decreases t, 0
  {
    match t
    case Leaf(_, kind, text) => GoodLeaf(kind, text)
    case Branch(_, isArray, kids) => forall i :: 0 <= i < |kids| ==> GoodTree(kids[i], isArray)
  }

  lemma SpelledGood(t: string)
    requires PrintableText(t)
    ensures GoodSpelling(SpelledOf(t))
  {
    var sp := SpelledOf(t);
    forall k | 0 <= k < |t| ensures sp.pieces[k] != "" && Spells(sp.pieces[k], t[k]) {
      assert sp.pieces[k] == PieceOf(t[k]);
    }
  }

  lemma {:induction false} PrintsGood(t: Tree, w: string)
    requires GoodValue(t) && Blanks(w)
    ensures GoodBody(BodyOf(t, w)) && BodyTree(t.name, BodyOf(t, w)) == t
    decreases t, 0
  {
    hide Blanks, GoodPlain, Filler, PrintableText, GoodSpelling;
    match t
    case Leaf(_, kind, text) =>
      if kind == TEXT {
        SpelledGood(text);
      }
    case Branch(_, isArray, kids) =>
      BlanksFill(w);
      KidsPrintGood(kids, w, w, isArray);
  }

  lemma BlanksFill(w: string)
    requires Blanks(w)
    ensures Filler(w) && Filler(w + "," + w)
  {
  }

  lemma {:induction false} KidsPrintGood(kids: seq<Tree>, first: string, w: string, isArray: bool)
    requires Blanks(w) && Filler(first) && forall k :: 0 <= k < |kids| ==> GoodTree(kids[k], isArray)
    ensures GoodDocs(DocsOf(kids, first, w), isArray) && Trees(DocsOf(kids, first, w)) == kids
    decreases kids, 0
  {
    hide Blanks, Filler, GoodBody, GoodValue, BodyOf, BodyTree, GoodSpelling;
    if kids != [] {
      BlanksFill(w);
      assert GoodTree(kids[0], isArray);
      if kids[0].name.Some? {
        SpelledGood(kids[0].name.value);
      }
      PrintsGood(kids[0], w);
      KidsPrintGood(kids[1..], w + "," + w, w, isArray);
      var docs := DocsOf(kids, first, w);
      assert docs[1..] == DocsOf(kids[1..], w + "," + w, w);
      assert |docs| > 1 ==> docs[1].fill == w + "," + w;
    }
  }

  /** Round trip: an object tree of printable strings, RFC numbers and 64-bit integers, printed with
      any blanks between its tokens and followed by anything, parses back to itself. */
  lemma RoundTrip(t: Tree, w: string, rest: string)
    requires t.Branch? && !t.isArray && t.name == None && GoodValue(t) && Blanks(w)
    ensures Parse(w + PrintValue(t, w) + rest) == Good(t, |w + PrintValue(t, w)|)
  {
    hide GoodValue, GoodBody, PrintBody, BodyTree, Parse;
    PrintsGood(t, w);
    Complete(w, BodyOf(t, w), rest);
  }
}
