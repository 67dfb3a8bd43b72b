/** Whatever parses is JSON as it may be written, and what was parsed is what it means: with JsonRoundTrip,
    the parser accepts exactly those texts. */
module JsonSound {
  import opened CBase
  import opened JsonGrammar
  import opened JsonNumber
  import opened JsonText
  import opened JsonRoundTrip
  import JsonLex

  lemma HasJoin(s: string, i: nat, p: string, q: string)
    requires HasAt(s, i, p) && HasAt(s, i + |p|, q)
    ensures HasAt(s, i, p + q)
  {
    assert s[i..i + |p + q|] == s[i..i + |p|] + s[i + |p|..i + |p| + |q|];
  }

  lemma HasSlice(s: string, i: nat, j: nat)
    requires i <= j <= |s|
    ensures HasAt(s, i, s[i..j])
  {
  }

  // ---- strings and numbers

  lemma {:induction false} TextIsSpelled(s: string, i: nat) returns (sp: Spelled)
    requires StrBody(s, i).Good?
    ensures GoodSpelling(sp) && HasAt(s, i, Concat(sp.pieces) + "\"")
    ensures StrBody(s, i) == Good(sp.text, i + |Concat(sp.pieces)| + 1)
    decreases |s| - i
  {
    hide HasAt, Spells;
    if At(s, i) == '\"' {
      sp := Spelled("", []);
      HasSlice(s, i, i + 1);
      assert s[i..i + 1] == Concat([]) + "\"";
    } else {
      var piece, c := FirstPiece(s, i);
      var rest := TextIsSpelled(s, i + |piece|);
      sp := Spelled([c] + rest.text, [piece] + rest.pieces);
      assert sp.pieces[1..] == rest.pieces;
      HasJoin(s, i, piece, Concat(rest.pieces) + "\"");
      assert piece + (Concat(rest.pieces) + "\"") == Concat(sp.pieces) + "\"";
    }
  }

  lemma FirstPiece(s: string, i: nat) returns (piece: string, c: char)
    requires StrBody(s, i).Good? && At(s, i) != '\"'
    ensures piece != "" && Spells(piece, c) && HasAt(s, i, piece)
    ensures StrBody(s, i) == Cons(c, StrBody(s, i + |piece|)) && StrBody(s, i + |piece|).Good?
  {
    if At(s, i) != '\\' {
      piece, c := s[i..i + 1], s[i];
    } else if At(s, i + 1) == 'u' {
      assert IsHex(At(s, i + 5));
      piece, c := s[i..i + 6], '?';
      forall k | 2 <= k < 6 ensures IsHex(piece[k]) {
        assert IsHex(At(s, i + k));
      }
    } else {
      piece, c := s[i..i + 2], Escape(At(s, i + 1));
      assert piece == ['\\', s[i + 1]];
    }
  }

  lemma {:induction false} DigitsTo(s: string, i: nat)
    requires GoNum(s, i) != -1
    ensures AllDigits(s[i..GoNum(s, i)])
  {
  }

  lemma FractionTo(s: string, j: nat)
    requires j <= |s| && FracEnd(s, j) != -1
    ensures j <= FracEnd(s, j) <= |s| && IsFraction(s[j..FracEnd(s, j)])
  {
    var k := FracEnd(s, j);
    if k > j {
      DigitsTo(s, j + 2);
      assert s[j..k][1..] == [s[j + 1]] + s[j + 2..k];
    }
  }

  lemma ExponentTo(s: string, k: nat)
    requires k <= |s| && ExpEnd(s, k) != -1
    ensures k <= ExpEnd(s, k) <= |s| && IsExponent(s[k..ExpEnd(s, k)])
  {
    var m := ExpEnd(s, k);
    if m > k {
      var d := if At(s, k + 1) == '-' || At(s, k + 1) == '+' then k + 2 else k + 1;
      DigitsTo(s, d + 1);
      var e := s[k..m];
      assert e[d - k..] == [s[d]] + s[d + 1..m];
    }
  }

  lemma NumberCut(s: string, i: nat) returns (a: string, f: string, e: string)
    requires Number(s, i).Good?
    ensures IsInteger(a) && IsFraction(f) && IsExponent(e) && HasAt(s, i, a + f + e)
    ensures var x := Number(s, i).value;
      x.text == a + f + e && x.kind == (if f + e == "" then INTEGER else REAL)
      && (x.kind == INTEGER ==> -MAX64 - 1 <= IntValue(x.text) <= MAX64)
    ensures var end := i + |a + f + e|; EndsPrimitive(At(s, end)) && Number(s, i).next == PassEnd(s, end)
  {
    hide IsFraction, IsExponent, IntEnd, FracEnd, ExpEnd, IntValue, IsInteger, EndsPrimitive, PassEnd;
    var j := IntEnd(s, if At(s, i) == '-' then i + 1 else i);
    JsonLex.IntLexeme(s, i, j);
    var k := FracEnd(s, j);
    FractionTo(s, j);
    var m := ExpEnd(s, k);
    ExponentTo(s, k);
    a, f, e := s[i..j], s[j..k], s[k..m];
    assert s[i..m] == a + f + e;
  }

  /** A number that is accepted is a numeral of RFC 8259 section 6, in range if an integer, and ends there. */
  lemma NumberIsNumeral(s: string, i: nat)
    requires Number(s, i).Good?
    ensures var x := Number(s, i).value; var end := i + |x.text|;
      && (x.kind == INTEGER || x.kind == REAL) && GoodPlain(x.kind, x.text) && HasAt(s, i, x.text)
      && EndsPrimitive(At(s, end)) && Number(s, i).next == PassEnd(s, end)
  {
    hide Number, IsFraction, IsExponent, IntValue, IsInteger, EndsPrimitive, PassEnd, HasAt;
    var a, f, e := NumberCut(s, i);
    if f + e == "" {
      assert f == "" && e == "" && a + f + e == a;
    }
  }

  lemma LiteralIs(s: string, i: nat, kind: Kind, w: string)
    requires w != "" && Literal(s, i, kind, w).Good?
    ensures HasAt(s, i, w) && EndsPrimitive(At(s, i + |w|)) && Literal(s, i, kind, w) == Good(Lexeme(kind, w), PassEnd(s, i + |w|))
  {
  }

  // ---- values, members and elements

  // The body stands at i, means value, and reading goes on at next.
  ghost predicate Stands(s: string, i: nat, body: Body, next: nat) {
    var end := i + |PrintBody(body)|;
    GoodBody(body) && HasAt(s, i, PrintBody(body)) && MayFollow(s, body, end) && next == Behind(s, body, end)
  }

  lemma LeafIsWritten(s: string, i: nat) returns (body: Body)
    requires LeafAt(s, i).Good?
    ensures !body.Kids? && Stands(s, i, body, LeafAt(s, i).next)
    ensures var x := LeafAt(s, i).value; BodyTree(None, body) == Leaf(None, x.kind, x.text)
  {
    hide StrBody, Number, Literal, GoodSpelling, Concat, HasAt;
    match At(s, i)
    case '\"' =>
      var sp := TextIsSpelled(s, i + 1);
      body := Quoted(sp);
      HasSlice(s, i, i + 1);
      HasJoin(s, i, s[i..i + 1], Concat(sp.pieces) + "\"");
      assert Quote(sp) == s[i..i + 1] + (Concat(sp.pieces) + "\"");
    case 't' =>
      LiteralIs(s, i, BOOLEAN, "true");
      body := Plain(BOOLEAN, "true");
    case 'f' =>
      LiteralIs(s, i, BOOLEAN, "false");
      body := Plain(BOOLEAN, "false");
    case 'n' =>
      LiteralIs(s, i, NOTHING, "null");
      body := Plain(NOTHING, "null");
    case _ =>
      NumberIsNumeral(s, i);
      body := Plain(Number(s, i).value.kind, Number(s, i).value.text);
  }

  lemma {:induction false} BlanksTo(s: string, i: nat)
    requires GoBlank(s, i) != -1
    ensures Blanks(s[i..GoBlank(s, i)])
    decreases |s| - i
  {
    var j := GoBlank(s, i);
    if i < j {
      BlanksTo(s, i + 1);
      assert s[i..j] == [s[i]] + s[i + 1..j];
    }
  }

  lemma NameIsWritten(s: string, i: nat) returns (tag: Tag)
    requires NameAt(s, i).Good?
    ensures GoodTag(tag, false) && HasAt(s, i, PrintTag(tag))
    ensures NameOf(tag) == Some(NameAt(s, i).value) && NameAt(s, i).next == i + |PrintTag(tag)|
  {
    hide StrBody, GoBlank, GoodSpelling, Concat, HasAt, Blanks;
    var sp := TextIsSpelled(s, i + 1);
    var n := StrBody(s, i + 1).next;
    var colon := GoBlank(s, n);
    var v := GoBlank(s, colon + 1);
    BlanksTo(s, n);
    BlanksTo(s, colon + 1);
    tag := Tag(sp, s[n..colon], s[colon + 1..v]);
    var body := Concat(sp.pieces) + "\"";
    HasSlice(s, i, i + 1);
    HasJoin(s, i, s[i..i + 1], body);
    assert Quote(sp) == s[i..i + 1] + body;
    HasSlice(s, n, colon);
    HasJoin(s, i, Quote(sp), s[n..colon]);
    HasSlice(s, colon, colon + 1);
    assert s[colon..colon + 1] == ":";
    HasJoin(s, i, Quote(sp) + tag.before, ":");
    HasSlice(s, colon + 1, v);
    HasJoin(s, i, Quote(sp) + tag.before + ":", tag.after);
  }

  // Members or elements stand at i up to their bracket.
  ghost predicate KidsStand(s: string, i: nat, kids: seq<Doc>, end: string, isArray: bool, next: nat) {
    && GoodDocs(kids, isArray) && Filler(end) && HasAt(s, i, PrintDocs(kids) + end + [Closer(isArray)])
    && next == i + |PrintDocs(kids)| + |end| + 1
  }

  // Something read past, put in front of what follows.
  lemma Preceded(s: string, i: nat, w: string, kids: seq<Doc>, end: string, isArray: bool, next: nat)
      returns (kids': seq<Doc>, end': string)
    requires Filler(w) && HasAt(s, i, w) && KidsStand(s, i + |w|, kids, end, isArray, next)
    ensures KidsStand(s, i, kids', end', isArray, next) && Trees(kids') == Trees(kids)
    ensures w != "" && kids' != [] ==> kids'[0].fill != ""
  {
    hide HasAt, PrintDoc, GoodTag, GoodBody, TreeOf;
    var close := [Closer(isArray)];
    HasJoin(s, i, w, PrintDocs(kids) + end + close);
    if kids == [] {
      kids', end' := [], w + end;
      assert w + (PrintDocs(kids) + end + close) == PrintDocs(kids') + end' + close;
    } else {
      var d := kids[0].(fill := w + kids[0].fill);
      kids', end' := [d] + kids[1..], end;
      assert kids'[1..] == kids[1..];
      SameDoc(kids[0], d);
      assert PrintDocs(kids') == w + PrintDocs(kids);
      assert w + (PrintDocs(kids) + end + close) == PrintDocs(kids') + end' + close;
    }
  }

  lemma SameDoc(d: Doc, d': Doc)
    requires d' == d.(fill := d'.fill)
    ensures PrintDoc(d') == PrintDoc(d) && TreeOf(d') == TreeOf(d)
  {
  }

  lemma {:induction false} ValueIsWritten(s: string, i: nat, name: Option<string>) returns (body: Body)
    requires ValueAt(s, i, name).Good?
    ensures var r := ValueAt(s, i, name); Stands(s, i, body, r.next) && BodyTree(name, body) == r.value
    ensures body.Kids? <==> At(s, i) == '{' || At(s, i) == '['
    ensures body.Kids? ==> (body.isArray <==> At(s, i) == '[')
    decreases |s| - i, 0
  {
    hide Items, LeafAt, HasAt, GoodDocs;
    if At(s, i) == '{' || At(s, i) == '[' {
      var isArray := At(s, i) == '[';
      var kids, end := ItemsAreWritten(s, i + 1, isArray);
      body := Kids(isArray, kids, end);
      HasSlice(s, i, i + 1);
      assert s[i..i + 1] == if isArray then "[" else "{";
      HasJoin(s, i, s[i..i + 1], PrintDocs(kids) + end + [Closer(isArray)]);
    } else {
      body := LeafIsWritten(s, i);
    }
  }

  lemma {:induction false} ItemIsWritten(s: string, i: nat, isArray: bool) returns (d: Doc)
    requires ItemAt(s, i, isArray).Good?
    ensures d.fill == "" && GoodTag(d.tag, isArray) && GoodBody(d.body) && HasAt(s, i, PrintDoc(d))
    ensures var r := ItemAt(s, i, isArray); var end := i + |PrintDoc(d)|;
      MayFollow(s, d.body, end) && r.next == Behind(s, d.body, end) && TreeOf(d) == r.value
    decreases |s| - i, 1
  {
    hide ValueAt, NameAt, HasAt, GoodBody, PrintBody, BodyTree, GoodTag, PrintTag;
    if isArray {
      var body := ValueIsWritten(s, i, None);
      d := Doc("", Untagged, body);
      NoTag();
      assert PrintDoc(d) == PrintBody(body);
    } else {
      var tag := NameIsWritten(s, i);
      var v := NameAt(s, i).next;
      var body := ValueIsWritten(s, v, Some(NameAt(s, i).value));
      d := Doc("", tag, body);
      HasJoin(s, i, PrintTag(tag), PrintBody(body));
    }
  }

  lemma NoTag()
    ensures GoodTag(Untagged, true) && PrintTag(Untagged) == ""
  {
  }

  // A bracket is no start of an item.
  lemma WrongBracket(s: string, e: nat, isArray: bool)
    requires IsBracket(At(s, e)) && At(s, e) != Closer(isArray)
    ensures Items(s, e, isArray) == Bad
  {
    assert GoBlank(s, e) == e;
    assert LeafAt(s, e) == Number(s, e) && IntEnd(s, e) == -1;
    assert ItemAt(s, e, isArray) == Bad;
  }

  lemma BracketCloses(s: string, e: nat, isArray: bool)
    requires IsBracket(At(s, e)) && Items(s, e, isArray).Good?
    ensures Items(s, e, isArray).value == []
  {
    if At(s, e) == Closer(isArray) {
      assert GoBlank(s, e) == e;
    } else {
      WrongBracket(s, e, isArray);
    }
  }

  // One item with what follows it.
  lemma Cons1(s: string, j: nat, d: Doc, kids: seq<Doc>, end: string, isArray: bool, next: nat)
    requires d.fill == "" && GoodTag(d.tag, isArray) && GoodBody(d.body) && HasAt(s, j, PrintDoc(d))
    requires KidsStand(s, j + |PrintDoc(d)|, kids, end, isArray, next)
    requires d.body.Plain? && kids != [] ==> kids[0].fill != ""
    ensures KidsStand(s, j, [d] + kids, end, isArray, next) && Trees([d] + kids) == [TreeOf(d)] + Trees(kids)
  {
    hide HasAt, PrintDoc, GoodTag, GoodBody, TreeOf;
    var all := [d] + kids;
    var rest := PrintDocs(kids) + end + [Closer(isArray)];
    assert all[1..] == kids;
    assert |all| > 1 ==> all[1] == kids[0];
    HasJoin(s, j, PrintDoc(d), rest);
    assert PrintDocs(all) == PrintDoc(d) + PrintDocs(kids);
    assert PrintDoc(d) + rest == PrintDocs(all) + end + [Closer(isArray)];
  }

  lemma BlanksFiller(w: string)
    requires Blanks(w)
    ensures Filler(w)
  {
  }

  /** What stands up to a closing bracket that is accepted may be written so, and means what was read. */
  lemma {:induction false} ItemsAreWritten(s: string, i: nat, isArray: bool) returns (kids: seq<Doc>, end: string)
    requires Items(s, i, isArray).Good?
    ensures KidsStand(s, i, kids, end, isArray, Items(s, i, isArray).next) && Trees(kids) == Items(s, i, isArray).value
    decreases |s| - i, 2
  {
    hide ItemAt, HasAt, KidsStand, Blanks, Filler, Items, GoBlank;
    var r := Items(s, i, isArray);
    var j := GoBlank(s, i);
    ItemsCases(s, i, isArray);
    BlanksTo(s, i);
    BlanksFiller(s[i..j]);
    HasSlice(s, i, j);
    if s[j] == ',' {
      kids, end := ItemsAreWritten(s, j + 1, isArray);
      HasSlice(s, i, j + 1);
      CommaFills(s, i, j);
      kids, end := Preceded(s, i, s[i..j + 1], kids, end, isArray, r.next);
    } else if s[j] == Closer(isArray) {
      kids, end := [], "";
      NothingStands(s, j, isArray);
      kids, end := Preceded(s, i, s[i..j], kids, end, isArray, r.next);
    } else {
      var item := ItemAt(s, j, isArray);
      var d := ItemIsWritten(s, j, isArray);
      var more, last := ItemsAreWritten(s, item.next, isArray);
      more, last := PassedBack(s, d.body, j + |PrintDoc(d)|, more, last, isArray, r.next);
      Cons1(s, j, d, more, last, isArray, r.next);
      kids, end := Preceded(s, i, s[i..j], [d] + more, last, isArray, r.next);
    }
  }

  // The three ways an accepted rest begins.
  lemma ItemsCases(s: string, i: nat, isArray: bool)
    requires Items(s, i, isArray).Good?
    ensures GoBlank(s, i) != -1
    ensures var r := Items(s, i, isArray); var j := GoBlank(s, i);
      if s[j] == ',' then r == Items(s, j + 1, isArray)
      else if s[j] == Closer(isArray) then r == Good([], j + 1)
      else
        && ItemAt(s, j, isArray).Good? && Items(s, ItemAt(s, j, isArray).next, isArray).Good?
        && var rest := Items(s, ItemAt(s, j, isArray).next, isArray);
           r == Good([ItemAt(s, j, isArray).value] + rest.value, rest.next)
  {
    hide ItemAt;
  }

  lemma CommaFills(s: string, i: nat, j: nat)
    requires i <= j < |s| && Blanks(s[i..j]) && s[j] == ','
    ensures Filler(s[i..j + 1])
  {
    assert s[i..j + 1] == s[i..j] + [s[j]];
  }

  lemma NothingStands(s: string, j: nat, isArray: bool)
    requires At(s, j) == Closer(isArray)
    ensures KidsStand(s, j, [], "", isArray, j + 1)
  {
    assert PrintDocs([]) + "" + [Closer(isArray)] == s[j..j + 1];
  }

  // The character passed behind a primitive belongs to what follows.
  lemma PassedBack(s: string, body: Body, e: nat, kids: seq<Doc>, end: string, isArray: bool, next: nat)
      returns (kids': seq<Doc>, end': string)
    requires MayFollow(s, body, e) && Items(s, Behind(s, body, e), isArray).Good? && Trees(kids) == Items(s, Behind(s, body, e), isArray).value
    requires KidsStand(s, Behind(s, body, e), kids, end, isArray, next)
    ensures KidsStand(s, e, kids', end', isArray, next) && Trees(kids') == Trees(kids)
    ensures body.Plain? && kids' != [] ==> kids'[0].fill != ""
  {
    hide Items, HasAt, KidsStand;
    kids', end' := kids, end;
    if body.Plain? {
      if IsBracket(At(s, e)) {
        BracketCloses(s, e, isArray);
        assert |kids| == 0;
      } else {
        HasSlice(s, e, e + 1);
        kids', end' := Preceded(s, e, s[e..e + 1], kids, end, isArray, next);
      }
    }
  }

  /** A whole text that parses: blanks, an object as it may be written, and anything behind it. */
  lemma Sound(s: string) returns (w: string, body: Body)
    requires Parse(s).Good?
    ensures Blanks(w) && GoodBody(body) && body.Kids? && !body.isArray && BodyTree(None, body) == Parse(s).value
    ensures Parse(s).next == |w + PrintBody(body)| <= |s| && s[..Parse(s).next] == w + PrintBody(body)
  {
    hide ValueAt, GoodBody, PrintBody, BodyTree, Blanks;
    var j := GoBlank(s, 0);
    BlanksTo(s, 0);
    body := ValueIsWritten(s, j, None);
    w := s[0..j];
    assert s[..Parse(s).next] == w + PrintBody(body);
  }

  ghost predicate IsText(s: string, w: string, body: Body) {
    && Blanks(w) && GoodBody(body) && body.Kids? && !body.isArray
    && |w + PrintBody(body)| <= |s| && s[..|w + PrintBody(body)|] == w + PrintBody(body)
  }

  /** So a text is accepted iff it starts with an object as it may be written; the tree is what that means,
      and what follows it is not looked at. */
  lemma ParsesIff(s: string)
    ensures Parse(s).Good? <==> exists w, body :: IsText(s, w, body)
    ensures forall w, body :: IsText(s, w, body) ==> Parse(s) == Good(BodyTree(None, body), |w + PrintBody(body)|)
  {
    hide Parse, GoodBody, PrintBody, BodyTree, Blanks;
    forall w, body | IsText(s, w, body) ensures Parse(s) == Good(BodyTree(None, body), |w + PrintBody(body)|) {
      var n := |w + PrintBody(body)|;
      Complete(w, body, s[n..]);
      assert w + PrintBody(body) + s[n..] == s;
    }
    if Parse(s).Good? {
      var w, body := Sound(s);
      assert IsText(s, w, body);
    }
  }
}
