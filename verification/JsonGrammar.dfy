/** The JSON dialect of src/tiny-json.c as an ordinary recursive parser over the text: the reference
    that the pointer loop is proved against. RFC 8259 sections 4 to 7, relaxed: commas are skipped
    freely, form feed is blank, and a \u escape stands for '?'. A C char is modelled by a char. */
module JsonGrammar {
  import opened CBase

  datatype Kind = TEXT | BOOLEAN | INTEGER | REAL | NOTHING

  /** A JSON value with the name it has in its object, if any. Leaves keep their text: unescaped for
      TEXT, the lexeme otherwise. */
  datatype Tree =
    | Leaf(name: Option<string>, kind: Kind, text: string)
    | Branch(name: Option<string>, isArray: bool, kids: seq<Tree>)

  // The character at i of a C string, its terminator included.
  function At(s: string, i: nat): char {
    if i < |s| then s[i] else NUL
  }

  predicate IsBlank(c: char) { c in " \n\r\t\U{C}" }

  predicate IsHex(c: char) { IsDigit(c) || 'a' <= c <= 'f' || 'A' <= c <= 'F' }

  predicate IsBracket(c: char) { c == '}' || c == ']' }

  // src/tiny-json.c:461-463
  predicate EndsPrimitive(c: char) { c == ',' || IsBlank(c) || IsBracket(c) }

  function Closer(isArray: bool): char { if isArray then ']' else '}' }

  // First character from i on that is no blank (resp. no digit); -1 if the text ends first.
  function GoBlank(s: string, i: nat): (j: int)
    ensures j == -1 || (i <= j < |s| && s[j] != NUL && !IsBlank(s[j]))
    decreases |s| - i
  {
    if At(s, i) == NUL then -1 else if !IsBlank(s[i]) then i else GoBlank(s, i + 1)
  }

  function GoNum(s: string, i: nat): (j: int)
    ensures j == -1 || (i <= j < |s| && s[j] != NUL && !IsDigit(s[j]))
    ensures j != -1 ==> forall k :: i <= k < j ==> IsDigit(s[k])
    decreases |s| - i
  {
    if At(s, i) == NUL then -1 else if !IsDigit(s[i]) then i else GoNum(s, i + 1)
  }

  datatype Parsed<+T> = Bad | Good(value: T, next: nat)

  datatype Lexeme = Lexeme(kind: Kind, text: string)

  // src/tiny-json.c:99-111
  function Escape(c: char): char {
    match c
    case '\"' => '\"'
    case '\\' => '\\'
    case '/' => '/'
    case 'b' => '\U{8}'
    case 'f' => '\U{C}'
    case 'n' => '\n'
    case 'r' => '\r'
    case 't' => '\t'
    case _ => NUL
  }

  predicate HexFour(s: string, i: nat) {
    forall k :: i <= k < i + 4 ==> IsHex(At(s, k))
  }

  // The text of a string whose opening quote is just before i; next is behind the closing quote.
  function StrBody(s: string, i: nat): (r: Parsed<string>)
    ensures r.Good? ==> i + |r.value| < r.next <= |s|
    decreases |s| - i
  {
    var c := At(s, i);
    if c < ' ' then Bad
    else if c == '\"' then Good("", i + 1)
    else if c != '\\' then Cons(c, StrBody(s, i + 1))
    else if At(s, i + 1) == 'u' then
      if HexFour(s, i + 2) then assert IsHex(At(s, i + 5)); Cons('?', StrBody(s, i + 6)) else Bad
    else if Escape(At(s, i + 1)) == NUL then Bad
    else Cons(Escape(At(s, i + 1)), StrBody(s, i + 2))
  }

  function Cons(c: char, r: Parsed<string>): Parsed<string> {
    if r.Bad? then Bad else Good([c] + r.value, r.next)
  }

  // After a primitive: a bracket is left to be read, any other end character is passed.
  function PassEnd(s: string, i: nat): nat {
    if IsBracket(At(s, i)) then i else i + 1
  }

  predicate HasAt(s: string, i: nat, w: string) {
    i + |w| <= |s| && s[i..i + |w|] == w
  }

  function Literal(s: string, i: nat, kind: Kind, w: string): (r: Parsed<Lexeme>)
    requires w != ""
    ensures r.Good? ==> i < r.next <= |s|
  {
    if HasAt(s, i, w) && EndsPrimitive(At(s, i + |w|)) then Good(Lexeme(kind, w), PassEnd(s, i + |w|)) else Bad
  }

  /** The value of a string of decimal digits. */
  function Val(d: string): nat {
    if d == "" then 0 else 10 * Val(d[..|d| - 1]) + Digit(d[|d| - 1])
  }

  function Digit(c: char): nat {
    if IsDigit(c) then (c as int) - ('0' as int) else 0
  }

  function IntValue(lexeme: string): int {
    if lexeme != "" && lexeme[0] == '-' then 0 - Val(lexeme[1..]) else Val(lexeme)
  }

  const MAX64: int := 9223372036854775807

  // Integer part, from its first digit: end of the digits, or -1.
  function IntEnd(s: string, i: nat): (j: int)
    ensures j == -1 || i < j <= |s|
  {
    if !IsDigit(At(s, i)) then -1
    else if s[i] != '0' then GoNum(s, i)
    else if IsDigit(At(s, i + 1)) then -1 else i + 1
  }

  function FracEnd(s: string, i: nat): (j: int)
    ensures j == -1 || i <= j <= |s| || i > |s|
  {
    if At(s, i) != '.' then i
    else if !IsDigit(At(s, i + 1)) then -1 else GoNum(s, i + 2)
  }

  function ExpEnd(s: string, i: nat): (j: int)
    ensures j == -1 || i <= j <= |s| || i > |s|
  {
    if At(s, i) != 'e' && At(s, i) != 'E' then i
    else
      var k := if At(s, i + 1) == '-' || At(s, i + 1) == '+' then i + 2 else i + 1;
      if !IsDigit(At(s, k)) then -1 else GoNum(s, k + 1)
  }

  // The number that starts at i. An integer must fit 64 bits; nothing else is evaluated.
  function Number(s: string, i: nat): (r: Parsed<Lexeme>)
    ensures r.Good? ==> i < r.next <= |s|
  {
    var j := IntEnd(s, if At(s, i) == '-' then i + 1 else i);
    if j == -1 then Bad else
    var k := FracEnd(s, j);
    if k == -1 then Bad else
    var m := ExpEnd(s, k);
    if m == -1 || !EndsPrimitive(At(s, m)) then Bad else
    var lexeme := s[i..m];
    if m > j then Good(Lexeme(REAL, lexeme), PassEnd(s, m))
    else if -MAX64 - 1 <= IntValue(lexeme) <= MAX64 then Good(Lexeme(INTEGER, lexeme), PassEnd(s, m))
    else Bad
  }

  function LeafAt(s: string, i: nat): (r: Parsed<Lexeme>)
    ensures r.Good? ==> i < r.next <= |s|
  {
    match At(s, i)
    case '\"' => (match StrBody(s, i + 1) case Bad => Bad case Good(t, n) => Good(Lexeme(TEXT, t), n))
    case 't' => Literal(s, i, BOOLEAN, "true")
    case 'f' => Literal(s, i, BOOLEAN, "false")
    case 'n' => Literal(s, i, NOTHING, "null")
    case _ => Number(s, i)
  }

  // A property's name; next is where its value starts (src/tiny-json.c:161-169).
  function NameAt(s: string, i: nat): (r: Parsed<string>)
    ensures r.Good? ==> i < r.next < |s|
  {
    if At(s, i) != '\"' then Bad else
    var n := StrBody(s, i + 1);
    if n.Bad? then Bad else
    var colon := GoBlank(s, n.next);
    if colon == -1 || s[colon] != ':' then Bad else
    var v := GoBlank(s, colon + 1);
    if v == -1 then Bad else Good(n.value, v)
  }

  // The value at i.
  function ValueAt(s: string, i: nat, name: Option<string>): (r: Parsed<Tree>)
    ensures r.Good? ==> i < r.next <= |s|
    decreases |s| - i, 0
  {
    if At(s, i) == '{' || At(s, i) == '[' then
      var isArray := At(s, i) == '[';
      match Items(s, i + 1, isArray) case Bad => Bad case Good(kids, n) => Good(Branch(name, isArray, kids), n)
    else match LeafAt(s, i) case Bad => Bad case Good(x, n) => Good(Leaf(name, x.kind, x.text), n)
  }

  // One member of an object, or one element of an array, at its first character.
  function ItemAt(s: string, i: nat, isArray: bool): (r: Parsed<Tree>)
    ensures r.Good? ==> i < r.next <= |s|
    decreases |s| - i, 1
  {
    if isArray then ValueAt(s, i, None)
    else match NameAt(s, i) case Bad => Bad case Good(name, v) => ValueAt(s, v, Some(name))
  }

  // The members or elements from i to the closing bracket, which is passed.
  function Items(s: string, i: nat, isArray: bool): (r: Parsed<seq<Tree>>)
    ensures r.Good? ==> i < r.next <= |s|
    decreases |s| - i, 2
  {
    var j := GoBlank(s, i);
    if j == -1 then Bad
    else if s[j] == ',' then Items(s, j + 1, isArray)
    else if s[j] == Closer(isArray) then Good([], j + 1)
    else
      var item := ItemAt(s, j, isArray);
      if item.Bad? then Bad else
      var rest := Items(s, item.next, isArray);
      if rest.Bad? then Bad else Good([item.value] + rest.value, rest.next)
  }

  /** A whole text: one object, behind blanks; what follows it is not looked at. */
  function Parse(s: string): (r: Parsed<Tree>)
    ensures r.Good? ==> r.next <= |s|
  {
    var j := GoBlank(s, 0);
    if j == -1 || s[j] != '{' then Bad else ValueAt(s, j, None)
  }
}
