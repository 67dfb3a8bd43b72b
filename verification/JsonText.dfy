/** JSON as it is written: trees with every choice a writer has, and what may be written. RFC 8259 sections
    4 to 7, relaxed as src/tiny-json.c relaxes it: commas may stand anywhere between members and elements,
    in any number; form feed is blank. */
module JsonText {
  import opened CBase
  import opened JsonGrammar
  import opened JsonNumber

  // ---- strings

  /** A text with the spelling chosen for each of its characters. */
  datatype Spelled = Spelled(text: string, pieces: seq<string>)

  // The ways to write a character: as itself, by its short escape, or, for '?', by a code in hexadecimal.
  predicate Spells(piece: string, c: char) {
    || (piece == [c] && c >= ' ' && c != '\"' && c != '\\')
    || piece == ShortEscape(c)
    || (c == '?' && |piece| == 6 && piece[0] == '\\' && piece[1] == 'u' && forall k :: 2 <= k < 6 ==> IsHex(piece[k]))
  }

  // Section 7 of RFC 8259; "" where there is none.
  function ShortEscape(c: char): string {
    if c == '\"' then "\\\""
    else if c == '\\' then "\\\\"
    else if c == '/' then "\\/"
    else if c == '\U{8}' then "\\b"
    else if c == '\U{C}' then "\\f"
    else if c == '\n' then "\\n"
    else if c == '\r' then "\\r"
    else if c == '\t' then "\\t"
    else ""
  }

  predicate GoodSpelling(sp: Spelled) {
    |sp.pieces| == |sp.text| && forall k :: 0 <= k < |sp.text| ==> sp.pieces[k] != "" && Spells(sp.pieces[k], sp.text[k])
  }

  function Concat(pieces: seq<string>): string {
    if pieces == [] then "" else pieces[0] + Concat(pieces[1..])
  }

  function Quote(sp: Spelled): string {
    "\"" + Concat(sp.pieces) + "\""
  }

  // ---- trees as they are written

  // A member's name, with the blanks before and behind its colon.
  datatype Tag = Untagged | Tag(name: Spelled, before: string, after: string)

  /** fill stands before a member or element, end before the closing bracket. */
  datatype Doc = Doc(fill: string, tag: Tag, body: Body)
  datatype Body = Plain(kind: Kind, text: string) | Quoted(sp: Spelled) | Kids(isArray: bool, kids: seq<Doc>, end: string)

  function PrintTag(tag: Tag): string {
    if tag.Untagged? then "" else Quote(tag.name) + tag.before + ":" + tag.after
  }

  function PrintBody(body: Body): string
    decreases body, 0
  {
    match body
    case Plain(_, text) => text
    case Quoted(sp) => Quote(sp)
    case Kids(isArray, kids, end) => (if isArray then "[" else "{") + (PrintDocs(kids) + end + [Closer(isArray)])
  }

  function PrintDoc(d: Doc): string
    decreases d, 1
  {
    PrintTag(d.tag) + PrintBody(d.body)
  }

  function PrintDocs(kids: seq<Doc>): string
    decreases kids, 0
  {
    if kids == [] then "" else kids[0].fill + PrintDoc(kids[0]) + PrintDocs(kids[1..])
  }

  // ---- what is meant

  function NameOf(tag: Tag): Option<string> {
    if tag.Untagged? then None else Some(tag.name.text)
  }

  function TreeOf(d: Doc): Tree
    decreases d, 1
  {
    BodyTree(NameOf(d.tag), d.body)
  }

  function BodyTree(name: Option<string>, body: Body): Tree
    decreases body, 0
  {
    match body
    case Plain(kind, text) => Leaf(name, kind, text)
    case Quoted(sp) => Leaf(name, TEXT, sp.text)
    case Kids(isArray, kids, _) => Branch(name, isArray, Trees(kids))
  }

  function Trees(kids: seq<Doc>): (ts: seq<Tree>)
    ensures |ts| == |kids|
    decreases kids, 0
  {
    if kids == [] then [] else [TreeOf(kids[0])] + Trees(kids[1..])
  }

  // ---- what may be written

  predicate Blanks(w: string) {
    forall k :: 0 <= k < |w| ==> w[k] in " \n\r\t\U{C}"
  }

  predicate Filler(w: string) {
    forall k :: 0 <= k < |w| ==> w[k] in " \n\r\t\U{C},"
  }

  predicate IsFraction(f: string) {
    f == "" || (|f| >= 2 && f[0] == '.' && AllDigits(f[1..]))
  }

  predicate IsExponent(e: string) {
    e == "" || (|e| >= 2 && (e[0] == 'e' || e[0] == 'E')
                && var d := if e[1] == '-' || e[1] == '+' then e[2..] else e[1..]; d != "" && AllDigits(d))
  }

  // The three parts of a number, as in section 6 of RFC 8259.
  ghost predicate IsReal(text: string) {
    exists a, f, e :: text == a + f + e && IsInteger(a) && IsFraction(f) && IsExponent(e) && f + e != ""
  }

  ghost predicate GoodPlain(kind: Kind, text: string) {
    match kind
    case TEXT => false
    case BOOLEAN => text == "true" || text == "false"
    case NOTHING => text == "null"
    case INTEGER => IsInteger(text) && -MAX64 - 1 <= IntValue(text) <= MAX64
    case REAL => IsReal(text)
  }

  predicate GoodTag(tag: Tag, inArray: bool) {
    && (tag.Untagged? <==> inArray)
    && (tag.Tag? ==> GoodSpelling(tag.name) && Blanks(tag.before) && Blanks(tag.after))
  }

  ghost predicate GoodBody(body: Body)
    decreases body, 0
  {
    match body
    case Plain(kind, text) => GoodPlain(kind, text)
    case Quoted(sp) => GoodSpelling(sp)
    case Kids(isArray, kids, end) => GoodDocs(kids, isArray) && Filler(end)
  }

  /** Members of objects are named, elements of arrays are not; something must stand behind a literal or a
      number, unless it is the last. */
  ghost predicate GoodDocs(kids: seq<Doc>, isArray: bool)
    decreases kids, 0
  {
    kids == [] ||
    (&& Filler(kids[0].fill) && GoodTag(kids[0].tag, isArray) && GoodBody(kids[0].body) && GoodDocs(kids[1..], isArray)
     && (kids[0].body.Plain? && |kids| > 1 ==> kids[1].fill != ""))
  }
}
