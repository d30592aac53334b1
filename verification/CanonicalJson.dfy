/**
  The response cache's canonical request text: `canonicalJson`, and what a
  parsed body means once the order of object fields is forgotten.

  Strings are sequences of UTF-16 code units, as in the source's language. A
  parsed body is a tree whose objects keep their field order and have distinct
  names, as `JSON.parse` leaves them. A finite number is represented by the text
  `JSON.stringify` gives it, which the language makes different for different
  numbers (0 and -0 share one); a literal too large for a double is an infinity.
 */
module CanonicalJson {
  type unit = u: int | 0 <= u < 0x10000
  type text = seq<unit>

  datatype Json =
    | Null
    | Bool(b: bool)
    | Num(digits: text)
    | Infinite(negative: bool)
    | Str(s: text)
    | Arr(items: Items)
    | Obj(fields: Fields)

  datatype Items = NoItems | Item(head: Json, tail: Items)

  datatype Fields = NoFields | Field(name: text, value: Json, tail: Fields)

  // ---------------------------------------------------------------- JSON.stringify of scalars

  function HexDigit(n: int): unit
    requires 0 <= n < 16
  {
    if n < 10 then 48 + n else 87 + n
  }

  /** `\uXXXX` of a code unit, in lower case. */
  function UnicodeEscape(u: unit): text {
    [92, 117, HexDigit(u / 4096), HexDigit(u / 256 % 16), HexDigit(u / 16 % 16), HexDigit(u % 16)]
  }

  predicate HighSurrogate(u: unit) {
    0xD800 <= u < 0xDC00
  }

  predicate LowSurrogate(u: unit) {
    0xDC00 <= u < 0xE000
  }

  /** A unit that is not half of a surrogate pair: short escapes, `\uXXXX`, or the unit itself. */
  function EscapeUnit(u: unit): text {
    if u == 34 || u == 92 then [92, u]
    else if u == 8 then [92, 98]
    else if u == 9 then [92, 116]
    else if u == 10 then [92, 110]
    else if u == 12 then [92, 102]
    else if u == 13 then [92, 114]
    else if u < 32 || HighSurrogate(u) || LowSurrogate(u) then UnicodeEscape(u)
    else [u]
  }

  predicate StartsWithPair(s: text) {
    |s| >= 2 && HighSurrogate(s[0]) && LowSurrogate(s[1])
  }

  function EscapeAll(s: text): text
    decreases |s|
  {
    if s == [] then []
    else if StartsWithPair(s) then [s[0], s[1]] + EscapeAll(s[2..])
    else EscapeUnit(s[0]) + EscapeAll(s[1..])
  }

  /** `JSON.stringify` of a string. */
  function Quote(s: text): text {
    [34] + EscapeAll(s) + [34]
  }

  predicate NumberUnit(u: unit) {
    48 <= u <= 57 || u == 45 || u == 43 || u == 46 || u == 101
  }

  /** The shape of a finite number's text: it starts with a digit or a minus and holds digits, signs, point and e. */
  predicate NumberText(t: text) {
    t != [] && (48 <= t[0] <= 57 || t[0] == 45) && forall i :: 0 <= i < |t| ==> NumberUnit(t[i])
  }

  // ---------------------------------------------------------------- canonicalJson

  /** `left < right` on strings: the first differing code unit decides, a proper prefix comes first. */
  predicate Before(a: text, b: text)
    decreases |a|
  {
    if b == [] then false
    else if a == [] then true
    else if a[0] != b[0] then a[0] < b[0]
    else Before(a[1..], b[1..])
  }

  /** Inserts an entry before the first one whose name does not precede its own. */
  function InsertEntry(entry: (text, text), sorted: seq<(text, text)>): seq<(text, text)>
    decreases |sorted|
  {
    if sorted == [] || !Before(sorted[0].0, entry.0) then [entry] + sorted
    else [sorted[0]] + InsertEntry(entry, sorted[1..])
  }

  function SortEntries(entries: seq<(text, text)>): seq<(text, text)>
    decreases |entries|
  {
    if entries == [] then [] else InsertEntry(entries[0], SortEntries(entries[1..]))
  }

  /** `parts.join(",")`. */
  function Join(parts: seq<text>): text
    decreases |parts|
  {
    if parts == [] then [] else if |parts| == 1 then parts[0] else parts[0] + [44] + Join(parts[1..])
  }

  function EntryTexts(entries: seq<(text, text)>): seq<text>
    decreases |entries|
  {
    if entries == [] then [] else [Quote(entries[0].0) + [58] + entries[0].1] + EntryTexts(entries[1..])
  }

  const NULL_TEXT: text := [110, 117, 108, 108]
  const TRUE_TEXT: text := [116, 114, 117, 101]
  const FALSE_TEXT: text := [102, 97, 108, 115, 101]

  /** `canonicalJson`: fields sorted by name at every level, no whitespace, infinities as null. */
  function Canonical(v: Json): text {
    match v
    case Null => NULL_TEXT
    case Bool(b) => if b then TRUE_TEXT else FALSE_TEXT
    case Num(digits) => digits
    case Infinite(_) => NULL_TEXT
    case Str(s) => Quote(s)
    case Arr(items) => [91] + Join(CanonicalItems(items)) + [93]
    case Obj(fields) => [123] + Join(EntryTexts(SortEntries(CanonicalFields(fields)))) + [125]
  }

  function CanonicalItems(items: Items): seq<text> {
    match items
    case NoItems => []
    case Item(head, tail) => [Canonical(head)] + CanonicalItems(tail)
  }

  function CanonicalFields(fields: Fields): seq<(text, text)> {
    match fields
    case NoFields => []
    case Field(name, value, tail) => [(name, Canonical(value))] + CanonicalFields(tail)
  }

  // ---------------------------------------------------------------- what a body means

  /** A JSON value with the order of object fields forgotten. */
  datatype Meaning =
    | MNull
    | MBool(b: bool)
    | MNum(digits: text)
    | MInfinite(negative: bool)
    | MStr(s: text)
    | MArr(items: seq<Meaning>)
    | MObj(fields: map<text, Meaning>)

  function MeaningOf(v: Json): Meaning {
    match v
    case Null => MNull
    case Bool(b) => MBool(b)
    case Num(digits) => MNum(digits)
    case Infinite(negative) => MInfinite(negative)
    case Str(s) => MStr(s)
    case Arr(items) => MArr(ItemMeanings(items))
    case Obj(fields) => MObj(FieldMeanings(fields))
  }

  function ItemMeanings(items: Items): seq<Meaning> {
    match items
    case NoItems => []
    case Item(head, tail) => [MeaningOf(head)] + ItemMeanings(tail)
  }

  function FieldMeanings(fields: Fields): map<text, Meaning> {
    match fields
    case NoFields => map[]
    case Field(name, value, tail) => FieldMeanings(tail)[name := MeaningOf(value)]
  }

  function Names(fields: Fields): set<text> {
    match fields
    case NoFields => {}
    case Field(name, _, tail) => {name} + Names(tail)
  }

  /** Distinct field names and number texts of the right shape: what parsing produces. */
  predicate Parsed(v: Json) {
    match v
    case Num(digits) => NumberText(digits)
    case Arr(items) => ParsedItems(items)
    case Obj(fields) => ParsedFields(fields)
    case _ => true
  }

  predicate ParsedItems(items: Items) {
    match items
    case NoItems => true
    case Item(head, tail) => Parsed(head) && ParsedItems(tail)
  }

  predicate ParsedFields(fields: Fields) {
    match fields
    case NoFields => true
    case Field(name, value, tail) => name !in Names(tail) && Parsed(value) && ParsedFields(tail)
  }

  /** The body with every infinity replaced by null. */
  function Finite(v: Json): Json {
    match v
    case Infinite(_) => Null
    case Arr(items) => Arr(FiniteItems(items))
    case Obj(fields) => Obj(FiniteFields(fields))
    case _ => v
  }

  function FiniteItems(items: Items): Items {
    match items
    case NoItems => NoItems
    case Item(head, tail) => Item(Finite(head), FiniteItems(tail))
  }

  function FiniteFields(fields: Fields): Fields {
    match fields
    case NoFields => NoFields
    case Field(name, value, tail) => Field(name, Finite(value), FiniteFields(tail))
  }
}
