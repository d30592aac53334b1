/**
  JSON texts as byte strings, after sections 2 to 7 of RFC 8259: a concrete
  syntax tree that keeps every byte (whitespace, raw string contents, number
  tokens), the bytes it stands for, and when it is well formed.
 */
module JsonText {
  import opened Common

  datatype Value =
    | Literal(token: bytes)
    | Number(token: bytes)
    | Text(raw: bytes)
    | EmptyArray(pad: bytes)
    | Array(items: Items)
    | EmptyObject(pad: bytes)
    | Object(members: Members)

  datatype Items =
    | LastItem(before: bytes, value: Value, after: bytes)
    | MoreItems(before: bytes, value: Value, after: bytes, rest: Items)

  /** Everything of a member up to its value: whitespace, quoted name, whitespace, colon, whitespace. */
  datatype Name = Name(before: bytes, raw: bytes, beforeColon: bytes, afterColon: bytes)

  datatype Members =
    | LastMember(name: Name, value: Value, after: bytes)
    | MoreMembers(name: Name, value: Value, after: bytes, rest: Members)

  /** A JSON text: one value with surrounding whitespace. */
  datatype Document = Document(before: bytes, value: Value, after: bytes)

  // ---------------------------------------------------------------- bytes

  function Quoted(raw: bytes): bytes {
    [34] + raw + [34]
  }

  function NameBytes(name: Name): bytes {
    name.before + Quoted(name.raw) + name.beforeColon + [58] + name.afterColon
  }

  function ValueBytes(v: Value): bytes {
    match v
    case Literal(token) => token
    case Number(token) => token
    case Text(raw) => Quoted(raw)
    case EmptyArray(pad) => [91] + pad + [93]
    case Array(items) => [91] + ItemsBytes(items)
    case EmptyObject(pad) => [123] + pad + [125]
    case Object(members) => [123] + MembersBytes(members)
  }

  /** The elements, their separators and the closing bracket. */
  function ItemsBytes(items: Items): bytes {
    match items
    case LastItem(before, value, after) => before + ValueBytes(value) + after + [93]
    case MoreItems(before, value, after, rest) => before + ValueBytes(value) + after + [44] + ItemsBytes(rest)
  }

  /** The members, their separators and the closing brace. */
  function MembersBytes(members: Members): bytes {
    match members
    case LastMember(name, value, after) => NameBytes(name) + ValueBytes(value) + after + [125]
    case MoreMembers(name, value, after, rest) =>
      NameBytes(name) + ValueBytes(value) + after + [44] + MembersBytes(rest)
  }

  function DocumentBytes(d: Document): bytes {
    d.before + ValueBytes(d.value) + d.after
  }

  // ---------------------------------------------------------------- well-formedness

  /** ws of section 2. */
  predicate IsBlank(s: bytes) {
    forall b :: b in s ==> b == 9 || b == 10 || b == 13 || b == 32
  }

  predicate IsDigitByte(b: byte) {
    48 <= b <= 57
  }

  predicate AllDigits(s: bytes) {
    forall b :: b in s ==> IsDigitByte(b)
  }

  /** The literal names of section 3: false, null, true. */
  predicate IsLiteral(s: bytes) {
    s == [102, 97, 108, 115, 101] || s == [110, 117, 108, 108] || s == [116, 114, 117, 101]
  }

  /** How many leading bytes are digits. */
  function DigitPrefix(s: bytes): (n: nat)
    ensures n <= |s|
  {
    if s == [] || !IsDigitByte(s[0]) then 0 else 1 + DigitPrefix(s[1..])
  }

  /** exp of section 6, or nothing. */
  predicate IsExponent(s: bytes) {
    s == [] ||
    ((s[0] == 101 || s[0] == 69) && |s| > 1 &&
     var digits := if s[1] == 43 || s[1] == 45 then s[2..] else s[1..];
     digits != [] && AllDigits(digits))
  }

  /** [ frac ] [ exp ] of section 6. */
  predicate IsFraction(s: bytes) {
    if s != [] && s[0] == 46 then
      var n := DigitPrefix(s[1..]);
      n > 0 && IsExponent(s[1 + n..])
    else IsExponent(s)
  }

  /** number of section 6: [ minus ] int [ frac ] [ exp ], no leading zeros. */
  predicate IsNumber(s: bytes) {
    var unsigned := if s != [] && s[0] == 45 then s[1..] else s;
    var n := DigitPrefix(unsigned);
    n > 0 && (unsigned[0] == 48 ==> n == 1) && IsFraction(unsigned[n..])
  }

  predicate IsHexByte(b: byte) {
    IsDigitByte(b) || 65 <= b <= 70 || 97 <= b <= 102
  }

  /** The contents of a string, section 7; bytes from 128 on belong to multi-byte characters. */
  predicate IsStringBody(s: bytes)
    decreases |s|
  {
    s == [] ||
    if s[0] == 92 then
      |s| >= 2 &&
      if s[1] == 117 then
        |s| >= 6 && (forall k :: 2 <= k < 6 ==> IsHexByte(s[k])) && IsStringBody(s[6..])
      else
        s[1] in {34, 92, 47, 98, 102, 110, 114, 116} && IsStringBody(s[2..])
    else s[0] >= 32 && s[0] != 34 && IsStringBody(s[1..])
  }

  predicate WellFormedName(name: Name) {
    IsBlank(name.before) && IsStringBody(name.raw) && IsBlank(name.beforeColon) && IsBlank(name.afterColon)
  }

  predicate WellFormed(v: Value) {
    match v
    case Literal(token) => IsLiteral(token)
    case Number(token) => IsNumber(token)
    case Text(raw) => IsStringBody(raw)
    case EmptyArray(pad) => IsBlank(pad)
    case Array(items) => WellFormedItems(items)
    case EmptyObject(pad) => IsBlank(pad)
    case Object(members) => WellFormedMembers(members)
  }

  predicate WellFormedItems(items: Items) {
    && IsBlank(items.before) && WellFormed(items.value) && IsBlank(items.after)
    && (items.MoreItems? ==> WellFormedItems(items.rest))
  }

  predicate WellFormedMembers(members: Members) {
    && WellFormedName(members.name) && WellFormed(members.value) && IsBlank(members.after)
    && (members.MoreMembers? ==> WellFormedMembers(members.rest))
  }

  predicate WellFormedDocument(d: Document) {
    IsBlank(d.before) && WellFormed(d.value) && IsBlank(d.after)
  }

  // ---------------------------------------------------------------- the direct metadata.creditsUsed

  /** The bytes of an ASCII name written without escapes. */
  function Ascii(s: string): (r: bytes)
    requires forall i :: 0 <= i < |s| ==> s[i] as int < 128
    ensures |r| == |s| && forall i :: 0 <= i < |s| ==> r[i] as int == s[i] as int
  {
    seq(|s|, i requires 0 <= i < |s| => s[i] as int)
  }

  function DecimalFrom(acc: nat, token: bytes): nat
    requires AllDigits(token)
    decreases |token|
  {
    if token == [] then acc
    else
      assert token[0] in token;
      DecimalFrom(acc * 10 + (token[0] - 48), token[1..])
  }

  /** The number a token of digits denotes. */
  function Decimal(token: bytes): nat
    requires AllDigits(token)
  {
    DecimalFrom(0, token)
  }

  /** A plain digit token below 2^53; anything else does not count as a credit figure. */
  function PlainNumber(v: Value): Option<nat> {
    if v.Number? && AllDigits(v.token) && Decimal(v.token) < PowerOfTwo(53) then Some(Decimal(v.token)) else None
  }

  /** The first acceptable `creditsUsed` lying directly among these members. */
  function DirectCredits(members: Members): Option<nat> {
    if members.name.raw == Ascii("creditsUsed") && PlainNumber(members.value).Some? then PlainNumber(members.value)
    else if members.LastMember? then None
    else DirectCredits(members.rest)
  }

  /** The first one found in the `metadata` objects among these top-level members, in document order. */
  function MetadataCredits(members: Members): Option<nat> {
    var here :=
      if members.name.raw == Ascii("metadata") && members.value.Object? then DirectCredits(members.value.members)
      else None;
    if here.Some? || members.LastMember? then here else MetadataCredits(members.rest)
  }

  /** What the gateway wants from a response body. */
  function CreditsUsed(d: Document): Option<nat> {
    if d.value.Object? then MetadataCredits(d.value.members) else None
  }
}
