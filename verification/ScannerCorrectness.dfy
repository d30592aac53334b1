/**
  The scanner computes `CreditsUsed` of every well-formed JSON text, for any
  whitespace and any split into chunks. The proof follows the syntax tree.
 */
module ScannerCorrectness {
  import opened Common
  import opened ScannerSpec
  import opened JsonText
  import Scanner

  /**
    Nothing reported, depths and metadata mark as given. The scanner's
    metadata mark, when set, is always object depth 2 and array depth 0.
   */
  predicate Calm(s: State, o: nat, a: nat, marked: bool) {
    && !s.found && s.emitted == [] && !s.escaped
    && s.objectDepth == o && s.arrayDepth == a
    && s.metaObject == (if marked then Some(2) else None)
    && s.metaArray == (if marked then Some(0) else None)
  }

  predicate Ready(s: State, o: nat, a: nat, marked: bool) {
    Calm(s, o, a, marked) && s.mode == Outside
  }

  /** After a value: outside, or after a string that may still turn out to be a name. */
  predicate Settled(s: State, o: nat, a: nat, marked: bool) {
    Calm(s, o, a, marked) && (s.mode == Outside || s.mode == AfterKey)
  }

  predicate Inert(b: byte) {
    b != QUOTE && b != OPEN_BRACKET && b != CLOSE_BRACKET && b != OPEN_BRACE && b != CLOSE_BRACE
  }

  lemma {:induction false} RunInert(s: State, input: bytes)
    requires s.mode == Outside && !s.found
    requires forall b :: b in input ==> Inert(b)
    ensures Run(s, input) == s
    decreases |input|
  {
    if input != [] {
      assert input[0] in input && forall b :: b in input[1..] ==> b in input;
      assert Step(s, input[0]) == s;
      RunInert(s, input[1..]);
    }
  }

  lemma {:induction false} RunBlank(s: State, input: bytes)
    requires IsBlank(input) && !s.found
    requires s.mode in {Outside, AfterKey, AfterColon, AfterDigits}
    ensures Run(s, input) == s
    decreases |input|
  {
    if input != [] {
      assert input[0] in input && forall b :: b in input[1..] ==> b in input;
      assert Step(s, input[0]) == s;
      RunBlank(s, input[1..]);
    }
  }

  lemma Run3(s: State, a: bytes, b: bytes, c: bytes)
    ensures Run(s, a + b + c) == Run(Run(Run(s, a), b), c)
  {
    RunAppend(s, a + b, c);
    RunAppend(s, a, b);
  }

  lemma Run4(s: State, a: bytes, b: bytes, c: bytes, d: bytes)
    ensures Run(s, a + b + c + d) == Run(Run(Run(Run(s, a), b), c), d)
  {
    RunAppend(s, a + b + c, d);
    Run3(s, a, b, c);
  }

  lemma RunComma(s: State, o: nat, a: nat, marked: bool)
    requires Settled(s, o, a, marked)
    ensures Ready(Run(s, [44]), o, a, marked)
  {
    RunOne(s, 44);
  }

  lemma RunCloseBracket(s: State, o: nat, a: nat, marked: bool)
    requires Settled(s, o, a, marked) && a >= 1
    ensures Ready(Run(s, [93]), o, a - 1, marked)
  {
    RunOne(s, 93);
  }

  /** Closing object depth 2 also ends the metadata object. */
  lemma RunCloseBrace(s: State, o: nat, a: nat, marked: bool)
    requires Settled(s, o, a, marked) && o >= 1
    ensures Ready(Run(s, [125]), o - 1, a, marked && o != 2)
  {
    RunOne(s, 125);
  }

  lemma RunOpenBracket(s: State, o: nat, a: nat, marked: bool)
    requires Calm(s, o, a, marked) && (s.mode == Outside || s.mode == AfterColon)
    ensures Ready(Run(s, [91]), o, a + 1, marked)
  {
    RunOne(s, 91);
  }

  lemma RunOpenBrace(s: State, o: nat, a: nat, marked: bool)
    requires Calm(s, o, a, marked) && (s.mode == Outside || s.mode == AfterColon)
    ensures if s.mode == AfterColon && s.pendingKey == Some(METADATA_KEY) && o == 1 && a == 0
            then Ready(Run(s, [123]), 2, 0, true)
            else Ready(Run(s, [123]), o + 1, a, marked)
  {
    RunOne(s, 123);
  }

  // ---------------------------------------------------------------- strings and names

  lemma {:induction false} RunStringBody(s: State, raw: bytes)
    requires IsStringBody(raw)
    requires s.mode == InString && !s.escaped && !s.found
    ensures var t := Run(s, raw);
            t == s.(candidate := t.candidate, hasEscape := s.hasEscape || BACKSLASH in raw)
    ensures BACKSLASH !in raw ==> Run(s, raw).candidate == RememberAll(s.candidate, raw)
    decreases |raw|
  {
    if raw == [] {
    } else if raw[0] == 92 && raw[1] == 117 {
      assert raw == raw[..2] + raw[2..6] + raw[6..];
      Run3(s, raw[..2], raw[2..6], raw[6..]);
      EscapePair(s, raw[..2]);
      var t := Run(s, raw[..2]);
      assert forall k :: 0 <= k < 4 ==> raw[2..6][k] == raw[k + 2] && IsHexByte(raw[k + 2]);
      RunPlainString(t, raw[2..6]);
      RunStringBody(Run(t, raw[2..6]), raw[6..]);
    } else if raw[0] == 92 {
      assert raw == raw[..2] + raw[2..];
      RunAppend(s, raw[..2], raw[2..]);
      EscapePair(s, raw[..2]);
      RunStringBody(Run(s, raw[..2]), raw[2..]);
    } else {
      assert (BACKSLASH in raw) == (BACKSLASH in raw[1..]);
      RunStringBody(Step(s, raw[0]), raw[1..]);
    }
  }

  lemma EscapePair(s: State, pair: bytes)
    requires |pair| == 2 && pair[0] == BACKSLASH
    requires s.mode == InString && !s.escaped && !s.found
    ensures Run(s, pair) == s.(hasEscape := true)
  {
    assert pair == [pair[0]] + [pair[1]];
    RunAppend(s, [pair[0]], [pair[1]]);
    RunOne(s, pair[0]);
    RunOne(Step(s, pair[0]), pair[1]);
  }

  /** A quoted string read from outside leaves its unescaped contents as the pending name. */
  lemma RunQuoted(s: State, raw: bytes, o: nat, a: nat, marked: bool)
    requires Ready(s, o, a, marked) && IsStringBody(raw)
    ensures Calm(Run(s, Quoted(raw)), o, a, marked) && Run(s, Quoted(raw)).mode == AfterKey
    ensures Run(s, Quoted(raw)).pendingKey == if BACKSLASH in raw then None else Some(RememberAll("", raw))
  {
    Run3(s, [34], raw, [34]);
    RunOne(s, 34);
    var t := Step(s, 34);
    RunStringBody(t, raw);
    RunOne(Run(t, raw), 34);
  }

  /** A printable name without backslashes, short enough for the scanner to remember whole. */
  predicate Plain(k: string) {
    |k| <= MAX_SCANNED_KEY_LENGTH && forall i :: 0 <= i < |k| ==> 32 <= k[i] as int <= 126 && k[i] != '\\'
  }

  /** The capped, printable-only candidate still identifies a plain name exactly. */
  lemma {:induction false} RememberIdentifies(c: string, raw: bytes, k: string)
    requires Plain(k) && BACKSLASH !in raw
    ensures RememberAll(c, raw) == k <==> |c| <= |k| && c == k[..|c|] && raw == Ascii(k[|c|..])
    decreases |raw|
  {
    if raw == [] {
    } else if |c| > MAX_SCANNED_KEY_LENGTH {
      RememberFull(c, raw);
    } else {
      var b := raw[0];
      assert b in raw && forall x :: x in raw[1..] ==> x in raw;
      var d := Remember(c, b);
      RememberIdentifies(d, raw[1..], k);
      OneMoreUnit(c, raw, k);
    }
  }

  /** A candidate and the rest spell the name exactly when they still do after one more byte. */
  lemma OneMoreUnit(c: string, raw: bytes, k: string)
    requires Plain(k) && raw != [] && BACKSLASH !in raw && |c| <= MAX_SCANNED_KEY_LENGTH
    ensures var d := Remember(c, raw[0]);
            |d| <= |k| && d == k[..|d|] && raw[1..] == Ascii(k[|d|..]) <==>
            |c| <= |k| && c == k[..|c|] && raw == Ascii(k[|c|..])
  {
    var d := Remember(c, raw[0]);
    if |d| <= |k| && d == k[..|d|] && raw[1..] == Ascii(k[|d|..]) {
      assert d[|c|] == k[|c|];
      assert c == k[..|c|];
      assert raw == Ascii(k[|c|..]);
    }
    if |c| <= |k| && c == k[..|c|] && raw == Ascii(k[|c|..]) {
      assert raw[0] == k[|c|] as int;
      assert d == k[..|d|];
      assert raw[1..] == Ascii(k[|d|..]);
    }
  }

  /** The name read by the scanner is the wanted one exactly when its raw bytes are. */
  lemma NameIdentifies(raw: bytes, k: string)
    requires Plain(k)
    ensures (if BACKSLASH in raw then None else Some(RememberAll("", raw))) == Some(k) <==> raw == Ascii(k)
  {
    assert forall i :: 0 <= i < |k| ==> Ascii(k)[i] != BACKSLASH;
    if BACKSLASH !in raw {
      RememberIdentifies("", raw, k);
      assert k[0..] == k;
    }
  }

  /** A member up to its value: the scanner stands after the colon with the name pending. */
  lemma RunName(s: State, name: Name, o: nat, a: nat, marked: bool)
    requires Ready(s, o, a, marked) && WellFormedName(name)
    ensures var t := Run(s, NameBytes(name));
            && Calm(t, o, a, marked) && t.mode == AfterColon
            && (t.pendingKey == Some(CREDITS_USED_KEY) <==> name.raw == Ascii("creditsUsed"))
            && (t.pendingKey == Some(METADATA_KEY) <==> name.raw == Ascii("metadata"))
  {
    RunAppend(s, name.before + Quoted(name.raw) + name.beforeColon + [58], name.afterColon);
    Run4(s, name.before, Quoted(name.raw), name.beforeColon, [58]);
    RunBlank(s, name.before);
    RunQuoted(s, name.raw, o, a, marked);
    var t := Run(s, Quoted(name.raw));
    RunBlank(t, name.beforeColon);
    RunOne(t, 58);
    RunBlank(Step(t, 58), name.afterColon);
    NameIdentifies(name.raw, CREDITS_USED_KEY);
    NameIdentifies(name.raw, METADATA_KEY);
  }

  // ---------------------------------------------------------------- numbers

  predicate Numeric(b: byte) {
    IsDigit(b) || b == 43 || b == 45 || b == 46 || b == 69 || b == 101
  }

  lemma {:induction false} DigitPrefixDigits(s: bytes)
    ensures AllDigits(s[..DigitPrefix(s)])
  {
    if s != [] && IsDigitByte(s[0]) {
      DigitPrefixDigits(s[1..]);
      var n := DigitPrefix(s[1..]);
      assert s[..n + 1] == [s[0]] + s[1..][..n];
    }
  }

  lemma ExponentNumeric(s: bytes)
    requires IsExponent(s)
    ensures forall b :: b in s ==> Numeric(b)
  {
    if s != [] {
      if s[1] == 43 || s[1] == 45 {
        assert s == [s[0], s[1]] + s[2..];
      } else {
        assert s == [s[0]] + s[1..];
      }
    }
  }

  lemma FractionNumeric(s: bytes)
    requires IsFraction(s)
    ensures forall b :: b in s ==> Numeric(b)
  {
    if s != [] && s[0] == 46 {
      var n := DigitPrefix(s[1..]);
      DigitPrefixDigits(s[1..]);
      ExponentNumeric(s[1 + n..]);
      assert s == [s[0]] + s[1..][..n] + s[1 + n..];
    } else {
      ExponentNumeric(s);
    }
  }

  lemma NumberNumeric(s: bytes)
    requires IsNumber(s)
    ensures s != [] && (IsDigit(s[0]) || s[0] == 45)
    ensures forall b :: b in s ==> Numeric(b)
  {
    var unsigned := if s[0] == 45 then s[1..] else s;
    var n := DigitPrefix(unsigned);
    DigitPrefixDigits(unsigned);
    FractionNumeric(unsigned[n..]);
    assert unsigned == unsigned[..n] + unsigned[n..];
    assert s == (if s[0] == 45 then [s[0]] + unsigned else unsigned);
  }

  /** In the middle of a digit token that denotes `n` so far. */
  predicate Counting(s: State, n: nat, o: nat, a: nat, marked: bool) {
    && Calm(s, o, a, marked) && (s.mode == Digits || s.mode == AfterDigits)
    && (n <= MAX_SAFE_INTEGER ==> !s.overflow && s.value == n)
    && (n > MAX_SAFE_INTEGER ==> s.overflow)
  }

  lemma {:induction false} RunDigits(s: State, n: nat, token: bytes, o: nat, a: nat, marked: bool)
    requires Counting(s, n, o, a, marked) && s.mode == Digits && AllDigits(token)
    ensures Counting(Run(s, token), DecimalFrom(n, token), o, a, marked)
    ensures Run(s, token).mode == Digits
    decreases |token|
  {
    if token != [] {
      assert token[0] in token;
      RunDigits(Step(s, token[0]), n * 10 + (token[0] - 48), token[1..], o, a, marked);
    }
  }

  /** A number token with anything but digits in it is abandoned. */
  lemma {:induction false} RunMixedDigits(s: State, token: bytes, o: nat, a: nat, marked: bool)
    requires Calm(s, o, a, marked) && s.mode == Digits
    requires (forall b :: b in token ==> Numeric(b)) && !AllDigits(token)
    ensures Ready(Run(s, token), o, a, marked)
    decreases |token|
  {
    assert token[0] in token && forall b :: b in token[1..] ==> b in token;
    assert token == [token[0]] + token[1..];
    if IsDigit(token[0]) {
      RunMixedDigits(Step(s, token[0]), token[1..], o, a, marked);
    } else {
      RunInert(Step(s, token[0]), token[1..]);
    }
  }

  /** A number where no credit figure is expected. */
  lemma RunPlainToken(s: State, token: bytes, o: nat, a: nat, marked: bool)
    requires Calm(s, o, a, marked) && (s.mode == Outside || s.mode == AfterColon)
    requires token != [] && !IsWhitespace(token[0]) && forall b :: b in token ==> Inert(b)
    requires s.mode == AfterColon && IsDigit(token[0]) ==>
               !(s.pendingKey == Some(CREDITS_USED_KEY) && s.metaObject == Some(o) && s.metaArray == Some(a))
    ensures Ready(Run(s, token), o, a, marked)
  {
    assert token[0] in token && forall b :: b in token[1..] ==> b in token;
    RunInert(Step(s, token[0]), token[1..]);
  }

  // ---------------------------------------------------------------- values that cannot match

  /** Depths at which no object inside `v` is the top-level object or a marked `metadata` object. */
  predicate Nested(v: Value, o: nat, a: nat, marked: bool) {
    (v.Object? ==> o + a >= 1) && (marked ==> o >= 2)
  }

  /** The value at hand is not the `metadata` object nor the `creditsUsed` number being looked for. */
  predicate Uninteresting(s: State, v: Value) {
    s.mode == AfterColon ==>
      && !(s.pendingKey == Some(METADATA_KEY) && s.objectDepth == 1 && s.arrayDepth == 0
           && (v.Object? || v.EmptyObject?))
      && !(s.pendingKey == Some(CREDITS_USED_KEY) && s.metaObject == Some(s.objectDepth)
           && s.metaArray == Some(s.arrayDepth) && v.Number?)
  }

  lemma {:induction false} ScanValue(s: State, v: Value, o: nat, a: nat, marked: bool)
    requires Calm(s, o, a, marked) && (s.mode == Outside || s.mode == AfterColon)
    requires Nested(v, o, a, marked) && WellFormed(v) && Uninteresting(s, v)
    ensures Settled(Run(s, ValueBytes(v)), o, a, marked)
    decreases v
  {
    hide Step;
    match v {
      case Literal(token) =>
        RunPlainToken(s, token, o, a, marked);
      case Number(token) =>
        NumberNumeric(token);
        RunPlainToken(s, token, o, a, marked);
      case Text(raw) =>
        ScanText(s, raw, o, a, marked);
      case EmptyArray(pad) =>
        Run3(s, [91], pad, [93]);
        RunOpenBracket(s, o, a, marked);
        RunBlank(Run(s, [91]), pad);
        RunCloseBracket(Run(s, [91]), o, a + 1, marked);
      case Array(items) =>
        RunAppend(s, [91], ItemsBytes(items));
        RunOpenBracket(s, o, a, marked);
        ScanItems(Run(s, [91]), items, o, a + 1, marked);
      case EmptyObject(pad) =>
        Run3(s, [123], pad, [125]);
        RunOpenBrace(s, o, a, marked);
        RunBlank(Run(s, [123]), pad);
        RunCloseBrace(Run(s, [123]), o + 1, a, marked);
      case Object(members) =>
        RunAppend(s, [123], MembersBytes(members));
        RunOpenBrace(s, o, a, marked);
        ScanMembers(Run(s, [123]), members, o + 1, a, marked);
    }
  }

  lemma ScanText(s: State, raw: bytes, o: nat, a: nat, marked: bool)
    requires Calm(s, o, a, marked) && (s.mode == Outside || s.mode == AfterColon)
    requires IsStringBody(raw)
    ensures Settled(Run(s, Quoted(raw)), o, a, marked)
  {
    var t := s.(mode := Outside, pendingKey := if s.mode == Outside then s.pendingKey else None);
    Run3(s, [34], raw, [34]);
    Run3(t, [34], raw, [34]);
    RunOne(s, 34);
    RunOne(t, 34);
    RunQuoted(t, raw, o, a, marked);
  }

  lemma {:induction false} ScanItems(s: State, items: Items, o: nat, a: nat, marked: bool)
    requires Ready(s, o, a, marked) && a >= 1 && (marked ==> o >= 2) && WellFormedItems(items)
    ensures Ready(Run(s, ItemsBytes(items)), o, a - 1, marked)
    decreases items
  {
    hide Step;
    var t := Run(s, ValueBytes(items.value));
    RunBlank(s, items.before);
    ScanValue(s, items.value, o, a, marked);
    RunBlank(t, items.after);
    match items {
      case LastItem(before, value, after) =>
        Run4(s, before, ValueBytes(value), after, [93]);
        RunCloseBracket(t, o, a, marked);
      case MoreItems(before, value, after, rest) =>
        RunAppend(s, before + ValueBytes(value) + after + [44], ItemsBytes(rest));
        Run4(s, before, ValueBytes(value), after, [44]);
        RunComma(t, o, a, marked);
        ScanItems(Run(t, [44]), rest, o, a, marked);
    }
  }

  /** The members of an object that is neither the top-level object nor a top-level `metadata`. */
  lemma {:induction false} ScanMembers(s: State, members: Members, o: nat, a: nat, marked: bool)
    requires Ready(s, o, a, marked) && (o >= 2 || (o == 1 && a >= 1)) && (marked ==> o >= 3)
    requires WellFormedMembers(members)
    ensures Ready(Run(s, MembersBytes(members)), o - 1, a, marked)
    decreases members
  {
    hide Step;
    RunName(s, members.name, o, a, marked);
    var c := Run(s, NameBytes(members.name));
    ScanValue(c, members.value, o, a, marked);
    var t := Run(c, ValueBytes(members.value));
    RunBlank(t, members.after);
    match members {
      case LastMember(name, value, after) =>
        Run4(s, NameBytes(name), ValueBytes(value), after, [125]);
        RunCloseBrace(t, o, a, marked);
      case MoreMembers(name, value, after, rest) =>
        RunAppend(s, NameBytes(name) + ValueBytes(value) + after + [44], MembersBytes(rest));
        Run4(s, NameBytes(name), ValueBytes(value), after, [44]);
        RunComma(t, o, a, marked);
        ScanMembers(Run(t, [44]), rest, o, a, marked);
    }
  }

  // ---------------------------------------------------------------- the metadata object and the top level

  /** What the scanner must look like after a search that came out as `result`. */
  predicate Concluded(s: State, result: Option<nat>, o: nat, marked: bool) {
    match result
    case Some(n) => s.found && s.emitted == [n]
    case None => Ready(s, o, 0, marked)
  }

  /** A member of `metadata` with the delimiter after it. */
  lemma ScanMetadataMember(s: State, name: Name, value: Value, after: bytes, delimiter: byte)
    requires Ready(s, 2, 0, true) && WellFormedName(name) && WellFormed(value) && IsBlank(after)
    requires delimiter == COMMA || delimiter == CLOSE_BRACE
    ensures Concluded(Run(s, NameBytes(name) + ValueBytes(value) + after + [delimiter]),
                      if name.raw == Ascii("creditsUsed") then PlainNumber(value) else None,
                      if delimiter == COMMA then 2 else 1, delimiter == COMMA)
  {
    hide Step;
    Run4(s, NameBytes(name), ValueBytes(value), after, [delimiter]);
    RunName(s, name, 2, 0, true);
    var c := Run(s, NameBytes(name));
    if name.raw == Ascii("creditsUsed") && value.Number? {
      ScanCredits(c, value.token, after, delimiter);
    } else {
      ScanValue(c, value, 2, 0, true);
      EndMetadataMember(Run(c, ValueBytes(value)), after, delimiter);
    }
  }

  lemma EndMetadataMember(t: State, after: bytes, delimiter: byte)
    requires Settled(t, 2, 0, true) && IsBlank(after) && (delimiter == COMMA || delimiter == CLOSE_BRACE)
    ensures Ready(Run(Run(t, after), [delimiter]), if delimiter == COMMA then 2 else 1, 0, delimiter == COMMA)
  {
    hide Step;
    RunBlank(t, after);
    if delimiter == COMMA {
      RunComma(t, 2, 0, true);
    } else {
      RunCloseBrace(t, 2, 0, true);
    }
  }

  /** The number of a direct `creditsUsed`, up to the delimiter that ends it. */
  lemma ScanCredits(c: State, token: bytes, after: bytes, delimiter: byte)
    requires Calm(c, 2, 0, true) && c.mode == AfterColon && c.pendingKey == Some(CREDITS_USED_KEY)
    requires IsNumber(token) && IsBlank(after) && (delimiter == COMMA || delimiter == CLOSE_BRACE)
    ensures Concluded(Run(Run(Run(c, token), after), [delimiter]), PlainNumber(Number(token)),
                      if delimiter == COMMA then 2 else 1, delimiter == COMMA)
  {
    hide Step, PowerOfTwo;
    SafeIntegers();
    NumberNumeric(token);
    if !IsDigit(token[0]) {
      RunPlainToken(c, token, 2, 0, true);
      assert token[0] in token;
      EndMetadataMember(Run(c, token), after, delimiter);
    } else if AllDigits(token) {
      FirstDigit(c, token);
      RunDigits(Step(c, token[0]), token[0] - 48, token[1..], 2, 0, true);
      assert Decimal(token) == DecimalFrom(token[0] - 48, token[1..]);
      CountingBlank(Run(c, token), Decimal(token), after);
      EndOfNumber(Run(Run(c, token), after), Decimal(token), delimiter);
    } else {
      FirstDigit(c, token);
      assert token == [token[0]] + token[1..];
      assert forall b :: b in token[1..] ==> b in token;
      RunMixedDigits(Step(c, token[0]), token[1..], 2, 0, true);
      EndMetadataMember(Run(c, token), after, delimiter);
    }
  }

  lemma FirstDigit(c: State, token: bytes)
    requires Calm(c, 2, 0, true) && c.mode == AfterColon && c.pendingKey == Some(CREDITS_USED_KEY)
    requires token != [] && IsDigit(token[0])
    ensures Counting(Step(c, token[0]), token[0] - 48, 2, 0, true) && Step(c, token[0]).mode == Digits
  {
  }

  lemma CountingBlank(s: State, n: nat, blank: bytes)
    requires Counting(s, n, 2, 0, true) && IsBlank(blank)
    ensures Counting(Run(s, blank), n, 2, 0, true)
  {
    if blank != [] {
      assert blank[0] in blank && forall b :: b in blank[1..] ==> b in blank;
      RunBlank(Step(s, blank[0]), blank[1..]);
    }
  }

  lemma EndOfNumber(s: State, n: nat, delimiter: byte)
    requires Counting(s, n, 2, 0, true) && (delimiter == COMMA || delimiter == CLOSE_BRACE)
    ensures Concluded(Run(s, [delimiter]), if n <= MAX_SAFE_INTEGER then Some(n) else None,
                      if delimiter == COMMA then 2 else 1, delimiter == COMMA)
  {
    RunOne(s, delimiter);
  }

  lemma {:induction false} ScanMetadata(s: State, members: Members)
    requires Ready(s, 2, 0, true) && WellFormedMembers(members)
    ensures Concluded(Run(s, MembersBytes(members)), DirectCredits(members), 1, false)
    decreases members
  {
    hide Step;
    match members {
      case LastMember(name, value, after) =>
        ScanMetadataMember(s, name, value, after, CLOSE_BRACE);
      case MoreMembers(name, value, after, rest) =>
        var head := NameBytes(name) + ValueBytes(value) + after + [44];
        RunAppend(s, head, MembersBytes(rest));
        ScanMetadataMember(s, name, value, after, COMMA);
        if Run(s, head).found {
          RunFound(Run(s, head), MembersBytes(rest));
        } else {
          ScanMetadata(Run(s, head), rest);
        }
    }
  }

  /** A top-level member: only a `metadata` object is searched. */
  lemma ScanTopMember(s: State, name: Name, value: Value, after: bytes)
    requires Ready(s, 1, 0, false) && WellFormedName(name) && WellFormed(value) && IsBlank(after)
    ensures var t := Run(s, NameBytes(name) + ValueBytes(value) + after);
            if name.raw == Ascii("metadata") && value.Object? && DirectCredits(value.members).Some?
            then t.found && t.emitted == [DirectCredits(value.members).value]
            else Settled(t, 1, 0, false)
  {
    hide Step;
    Run3(s, NameBytes(name), ValueBytes(value), after);
    RunName(s, name, 1, 0, false);
    var c := Run(s, NameBytes(name));
    var t := Run(c, ValueBytes(value));
    if name.raw == Ascii("metadata") && value.Object? {
      RunAppend(c, [123], MembersBytes(value.members));
      RunOpenBrace(c, 1, 0, false);
      ScanMetadata(Run(c, [123]), value.members);
      if t.found {
        RunFound(t, after);
      } else {
        RunBlank(t, after);
      }
    } else if name.raw == Ascii("metadata") && value.EmptyObject? {
      Run3(c, [123], value.pad, [125]);
      RunOpenBrace(c, 1, 0, false);
      RunBlank(Run(c, [123]), value.pad);
      RunCloseBrace(Run(c, [123]), 2, 0, true);
      RunBlank(t, after);
    } else {
      ScanValue(c, value, 1, 0, false);
      RunBlank(t, after);
    }
  }

  lemma {:induction false} ScanTop(s: State, members: Members)
    requires Ready(s, 1, 0, false) && WellFormedMembers(members)
    ensures Concluded(Run(s, MembersBytes(members)), MetadataCredits(members), 0, false)
    decreases members
  {
    hide Step;
    var head := NameBytes(members.name) + ValueBytes(members.value) + members.after;
    ScanTopMember(s, members.name, members.value, members.after);
    var t := Run(s, head);
    match members {
      case LastMember(_, _, _) =>
        RunAppend(s, head, [125]);
        if t.found {
          RunFound(t, [125]);
        } else {
          RunCloseBrace(t, 1, 0, false);
        }
      case MoreMembers(_, _, _, rest) =>
        RunAppend(s, head + [44], MembersBytes(rest));
        RunAppend(s, head, [44]);
        if t.found {
          RunFound(t, [44]);
          RunFound(t, MembersBytes(rest));
        } else {
          RunComma(t, 1, 0, false);
          ScanTop(Run(t, [44]), rest);
        }
    }
  }

  /**
    Main result: on every well-formed JSON text the scanner reports exactly the
    first acceptable direct `metadata.creditsUsed`, and nothing when there is none.
   */
  lemma ScannerIsCorrect(d: Document)
    requires WellFormedDocument(d)
    ensures Scanner.Extracted(Run(INITIAL, DocumentBytes(d))) == CreditsUsed(d)
  {
    hide Step;
    Run3(INITIAL, d.before, ValueBytes(d.value), d.after);
    RunBlank(INITIAL, d.before);
    var t := Run(INITIAL, ValueBytes(d.value));
    if d.value.Object? {
      RunAppend(INITIAL, [123], MembersBytes(d.value.members));
      RunOpenBrace(INITIAL, 0, 0, false);
      ScanTop(Run(INITIAL, [123]), d.value.members);
    } else {
      ScanValue(INITIAL, d.value, 0, 0, false);
    }
    if t.found {
      RunFound(t, d.after);
    } else {
      RunBlank(t, d.after);
    }
  }

  /** The same for a body that arrives in chunks, however it is split. */
  lemma StreamedScanIsCorrect(d: Document, chunks: seq<bytes>)
    requires WellFormedDocument(d) && Flatten(chunks) == DocumentBytes(d)
    ensures Scanner.Extracted(RunChunks(INITIAL, chunks)) == CreditsUsed(d)
    ensures EmitsOnce(RunChunks(INITIAL, chunks))
  {
    ChunkingIsInvisible(INITIAL, chunks);
    ScannerIsCorrect(d);
    AtMostOneEmission(INITIAL, DocumentBytes(d));
  }

  /** `extractCreditsUsed` and the streaming observer, on the bytes of a JSON text. */
  method ExtractFromText(ghost d: Document, chunks: seq<bytes>) returns (creditsUsed: Option<nat>)
    requires WellFormedDocument(d) && Flatten(chunks) == DocumentBytes(d)
    ensures creditsUsed == CreditsUsed(d)
  {
    creditsUsed := Scanner.ObserveStream(chunks);
    ScannerIsCorrect(d);
  }

  /** A response body with nothing but one credit figure, as a number token. */
  function OneFigure(token: bytes): Document {
    var figure := LastMember(Name([], Ascii("creditsUsed"), [], []), Number(token), []);
    Document([], Object(LastMember(Name([], Ascii("metadata"), [], []), Object(figure), [])), [])
  }

  /** Its bytes. */
  function FigureText(token: bytes): bytes {
    [123] + Quoted(Ascii("metadata")) + [58, 123] + Quoted(Ascii("creditsUsed")) + [58] + token + [125, 125]
  }

  /**
    In the body `{"metadata":{"creditsUsed":N}}` the figure is reported exactly when it is a whole
    number below 2^53.
   */
  lemma FigureReportedExactlyWhen(token: bytes)
    requires IsNumber(token)
    ensures Scanner.Extracted(Run(INITIAL, FigureText(token)))
         == if AllDigits(token) && Decimal(token) < PowerOfTwo(53) then Some(Decimal(token)) else None
  {
    hide FigureText, Run, Step, IsNumber, PowerOfTwo, Ascii, OneFigure, DocumentBytes, WellFormedDocument, CreditsUsed;
    FigureIsWellFormed(token);
    FigureBytes(token);
    FigureCounts(token);
    ScannerIsCorrect(OneFigure(token));
  }

  lemma FigureIsWellFormed(token: bytes)
    requires IsNumber(token)
    ensures WellFormedDocument(OneFigure(token))
  {
    hide IsNumber, Ascii, IsStringBody;
    PlainNames();
    var metadata := OneFigure(token).value.members;
    assert WellFormed(Number(token));
    assert WellFormedMembers(metadata.value.members);
    assert WellFormed(metadata.value) && WellFormedName(metadata.name);
    assert WellFormedMembers(metadata) && WellFormed(OneFigure(token).value);
  }

  lemma FigureCounts(token: bytes)
    ensures CreditsUsed(OneFigure(token))
         == if AllDigits(token) && Decimal(token) < PowerOfTwo(53) then Some(Decimal(token)) else None
  {
    hide PowerOfTwo, Ascii, Decimal, AllDigits;
  }

  lemma FigureBytes(token: bytes)
    ensures DocumentBytes(OneFigure(token)) == FigureText(token)
  {
    hide Ascii, Quoted;
    var metadata := OneFigure(token).value.members;
    var figure := metadata.value.members;
    var outer, inner := Quoted(Ascii("metadata")), Quoted(Ascii("creditsUsed"));
    assert NameBytes(figure.name) == inner + [58] && NameBytes(metadata.name) == outer + [58];
    assert MembersBytes(figure) == inner + [58] + token + [125];
    assert MembersBytes(metadata) == outer + [58] + ([123] + MembersBytes(figure)) + [125];
  }

  lemma PlainNames()
    ensures IsStringBody(Ascii("metadata")) && IsStringBody(Ascii("creditsUsed"))
    ensures Ascii("metadata") != Ascii("creditsUsed")
  {
    PlainBody(Ascii("metadata"));
    PlainBody(Ascii("creditsUsed"));
  }

  lemma {:induction false} PlainBody(s: bytes)
    requires forall b :: b in s ==> b >= 32 && b != 34 && b != 92
    ensures IsStringBody(s)
  {
    if s != [] {
      assert s[0] in s && forall b :: b in s[1..] ==> b in s;
      PlainBody(s[1..]);
    }
  }
}
