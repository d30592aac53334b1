/**
  The byte automaton of `CreditsUsedScanner`: what one byte does to the
  scanner's fields, and what a whole string of bytes does.
 */
module ScannerSpec {
  import opened Common

  const CREDITS_USED_KEY := "creditsUsed"
  const METADATA_KEY := "metadata"
  const MAX_SCANNED_KEY_LENGTH: nat := 11

  const QUOTE: byte := 34
  const BACKSLASH: byte := 92
  const COLON: byte := 58
  const COMMA: byte := 44
  const OPEN_BRACKET: byte := 91
  const CLOSE_BRACKET: byte := 93
  const OPEN_BRACE: byte := 123
  const CLOSE_BRACE: byte := 125

  datatype Mode = Outside | InString | AfterKey | AfterColon | Digits | AfterDigits

  /** The scanner's fields; `emitted` records the calls of `onFound`. */
  datatype State = State(
    mode: Mode,
    escaped: bool,
    candidate: string,
    hasEscape: bool,
    pendingKey: Option<string>,
    value: nat,
    overflow: bool,
    found: bool,
    objectDepth: nat,
    arrayDepth: nat,
    metaObject: Option<nat>,
    metaArray: Option<nat>,
    emitted: seq<nat>)

  const INITIAL := State(Outside, false, "", false, None, 0, false, false, 0, 0, None, None, [])

  predicate IsWhitespace(b: byte) {
    b == 9 || b == 10 || b == 13 || b == 32
  }

  predicate IsDelimiter(b: byte) {
    b == COMMA || b == CLOSE_BRACKET || b == CLOSE_BRACE
  }

  predicate IsDigit(b: byte) {
    48 <= b <= 57
  }

  /** The candidate key after one more string byte; it stops growing past the longest key. */
  function Remember(candidate: string, b: byte): string {
    if |candidate| > MAX_SCANNED_KEY_LENGTH then candidate
    else if 32 <= b <= 126 then candidate + [b as char]
    else candidate + ['\\', '0']
  }

  function UpdateDepth(s: State, b: byte): State {
    if b == OPEN_BRACE then s.(objectDepth := s.objectDepth + 1)
    else if b == OPEN_BRACKET then s.(arrayDepth := s.arrayDepth + 1)
    else if b == CLOSE_BRACE then
      var t := if s.metaObject == Some(s.objectDepth) then s.(metaObject := None, metaArray := None) else s;
      t.(objectDepth := Max(0, t.objectDepth - 1))
    else if b == CLOSE_BRACKET then s.(arrayDepth := Max(0, s.arrayDepth - 1))
    else s
  }

  function Emit(s: State): State {
    if s.overflow then s else s.(found := true, emitted := s.emitted + [s.value])
  }

  function ProcessOutside(s: State, b: byte): (State, bool) {
    if b == QUOTE then (s.(mode := InString, candidate := "", hasEscape := false), false)
    else (UpdateDepth(s, b), false)
  }

  function ProcessInString(s: State, b: byte): (State, bool) {
    if s.escaped then (s.(escaped := false, hasEscape := true), false)
    else if b == BACKSLASH then (s.(escaped := true, hasEscape := true), false)
    else if b == QUOTE then
      (s.(pendingKey := if s.hasEscape then None else Some(s.candidate), mode := AfterKey), false)
    else (s.(candidate := Remember(s.candidate, b)), false)
  }

  function ProcessAfterKey(s: State, b: byte): (State, bool) {
    if IsWhitespace(b) then (s, false)
    else if b == COLON then (s.(mode := AfterColon), false)
    else (s.(pendingKey := None, mode := Outside), true)
  }

  function ProcessAfterColon(s: State, b: byte): (State, bool) {
    if IsWhitespace(b) then (s, false)
    else if b == OPEN_BRACE || b == OPEN_BRACKET then
      var metadataValue := s.pendingKey == Some(METADATA_KEY) && s.objectDepth == 1 && s.arrayDepth == 0
                           && b == OPEN_BRACE;
      var t := UpdateDepth(s, b);
      var u := if metadataValue then t.(metaObject := Some(t.objectDepth), metaArray := Some(t.arrayDepth)) else t;
      (u.(pendingKey := None, mode := Outside), false)
    else if IsDigit(b) && s.pendingKey == Some(CREDITS_USED_KEY)
            && s.metaObject == Some(s.objectDepth) && s.metaArray == Some(s.arrayDepth) then
      (s.(mode := Digits, value := b - 48, overflow := false, pendingKey := None), false)
    else (s.(pendingKey := None, mode := Outside), true)
  }

  function ProcessDigits(s: State, b: byte): (State, bool) {
    if IsDigit(b) then
      var digit := b - 48;
      if s.value > (MAX_SAFE_INTEGER - digit) / 10 then (s.(overflow := true), false)
      else if !s.overflow then (s.(value := s.value * 10 + digit), false)
      else (s, false)
    else if IsWhitespace(b) then (s.(mode := AfterDigits), false)
    else if IsDelimiter(b) then (UpdateDepth(Emit(s), b).(mode := Outside), false)
    else (s.(mode := Outside), true)
  }

  function ProcessAfterDigits(s: State, b: byte): (State, bool) {
    if IsWhitespace(b) then (s, false)
    else if IsDelimiter(b) then (UpdateDepth(Emit(s), b).(mode := Outside), false)
    else (s.(mode := Outside), true)
  }

  /** One pass over a byte: the new fields and whether the byte must be looked at again. */
  function ProcessByte(s: State, b: byte): (State, bool) {
    match s.mode
    case Outside => ProcessOutside(s, b)
    case InString => ProcessInString(s, b)
    case AfterKey => ProcessAfterKey(s, b)
    case AfterColon => ProcessAfterColon(s, b)
    case Digits => ProcessDigits(s, b)
    case AfterDigits => ProcessAfterDigits(s, b)
  }

  /** Everything one input byte does: nothing once found, otherwise one pass and at most one more. */
  function Step(s: State, b: byte): State {
    if s.found then s
    else
      var (t, again) := ProcessByte(s, b);
      if again then ProcessByte(t, b).0 else t
  }

  /** The bytewise automaton. */
  function Run(s: State, input: bytes): State
    decreases |input|
  {
    if input == [] then s else Run(Step(s, input[0]), input[1..])
  }

  /** A pass that asks for the byte again leaves the scanner outside, where no pass asks again. */
  lemma SecondPassIsLast(s: State, b: byte)
    ensures ProcessByte(s, b).1 ==> ProcessByte(s, b).0.mode == Outside && ProcessByte(s, b).0.found == s.found
    ensures s.mode == Outside ==> !ProcessByte(s, b).1
  {
    hide UpdateDepth, Remember, Emit, ProcessAfterColon, ProcessDigits;
    OtherByteGoesOutside(s, b);
  }

  lemma OtherByteGoesOutside(s: State, b: byte)
    ensures ProcessAfterColon(s, b).1 ==>
              ProcessAfterColon(s, b).0.mode == Outside && ProcessAfterColon(s, b).0.found == s.found
    ensures ProcessDigits(s, b).1 ==>
              ProcessDigits(s, b).0.mode == Outside && ProcessDigits(s, b).0.found == s.found
  {
    hide UpdateDepth, Emit;
  }

  lemma {:induction false} RunAppend(s: State, a: bytes, b: bytes)
    ensures Run(s, a + b) == Run(Run(s, a), b)
    decreases |a|
  {
    if a == [] {
      assert a + b == b;
    } else {
      assert (a + b)[0] == a[0] && (a + b)[1..] == a[1..] + b;
      RunAppend(Step(s, a[0]), a[1..], b);
    }
  }

  lemma {:induction false} RunFound(s: State, input: bytes)
    requires s.found
    ensures Run(s, input) == s
  {
    if input != [] {
      RunFound(s, input[1..]);
    }
  }

  lemma RunOne(s: State, b: byte)
    ensures Run(s, [b]) == Step(s, b)
  {
    assert [b][1..] == [];
    assert Run(Step(s, b), []) == Step(s, b);
  }

  /** The candidate after a run of string bytes. */
  function RememberAll(candidate: string, input: bytes): string
    decreases |input|
  {
    if input == [] then candidate else RememberAll(Remember(candidate, input[0]), input[1..])
  }

  lemma {:induction false} RememberFull(candidate: string, input: bytes)
    requires |candidate| > MAX_SCANNED_KEY_LENGTH
    ensures RememberAll(candidate, input) == candidate
  {
    if input != [] {
      RememberFull(candidate, input[1..]);
    }
  }

  /** String bytes without a quote or backslash only extend the candidate: what the fast skip relies on. */
  lemma {:induction false} RunPlainString(s: State, input: bytes)
    requires s.mode == InString && !s.escaped && !s.found
    requires QUOTE !in input && BACKSLASH !in input
    ensures Run(s, input) == s.(candidate := RememberAll(s.candidate, input))
    decreases |input|
  {
    if input != [] {
      assert input[0] in input;
      assert forall b :: b in input[1..] ==> b in input;
      RunPlainString(Step(s, input[0]), input[1..]);
    }
  }

  /** No run calls `onFound` twice, and it is called exactly when the scanner reports `found`. */
  predicate EmitsOnce(s: State) {
    |s.emitted| == (if s.found then 1 else 0)
  }

  lemma PassEmitsOnce(s: State, b: byte)
    requires !s.found && EmitsOnce(s)
    ensures EmitsOnce(ProcessByte(s, b).0)
    ensures ProcessByte(s, b).1 ==> !ProcessByte(s, b).0.found
  {
    hide ProcessOutside, ProcessInString, ProcessAfterKey, ProcessAfterColon, ProcessDigits, ProcessAfterDigits;
    NumberPassEmitsOnce(s, b);
    OtherPassEmitsNothing(s, b);
  }

  lemma NumberPassEmitsOnce(s: State, b: byte)
    requires !s.found && EmitsOnce(s)
    ensures var (t, again) := ProcessDigits(s, b); EmitsOnce(t) && (again ==> !t.found)
    ensures var (t, again) := ProcessAfterDigits(s, b); EmitsOnce(t) && (again ==> !t.found)
  {
    hide UpdateDepth;
    BracketsEmitNothing(Emit(s), b);
  }

  lemma OtherPassEmitsNothing(s: State, b: byte)
    ensures SameEmission(s, ProcessOutside(s, b).0) && SameEmission(s, ProcessInString(s, b).0)
    ensures SameEmission(s, ProcessAfterKey(s, b).0) && SameEmission(s, ProcessAfterColon(s, b).0)
  {
    hide UpdateDepth, Remember;
    BracketsEmitNothing(s, b);
  }

  predicate SameEmission(s: State, t: State) {
    t.found == s.found && t.emitted == s.emitted
  }

  lemma BracketsEmitNothing(s: State, b: byte)
    ensures SameEmission(s, UpdateDepth(s, b))
  {
  }

  lemma {:induction false} AtMostOneEmission(s: State, input: bytes)
    requires EmitsOnce(s)
    ensures EmitsOnce(Run(s, input))
    decreases |input|
  {
    if input != [] {
      if !s.found {
        PassEmitsOnce(s, input[0]);
        if ProcessByte(s, input[0]).1 {
          PassEmitsOnce(ProcessByte(s, input[0]).0, input[0]);
        }
      }
      assert EmitsOnce(Step(s, input[0]));
      AtMostOneEmission(Step(s, input[0]), input[1..]);
    }
  }

  /** The bytes of all chunks in order. */
  function Flatten(chunks: seq<bytes>): bytes {
    if chunks == [] then [] else chunks[0] + Flatten(chunks[1..])
  }

  function RunChunks(s: State, chunks: seq<bytes>): State
    decreases |chunks|
  {
    if chunks == [] then s else RunChunks(Run(s, chunks[0]), chunks[1..])
  }

  /** Splitting the body into chunks anywhere changes neither the fields nor the emission. */
  lemma {:induction false} ChunkingIsInvisible(s: State, chunks: seq<bytes>)
    ensures RunChunks(s, chunks) == Run(s, Flatten(chunks))
    decreases |chunks|
  {
    if chunks != [] {
      RunAppend(s, chunks[0], Flatten(chunks[1..]));
      ChunkingIsInvisible(Run(s, chunks[0]), chunks[1..]);
    }
  }
}
