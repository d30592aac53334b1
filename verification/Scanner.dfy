/**
  `CreditsUsedScanner` in the source's own form: fields updated in place, a
  `push` that skips string contents with cached searches, and
  `extractCreditsUsed`. Every method is tied to the bytewise automaton.
 */
module Scanner {
  import opened Common
  import opened ScannerSpec

  /** `chunk.indexOf(wanted, from)`, with the number of bytes the search looks at. */
  method IndexOf(chunk: bytes, wanted: byte, from: nat) returns (at: int, looked: nat)
    requires from <= |chunk|
    ensures at == -1 || from <= at < |chunk|
    ensures at == -1 ==> wanted !in chunk[from..] && looked == |chunk| - from
    ensures at >= 0 ==> chunk[at] == wanted && wanted !in chunk[from..at] && looked == at + 1 - from
  {
    at := from;
    while at < |chunk|
      invariant from <= at <= |chunk|
      invariant wanted !in chunk[from..at]
    {
      if chunk[at] == wanted {
        return at, at + 1 - from;
      }
      at := at + 1;
    }
    return -1, |chunk| - from;
  }

  class CreditsUsedScanner {
    var mode: Mode
    var escaped: bool
    var candidate: string
    var hasEscape: bool
    var pendingKey: Option<string>
    var value: nat
    var overflow: bool
    var found: bool
    var objectDepth: nat
    var arrayDepth: nat
    var metadataObjectDepth: Option<nat>
    var metadataArrayDepth: Option<nat>
    /** The values handed to `onFound`, in call order. */
    var emitted: seq<nat>

    function Fields(): State
      reads this
    {
      State(mode, escaped, candidate, hasEscape, pendingKey, value, overflow, found,
            objectDepth, arrayDepth, metadataObjectDepth, metadataArrayDepth, emitted)
    }

    constructor ()
      ensures Fields() == INITIAL
    {
      mode, escaped, candidate, hasEscape := Outside, false, "", false;
      pendingKey, value, overflow, found := None, 0, false, false;
      objectDepth, arrayDepth := 0, 0;
      metadataObjectDepth, metadataArrayDepth := None, None;
      emitted := [];
    }

    /** The cached position `next` answers the search for `wanted` from `i` on, or lies before `i`. */
    static ghost predicate SearchIsCurrent(chunk: bytes, wanted: byte, i: nat, next: int)
      requires i <= |chunk|
    {
      && -2 <= next < |chunk|
      && (next == -1 ==> wanted !in chunk[i..])
      && (next >= i ==> chunk[next] == wanted && wanted !in chunk[i..next])
    }

    /** How far the search whose last answer is `next` has looked into a chunk of `n` bytes. */
    static ghost function Frontier(n: nat, next: int): nat
      requires -2 <= next
    {
      if next == -1 then n else if next == -2 then 0 else next + 1
    }

    /** The rest of a chunk is its next byte and then the rest of that. */
    static lemma RunNext(s: State, chunk: bytes, i: nat)
      requires i <= |chunk|
      ensures i == 0 ==> Run(s, chunk[i..]) == Run(s, chunk)
      ensures Run(s, chunk[i..]) == if i == |chunk| then s else Run(Step(s, chunk[i]), chunk[i + 1..])
    {
      if i < |chunk| {
        assert chunk[i..][1..] == chunk[i + 1..];
      }
      assert chunk[0..] == chunk;
    }

    static lemma NothingSearched(chunk: bytes)
      ensures SearchIsCurrent(chunk, QUOTE, 0, -2) && SearchIsCurrent(chunk, BACKSLASH, 0, -2)
    {
    }

    /** Searches again only once the cached position has been consumed. */
    static method Refresh(chunk: bytes, wanted: byte, i: nat, next: int) returns (current: int, looked: nat)
      requires i < |chunk| && -2 <= next
      requires SearchIsCurrent(chunk, wanted, i, next)
      ensures SearchIsCurrent(chunk, wanted, i, current)
      ensures current == -1 || i <= current < |chunk|
      ensures Frontier(|chunk|, next) + looked <= Frontier(|chunk|, current)
    {
      current, looked := next, 0;
      if next != -1 && next < i {
        current, looked := IndexOf(chunk, wanted, i);
      }
    }

    static lemma Advance(chunk: bytes, wanted: byte, i: nat, j: nat, next: int)
      requires i <= j <= |chunk|
      requires SearchIsCurrent(chunk, wanted, i, next)
      ensures SearchIsCurrent(chunk, wanted, j, next)
    {
      if next == -1 {
        assert chunk[j..] == chunk[i..][j - i..];
      } else if next >= j {
        assert chunk[j..next] == chunk[i..next][j - i..];
      }
    }

    /**
      Feeds one chunk. `searched` is the number of bytes looked at by the
      quote and backslash searches together.
     */
    method Push(chunk: bytes) returns (searched: nat)
      modifies this
      ensures Fields() == Run(old(Fields()), chunk)
      ensures searched <= 2 * |chunk|
    {
      hide Run, Step, SearchIsCurrent;
      searched := 0;
      NothingSearched(chunk);
      RunNext(Fields(), chunk, 0);
      if found {
        RunFound(Fields(), chunk);
        return;
      }
      // Where the next quote and backslash are; -2 before the first search, -1 when there are no more.
      var nextQuote, nextBackslash := -2, -2;
      var i := 0;
      while i < |chunk|
        invariant 0 <= i <= |chunk|
        invariant Run(Fields(), chunk[i..]) == Run(old(Fields()), chunk)
        invariant !found
        invariant -2 <= nextQuote < |chunk| && -2 <= nextBackslash < |chunk|
        invariant SearchIsCurrent(chunk, QUOTE, i, nextQuote)
        invariant SearchIsCurrent(chunk, BACKSLASH, i, nextBackslash)
        invariant searched <= Frontier(|chunk|, nextQuote) + Frontier(|chunk|, nextBackslash)
        decreases |chunk| - i
      {
        if mode == InString && !escaped {
          ghost var start := i;
          var looked;
          nextQuote, looked := Refresh(chunk, QUOTE, i, nextQuote);
          searched := searched + looked;
          nextBackslash, looked := Refresh(chunk, BACKSLASH, i, nextBackslash);
          searched := searched + looked;
          var end := if nextQuote == -1 then |chunk| else nextQuote;
          if nextBackslash != -1 && nextBackslash < end {
            end := nextBackslash;
          }
          NothingBefore(chunk, QUOTE, i, nextQuote, end);
          NothingBefore(chunk, BACKSLASH, i, nextBackslash, end);
          SkipTo(chunk, i, end);
          i := end;
          Advance(chunk, QUOTE, start, i, nextQuote);
          Advance(chunk, BACKSLASH, start, i, nextBackslash);
          if i >= |chunk| {
            RunNext(Fields(), chunk, i);
            return;
          }
        }
        Advance(chunk, QUOTE, i, i + 1, nextQuote);
        Advance(chunk, BACKSLASH, i, i + 1, nextBackslash);
        RunNext(Fields(), chunk, i);
        var byte := chunk[i];
        i := i + 1;
        ConsumeByte(byte);
        if found {
          RunFound(Fields(), chunk[i..]);
          return;
        }
      }
      RunNext(Fields(), chunk, i);
    }

    static lemma NothingBefore(chunk: bytes, wanted: byte, i: nat, next: int, end: nat)
      requires i <= end <= |chunk|
      requires next == -1 || (i <= next < |chunk| && end <= next)
      requires SearchIsCurrent(chunk, wanted, i, next)
      ensures wanted !in chunk[i..end]
    {
      if next == -1 {
        assert chunk[i..end] == chunk[i..][..end - i];
      } else {
        assert chunk[i..end] == chunk[i..next][..end - i];
      }
    }

    static lemma SkippedRun(s: State, chunk: bytes, i: nat, end: nat)
      requires i <= end <= |chunk|
      requires s.mode == InString && !s.escaped && !s.found
      requires QUOTE !in chunk[i..end] && BACKSLASH !in chunk[i..end]
      ensures Run(s, chunk[i..]) == Run(s.(candidate := RememberAll(s.candidate, chunk[i..end])), chunk[end..])
    {
      hide Run, Step, RememberAll;
      var skipped, rest := chunk[i..end], chunk[end..];
      assert chunk[i..] == skipped + rest;
      RunPlainString(s, skipped);
      RunAppend(s, skipped, rest);
    }

    static lemma RememberNext(candidate: string, chunk: bytes, j: nat, end: nat)
      requires j < end <= |chunk|
      ensures RememberAll(candidate, chunk[j..end]) == RememberAll(Remember(candidate, chunk[j]), chunk[j + 1..end])
    {
      assert chunk[j..end][1..] == chunk[j + 1..end];
    }

    static lemma RememberNoMore(candidate: string, rest: bytes)
      requires rest == [] || |candidate| > MAX_SCANNED_KEY_LENGTH
      ensures RememberAll(candidate, rest) == candidate
    {
      if rest != [] {
        RememberFull(candidate, rest);
      }
    }

    /** The inner copying loop of `push`: the skipped bytes only extend the candidate. */
    method SkipTo(chunk: bytes, i: nat, end: nat)
      requires i <= end <= |chunk|
      requires mode == InString && !escaped && !found
      requires QUOTE !in chunk[i..end] && BACKSLASH !in chunk[i..end]
      modifies this`candidate
      ensures Run(Fields(), chunk[end..]) == Run(old(Fields()), chunk[i..])
      ensures mode == InString && !escaped && !found
    {
      hide Run, Step, RememberAll;
      ghost var before := Fields();
      SkippedRun(before, chunk, i, end);
      var j := i;
      while j < end && |candidate| <= MAX_SCANNED_KEY_LENGTH
        invariant i <= j <= end
        invariant RememberAll(candidate, chunk[j..end]) == RememberAll(before.candidate, chunk[i..end])
        invariant Fields() == before.(candidate := candidate)
      {
        RememberNext(candidate, chunk, j, end);
        var byte := chunk[j];
        candidate := candidate + (if 32 <= byte <= 126 then [byte as char] else ['\\', '0']);
        j := j + 1;
      }
      RememberNoMore(candidate, chunk[j..end]);
    }

    /** The reprocessing loop of `push`. */
    method ConsumeByte(byte: byte)
      requires !found
      modifies this
      ensures Fields() == Step(old(Fields()), byte)
    {
      var processAgain := true;
      ghost var before := Fields();
      SecondPassIsLast(before, byte);
      ghost var passes := 0;
      while processAgain && !found
        invariant 0 <= passes <= 2
        invariant passes == 0 ==> processAgain && Fields() == before
        invariant passes == 1 ==> Fields() == ProcessByte(before, byte).0 && processAgain == ProcessByte(before, byte).1
        invariant passes == 2 ==> ProcessByte(before, byte).1 && !processAgain
                                  && Fields() == ProcessByte(ProcessByte(before, byte).0, byte).0
        decreases 2 - passes
      {
        SecondPassIsLast(Fields(), byte);
        processAgain := ProcessOne(byte);
        passes := passes + 1;
      }
    }

    method ProcessOne(byte: byte) returns (again: bool)
      modifies this
      ensures (Fields(), again) == ProcessByte(old(Fields()), byte)
    {
      match mode {
        case Outside => again := StepOutside(byte);
        case InString => again := StepInString(byte);
        case AfterKey => again := StepAfterKey(byte);
        case AfterColon => again := StepAfterColon(byte);
        case Digits => again := StepDigits(byte);
        case AfterDigits => again := StepAfterDigits(byte);
      }
    }

    method StepOutside(byte: byte) returns (again: bool)
      requires mode == Outside
      modifies this
      ensures (Fields(), again) == ProcessOutside(old(Fields()), byte)
    {
      if byte == QUOTE {
        mode := InString;
        candidate := "";
        hasEscape := false;
      } else {
        UpdateContainerDepth(byte);
      }
      return false;
    }

    method StepInString(byte: byte) returns (again: bool)
      requires mode == InString
      modifies this
      ensures (Fields(), again) == ProcessInString(old(Fields()), byte)
    {
      if escaped {
        escaped := false;
        hasEscape := true;
        return false;
      }
      if byte == BACKSLASH {
        escaped := true;
        hasEscape := true;
        return false;
      }
      if byte == QUOTE {
        pendingKey := if hasEscape then None else Some(candidate);
        mode := AfterKey;
        return false;
      }
      if |candidate| <= MAX_SCANNED_KEY_LENGTH {
        candidate := candidate + (if 32 <= byte <= 126 then [byte as char] else ['\\', '0']);
      }
      return false;
    }

    method StepAfterKey(byte: byte) returns (again: bool)
      requires mode == AfterKey
      modifies this
      ensures (Fields(), again) == ProcessAfterKey(old(Fields()), byte)
    {
      if IsWhitespace(byte) {
        return false;
      }
      if byte == COLON {
        mode := AfterColon;
        return false;
      }
      pendingKey := None;
      mode := Outside;
      return true;
    }

    method StepAfterColon(byte: byte) returns (again: bool)
      requires mode == AfterColon
      modifies this
      ensures (Fields(), again) == ProcessAfterColon(old(Fields()), byte)
    {
      hide UpdateDepth;
      if IsWhitespace(byte) {
        return false;
      }
      if byte == OPEN_BRACE || byte == OPEN_BRACKET {
        var metadataValue := pendingKey == Some(METADATA_KEY) && objectDepth == 1 && arrayDepth == 0
                             && byte == OPEN_BRACE;
        UpdateContainerDepth(byte);
        if metadataValue {
          metadataObjectDepth := Some(objectDepth);
          metadataArrayDepth := Some(arrayDepth);
        }
        pendingKey := None;
        mode := Outside;
        return false;
      }
      if 48 <= byte <= 57 && pendingKey == Some(CREDITS_USED_KEY)
         && metadataObjectDepth == Some(objectDepth) && metadataArrayDepth == Some(arrayDepth) {
        mode := Digits;
        value := byte - 48;
        overflow := false;
        pendingKey := None;
        return false;
      }
      pendingKey := None;
      mode := Outside;
      return true;
    }

    method StepDigits(byte: byte) returns (again: bool)
      requires mode == Digits
      modifies this
      ensures (Fields(), again) == ProcessDigits(old(Fields()), byte)
    {
      if 48 <= byte <= 57 {
        var digit := byte - 48;
        if value > (MAX_SAFE_INTEGER - digit) / 10 {
          overflow := true;
        } else if !overflow {
          value := value * 10 + digit;
        }
        return false;
      }
      if IsWhitespace(byte) {
        mode := AfterDigits;
        return false;
      }
      if IsDelimiter(byte) {
        EmitValue();
        UpdateContainerDepth(byte);
        mode := Outside;
        return false;
      }
      mode := Outside;
      return true;
    }

    method StepAfterDigits(byte: byte) returns (again: bool)
      requires mode == AfterDigits
      modifies this
      ensures (Fields(), again) == ProcessAfterDigits(old(Fields()), byte)
    {
      if IsWhitespace(byte) {
        return false;
      }
      if IsDelimiter(byte) {
        EmitValue();
        UpdateContainerDepth(byte);
        mode := Outside;
        return false;
      }
      mode := Outside;
      return true;
    }

    method UpdateContainerDepth(byte: byte)
      modifies this
      ensures Fields() == UpdateDepth(old(Fields()), byte)
    {
      if byte == OPEN_BRACE {
        objectDepth := objectDepth + 1;
      }
      if byte == OPEN_BRACKET {
        arrayDepth := arrayDepth + 1;
      }
      if byte == CLOSE_BRACE {
        if metadataObjectDepth == Some(objectDepth) {
          metadataObjectDepth := None;
          metadataArrayDepth := None;
        }
        objectDepth := Max(0, objectDepth - 1);
      }
      if byte == CLOSE_BRACKET {
        arrayDepth := Max(0, arrayDepth - 1);
      }
    }

    method EmitValue()
      modifies this
      ensures Fields() == Emit(old(Fields()))
    {
      if !overflow {
        found := true;
        emitted := emitted + [value];
      }
    }
  }

  /** `extractCreditsUsed`: one push of the whole body. */
  method ExtractCreditsUsed(body: bytes) returns (creditsUsed: Option<nat>)
    ensures creditsUsed == Extracted(Run(INITIAL, body))
  {
    var scanner := new CreditsUsedScanner();
    var _ := scanner.Push(body);
    AtMostOneEmission(INITIAL, body);
    creditsUsed := if scanner.emitted == [] then None else Some(scanner.emitted[|scanner.emitted| - 1]);
  }

  /** The value a finished scan reported, if any. */
  function Extracted(s: State): Option<nat> {
    if s.emitted == [] then None else Some(s.emitted[0])
  }

  /** A stream of chunks, as `observeCreditsUsedStream` feeds them. */
  method ObserveStream(chunks: seq<bytes>) returns (creditsUsed: Option<nat>)
    ensures creditsUsed == Extracted(Run(INITIAL, Flatten(chunks)))
  {
    var scanner := new CreditsUsedScanner();
    var k := 0;
    while k < |chunks|
      invariant 0 <= k <= |chunks|
      invariant RunChunks(scanner.Fields(), chunks[k..]) == RunChunks(INITIAL, chunks)
    {
      assert chunks[k..][1..] == chunks[k + 1..];
      var _ := scanner.Push(chunks[k]);
      k := k + 1;
    }
    ChunkingIsInvisible(INITIAL, chunks);
    creditsUsed := if scanner.emitted == [] then None else Some(scanner.emitted[0]);
  }
}
