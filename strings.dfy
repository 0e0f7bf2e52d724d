/** `validate_string` of src/validator.rs: a state machine over the units of
    a string. An opening quote, then plain units, escapes and `\u` with four
    hex digits, until a closing quote, which is consumed. Reaching the end
    of the document ends the string successfully exactly when the LAST unit
    of the document is a quote, whatever state the machine is in; otherwise
    the failure is reported at the absolute offset of the last unit. */
module Strings {
  import opened Utf8Reader
  import opened Tokens

  /** The states of `validate_string`; `Unicode(digits)` carries the
      source's `unicode_ptr`, the number of hex digits already read. */
  datatype StringState = Begin | PlainText | Escaping | Unicode(digits: nat)

  /** `is_valid_hex_digits`: the unit's first character is a hex digit. */
  predicate IsValidHexDigits(chr: Unit): (b: bool)
    requires |chr| > 0
    ensures b <==> chr[0] in {0x30, 0x31, 0x32, 0x33, 0x34, 0x35, 0x36, 0x37, 0x38, 0x39,
                              0x41, 0x42, 0x43, 0x44, 0x45, 0x46, 0x61, 0x62, 0x63, 0x64, 0x65, 0x66}
    ensures b ==> !Is(chr, Quote) && !Is(chr, ReverseSolidus) && !IsInsignificantWhitespace(chr)
  {
    (0x30 <= chr[0] <= 0x39) || (0x41 <= chr[0] <= 0x46) || (0x61 <= chr[0] <= 0x66)
  }

  /** The units that may follow a reverse solidus, other than `u`. */
  predicate IsEscapeChar(chr: Unit)
  {
    Is(chr, Quote) || Is(chr, ReverseSolidus) || Is(chr, Solidus) || Is(chr, LetterB) ||
    Is(chr, LetterF) || Is(chr, LetterN) || Is(chr, LetterR) || Is(chr, LetterT)
  }

  /** What the tests of `validate_string` can tell about a unit, apart from
      the hex-digit test. */
  datatype StringUnit = QuoteMark | Backslash | Escapable | UnicodeMark | Plain

  /** The class of a unit. */
  function Classify(chr: Unit): (c: StringUnit)
    ensures c == QuoteMark <==> Is(chr, Quote)
    ensures c == Backslash <==> Is(chr, ReverseSolidus)
    ensures c == UnicodeMark <==> Is(chr, LetterU)
    ensures c == QuoteMark || c == Backslash || c == Escapable <==> IsEscapeChar(chr)
  {
    if Is(chr, Quote) then QuoteMark
    else if Is(chr, ReverseSolidus) then Backslash
    else if IsEscapeChar(chr) then Escapable
    else if Is(chr, LetterU) then UnicodeMark
    else Plain
  }

  /** How a string can fail on a unit. */
  datatype StringError = NotQuoted | BadEscape | BadUnicode

  /** What one unit does to the machine: move on (the unit is consumed),
      close the string (the quote is consumed too) or fail at the unit. */
  datatype StringMove = Advance(next: StringState) | Close | Refuse(error: StringError)

  /** The error a refused unit reports. */
  function StringReason(error: StringError, chr: Unit): (reason: Reason)
    ensures error == NotQuoted <==> reason == StringStart
  {
    match error
    case NotQuoted => StringStart
    case BadEscape => InvalidEscape(chr)
    case BadUnicode => InvalidUnicode(chr)
  }

  /** One transition of `validate_string`: the arms of its `match state`.
      `hex` is the unit's hex-digit test. Only a quote in plain text closes
      the string; the fourth hex digit returns to plain text. */
  function StringStep(state: StringState, c: StringUnit, hex: bool): (m: StringMove)
    ensures m.Advance? ==> !m.next.Begin?
    ensures m.Close? <==> state == PlainText && c == QuoteMark
    ensures m.Refuse? && m.error == NotQuoted <==> state == Begin && c != QuoteMark
  {
    match state
    case Begin =>
      if c == QuoteMark then Advance(PlainText) else Refuse(NotQuoted)
    case PlainText =>
      if c == QuoteMark then Close
      else if c == Backslash then Advance(Escaping)
      else Advance(PlainText)
    case Escaping =>
      if c == QuoteMark || c == Backslash || c == Escapable then Advance(PlainText)
      else if c == UnicodeMark then Advance(Unicode(0))
      else Refuse(BadEscape)
    case Unicode(digits) =>
      if !hex then Refuse(BadUnicode)
      else
        var count := digits + 1;
        if count == 4 then Advance(PlainText) else Advance(Unicode(count))
  }

  /** What the end of the document does: success when the last unit is a
      quote, otherwise failure reported at the last unit's offset. */
  function EndOfString(us: seq<Unit>, ptr: nat): (p: Production)
    requires |us| > 0
    ensures p.outcome.Success? <==> Is(us[|us| - 1], Quote)
  {
    if !Is(us[|us| - 1], Quote) then Production(Failure(StringNotClosed), |us| - 1)
    else Production(Success, ptr)
  }

  /** The loop of `validate_string` over the document's units `us`, from
      `state` with `ptr` units consumed since `start`: the end of the
      document, or one more unit. A success always ends on a quote: the
      closing one, or the last unit of the document. */
  function StringRun(us: seq<Unit>, start: nat, state: StringState, ptr: nat): (p: Production)
    requires IsUnitSeq(us) && start < |us| && start + ptr <= |us|
    requires state.Begin? <==> ptr == 0
    ensures p.outcome.Success? ==>
              1 <= p.step <= |us| - start && ptr <= p.step && Is(us[start + p.step - 1], Quote)
    ensures p.outcome.Failure? ==> p.step < |us|
    decreases |us| - (start + ptr), 1
  {
    if start + ptr == |us| then EndOfString(us, ptr)
    else StringAt(us, start, state, ptr)
  }

  /** One pass of the loop over the unit at `start + ptr`. */
  function StringAt(us: seq<Unit>, start: nat, state: StringState, ptr: nat): (p: Production)
    requires IsUnitSeq(us) && start < |us| && start + ptr < |us|
    requires state.Begin? <==> ptr == 0
    ensures p.outcome.Success? ==>
              1 <= p.step <= |us| - start && ptr <= p.step && Is(us[start + p.step - 1], Quote)
    ensures p.outcome.Failure? ==> p.step < |us|
    decreases |us| - (start + ptr), 0
  {
    var chr := us[start + ptr];
    match StringStep(state, Classify(chr), IsValidHexDigits(chr))
    case Close => Production(Success, ptr + 1)
    case Refuse(error) => Production(Failure(StringReason(error, chr)), ptr)
    case Advance(next) => StringRun(us, start, next, ptr + 1)
  }

  /** `validate_string`. */
  method ValidateString(r: Reader, start: nat) returns (result: Outcome, step: nat)
    requires Valid(r) && start < Len(r)
    ensures Production(result, step) == StringRun(Units(r), start, Begin, 0)
  {
    ghost var us := Units(r);
    var len := Len(r);
    var state := Begin;
    var ptr := 0;
    while start + ptr < len
      invariant start + ptr <= len
      invariant state.Begin? <==> ptr == 0
      invariant StringRun(us, start, state, ptr) == StringRun(us, start, Begin, 0)
      decreases len - (start + ptr)
    {
      var chr := Char(r, start + ptr);
      match StringStep(state, Classify(chr), IsValidHexDigits(chr)) {
        case Close =>
          StopAt(us, start, state, start + ptr, ptr, chr);
          return Success, ptr + 1;
        case Refuse(error) =>
          StopAt(us, start, state, start + ptr, ptr, chr);
          return Failure(StringReason(error, chr)), ptr;
        case Advance(next) =>
          StepTo(us, start, state, start + ptr, ptr, chr, next);
          state := next;
          ptr := ptr + 1;
      }
    }
    EndRun(us, start, state, ptr);
    var tail := Tail(r);
    if !Is(tail, Quote) {
      return Failure(StringNotClosed), len - 1;
    }
    return Success, ptr;
  }

  // ---------------------------------------------------------------------
  // Single steps

  /** The end of the document, in any state. */
  lemma EndRun(us: seq<Unit>, start: nat, state: StringState, ptr: nat)
    requires IsUnitSeq(us) && start < |us| && start + ptr == |us|
    requires state.Begin? <==> ptr == 0
    ensures StringRun(us, start, state, ptr) == EndOfString(us, ptr)
  {
  }

  /** One consumed unit at `i`: the machine moves on from `state` to
      `next`. */
  lemma StepTo(us: seq<Unit>, start: nat, state: StringState, i: nat, ptr: nat, chr: Unit, next: StringState)
    requires IsUnitSeq(us) && i == start + ptr && i < |us| && chr == us[i]
    requires state.Begin? <==> ptr == 0
    requires StringStep(state, Classify(chr), IsValidHexDigits(chr)) == Advance(next)
    ensures StringRun(us, start, state, ptr) == StringRun(us, start, next, ptr + 1)
  {
  }

  /** One unit at `i` that stops the machine: a closing quote is consumed, a refused unit is not. */
  lemma StopAt(us: seq<Unit>, start: nat, state: StringState, i: nat, ptr: nat, chr: Unit)
    requires IsUnitSeq(us) && i == start + ptr && i < |us| && chr == us[i]
    requires state.Begin? <==> ptr == 0
    requires !StringStep(state, Classify(chr), IsValidHexDigits(chr)).Advance?
    ensures var m := StringStep(state, Classify(chr), IsValidHexDigits(chr));
      StringRun(us, start, state, ptr) ==
        if m.Close? then Production(Success, ptr + 1)
        else Production(Failure(StringReason(m.error, chr)), ptr)
  {
  }

  // ---------------------------------------------------------------------
  // The strings the machine accepts

  /** A unit that stands for itself inside a string. */
  predicate IsUnescaped(chr: Unit)
  {
    !Is(chr, Quote) && !Is(chr, ReverseSolidus)
  }

  /** Every unit in `[from, to)` passes the hex-digit test. */
  predicate AllHex(us: seq<Unit>, from: nat, to: nat)
    requires IsUnitSeq(us) && to <= |us|
  {
    forall j :: from <= j < to ==> IsValidHexDigits(us[j])
  }

  /** Units `[from, to)` form a string body: plain units, two-unit escapes
      and six-unit `\u` escapes, as in section 7 of RFC 8259 except that
      control characters are not excluded and a hex digit is recognised by
      its first character, as the source does. */
  predicate IsStringBody(us: seq<Unit>, from: nat, to: nat)
    requires IsUnitSeq(us) && from <= to <= |us|
    decreases (to as int) - (from as int)
  {
    if from == to then true
    else if IsUnescaped(us[from]) then IsStringBody(us, from + 1, to)
    else if Is(us[from], Quote) then false
    else if from + 1 == to then false
    else if IsEscapeChar(us[from + 1]) then IsStringBody(us, from + 2, to)
    else Is(us[from + 1], LetterU) && from + 6 <= to && AllHex(us, from + 2, from + 6) &&
         IsStringBody(us, from + 6, to)
  }

  /** `n` units from `start` form a complete string: quote, body, quote. */
  predicate IsStringSpan(us: seq<Unit>, start: nat, n: nat)
    requires IsUnitSeq(us)
  {
    && 2 <= n && start + n <= |us|
    && Is(us[start], Quote) && Is(us[start + n - 1], Quote)
    && IsStringBody(us, start + 1, start + n - 1)
  }

  // ---------------------------------------------------------------------
  // Runs over the parts of a string. Each lemma takes a position `p` in
  // the document together with the matching count `ptr` of units consumed.

  /** The opening unit: a quote moves to plain text, anything else fails
      at offset 0. */
  lemma OpenRun(us: seq<Unit>, start: nat)
    requires IsUnitSeq(us) && start < |us|
    ensures Is(us[start], Quote) ==> StringRun(us, start, Begin, 0) == StringRun(us, start, PlainText, 1)
    ensures !Is(us[start], Quote) ==> StringRun(us, start, Begin, 0) == Production(Failure(StringStart), 0)
  {
    if Is(us[start], Quote) {
      StepTo(us, start, Begin, start, 0, us[start], PlainText);
    } else {
      StopAt(us, start, Begin, start, 0, us[start]);
    }
  }

  /** A reverse solidus at `p` in plain text followed by an escape
      character: both are consumed and the machine is back in plain text. */
  lemma EscapeRun(us: seq<Unit>, start: nat, p: nat, ptr: nat)
    requires IsUnitSeq(us) && p == start + ptr && 1 <= ptr && p + 1 < |us|
    requires Is(us[p], ReverseSolidus) && IsEscapeChar(us[p + 1])
    ensures StringRun(us, start, PlainText, ptr) == StringRun(us, start, PlainText, ptr + 2)
  {
    StepTo(us, start, PlainText, p, ptr, us[p], Escaping);
    StepTo(us, start, Escaping, p + 1, ptr + 1, us[p + 1], PlainText);
  }

  /** A reverse solidus at `p` followed by `u`: the hex digits start. */
  lemma UnicodeEscapeRun(us: seq<Unit>, start: nat, p: nat, ptr: nat)
    requires IsUnitSeq(us) && p == start + ptr && 1 <= ptr && p + 1 < |us|
    requires Is(us[p], ReverseSolidus) && Is(us[p + 1], LetterU)
    ensures StringRun(us, start, PlainText, ptr) == StringRun(us, start, Unicode(0), ptr + 2)
  {
    StepTo(us, start, PlainText, p, ptr, us[p], Escaping);
    StepTo(us, start, Escaping, p + 1, ptr + 1, us[p + 1], Unicode(0));
  }

  /** A reverse solidus at `p` followed by anything else: the failure is
      reported at the unit after the reverse solidus. */
  lemma BadEscapeRun(us: seq<Unit>, start: nat, p: nat, ptr: nat)
    requires IsUnitSeq(us) && p == start + ptr && 1 <= ptr && p + 1 < |us|
    requires Is(us[p], ReverseSolidus) && !IsEscapeChar(us[p + 1]) && !Is(us[p + 1], LetterU)
    ensures StringRun(us, start, PlainText, ptr) == Production(Failure(InvalidEscape(us[p + 1])), ptr + 1)
  {
    StepTo(us, start, PlainText, p, ptr, us[p], Escaping);
    StopAt(us, start, Escaping, p + 1, ptr + 1, us[p + 1]);
  }

  /** A reverse solidus as the last unit of the document: the end of the
      document is reached while escaping. */
  lemma EscapeAtEndRun(us: seq<Unit>, start: nat, p: nat, ptr: nat)
    requires IsUnitSeq(us) && p == start + ptr && 1 <= ptr && p + 1 == |us|
    requires Is(us[p], ReverseSolidus)
    ensures StringRun(us, start, PlainText, ptr) == EndOfString(us, ptr + 1)
  {
    StepTo(us, start, PlainText, p, ptr, us[p], Escaping);
  }

  /** Hex digits from `q` up to `e` are consumed one by one, counting up
      from `digits` to `k`. */
  lemma {:induction false} HexDigitsRun(us: seq<Unit>, start: nat, q: nat, ptr: nat, digits: nat, k: nat, e: nat, eptr: nat)
    requires IsUnitSeq(us) && q == start + ptr && 1 <= ptr && digits <= k < 4
    requires e == q + (k - digits) && eptr == ptr + (k - digits) && e <= |us|
    requires AllHex(us, q, e)
    ensures StringRun(us, start, Unicode(digits), ptr) == StringRun(us, start, Unicode(k), eptr)
    decreases k - digits
  {
    if digits < k {
      assert IsValidHexDigits(us[q]);
      StepTo(us, start, Unicode(digits), q, ptr, us[q], Unicode(digits + 1));
      HexDigitsRun(us, start, q + 1, ptr + 1, digits + 1, k, e, eptr);
    }
  }

  /** Four hex digits from `q` lead back to plain text. */
  lemma HexQuadRun(us: seq<Unit>, start: nat, q: nat, ptr: nat)
    requires IsUnitSeq(us) && q == start + ptr && 1 <= ptr && q + 4 <= |us|
    requires AllHex(us, q, q + 4)
    ensures StringRun(us, start, Unicode(0), ptr) == StringRun(us, start, PlainText, ptr + 4)
  {
    HexDigitsRun(us, start, q, ptr, 0, 3, q + 3, ptr + 3);
    StepTo(us, start, Unicode(3), q + 3, ptr + 3, us[q + 3], PlainText);
  }

  /** With `digits` hex digits read and the cursor at `q`: a run that
      closes the string before the end of the document read the remaining
      digits, up to `e`, and went on in plain text. */
  lemma {:induction false} HexSound(us: seq<Unit>, start: nat, q: nat, ptr: nat, digits: nat, e: nat, eptr: nat)
    requires IsUnitSeq(us) && q == start + ptr && 1 <= ptr && q <= |us| && digits < 4
    requires e == q + (4 - digits) && eptr == ptr + (4 - digits)
    ensures var r := StringRun(us, start, Unicode(digits), ptr);
      r.outcome.Success? && start + r.step < |us| ==>
        e <= |us| && AllHex(us, q, e) && r == StringRun(us, start, PlainText, eptr)
    decreases 4 - digits, 1
  {
    if q < |us| {
      if !IsValidHexDigits(us[q]) {
        StopAt(us, start, Unicode(digits), q, ptr, us[q]);
      } else if digits == 3 {
        StepTo(us, start, Unicode(digits), q, ptr, us[q], PlainText);
      } else {
        HexDigitSound(us, start, q, ptr, digits, e, eptr);
      }
    }
  }

  /** The step of `HexSound` over a hex digit that is not the last. */
  lemma {:induction false} HexDigitSound(us: seq<Unit>, start: nat, q: nat, ptr: nat, digits: nat, e: nat, eptr: nat)
    requires IsUnitSeq(us) && q == start + ptr && 1 <= ptr && q < |us| && digits < 3
    requires e == q + (4 - digits) && eptr == ptr + (4 - digits)
    requires IsValidHexDigits(us[q])
    ensures var r := StringRun(us, start, Unicode(digits), ptr);
      r.outcome.Success? && start + r.step < |us| ==>
        e <= |us| && AllHex(us, q, e) && r == StringRun(us, start, PlainText, eptr)
    decreases 4 - digits, 0
  {
    StepTo(us, start, Unicode(digits), q, ptr, us[q], Unicode(digits + 1));
    HexSound(us, start, q + 1, ptr + 1, digits + 1, e, eptr);
  }

  /** A body grows by a plain unit in front. */
  lemma BodyAfterPlain(us: seq<Unit>, p: nat, e: nat)
    requires IsUnitSeq(us) && p < e <= |us|
    requires IsUnescaped(us[p]) && IsStringBody(us, p + 1, e)
    ensures IsStringBody(us, p, e)
  {
  }

  /** A body grows by a two-unit escape in front. */
  lemma BodyAfterEscape(us: seq<Unit>, p: nat, e: nat)
    requires IsUnitSeq(us) && p + 2 <= e <= |us|
    requires Is(us[p], ReverseSolidus) && IsEscapeChar(us[p + 1]) && IsStringBody(us, p + 2, e)
    ensures IsStringBody(us, p, e)
  {
  }

  /** A body grows by a six-unit `\u` escape in front. */
  lemma BodyAfterUnicode(us: seq<Unit>, p: nat, e: nat)
    requires IsUnitSeq(us) && p + 6 <= e <= |us|
    requires Is(us[p], ReverseSolidus) && Is(us[p + 1], LetterU)
    requires AllHex(us, p + 2, p + 6) && IsStringBody(us, p + 6, e)
    ensures IsStringBody(us, p, e)
  {
  }

  /** A string body from `p` to `e` is read in plain text without
      stopping. */
  lemma {:induction false} BodyRun(us: seq<Unit>, start: nat, p: nat, ptr: nat, e: nat, eptr: nat)
    requires IsUnitSeq(us) && p == start + ptr && 1 <= ptr && p <= e <= |us| && e == start + eptr
    requires IsStringBody(us, p, e)
    ensures StringRun(us, start, PlainText, ptr) == StringRun(us, start, PlainText, eptr)
    decreases e - p, 2
  {
    if p < e {
      if IsUnescaped(us[p]) {
        StepTo(us, start, PlainText, p, ptr, us[p], PlainText);
        BodyRun(us, start, p + 1, ptr + 1, e, eptr);
      } else {
        EscapedBodyRun(us, start, p, ptr, e, eptr);
      }
    }
  }

  /** A string body from `p` to `e` that starts with an escape is read in
      plain text without stopping. */
  lemma {:induction false} EscapedBodyRun(us: seq<Unit>, start: nat, p: nat, ptr: nat, e: nat, eptr: nat)
    requires IsUnitSeq(us) && p == start + ptr && 1 <= ptr && p < e <= |us| && e == start + eptr
    requires IsStringBody(us, p, e) && !IsUnescaped(us[p])
    ensures StringRun(us, start, PlainText, ptr) == StringRun(us, start, PlainText, eptr)
    decreases e - p, 1
  {
    if IsEscapeChar(us[p + 1]) {
      EscapeRun(us, start, p, ptr);
      BodyRun(us, start, p + 2, ptr + 2, e, eptr);
    } else {
      UnicodeBodyRun(us, start, p, ptr, e, eptr);
    }
  }

  /** A string body from `p` to `e` that starts with a `\u` escape is read
      in plain text without stopping. */
  lemma {:induction false} UnicodeBodyRun(us: seq<Unit>, start: nat, p: nat, ptr: nat, e: nat, eptr: nat)
    requires IsUnitSeq(us) && p == start + ptr && 1 <= ptr && p + 6 <= e <= |us| && e == start + eptr
    requires Is(us[p], ReverseSolidus) && Is(us[p + 1], LetterU)
    requires AllHex(us, p + 2, p + 6) && IsStringBody(us, p + 6, e)
    ensures StringRun(us, start, PlainText, ptr) == StringRun(us, start, PlainText, eptr)
    decreases e - p, 0
  {
    UnicodeEscapeRun(us, start, p, ptr);
    HexQuadRun(us, start, p + 2, ptr + 2);
    BodyRun(us, start, p + 6, ptr + 6, e, eptr);
  }

  /** Read from plain text at `p`, a string that closes before the end of
      the document has a body from `p` up to its closing quote. */
  lemma {:induction false} PlainSound(us: seq<Unit>, start: nat, p: nat, ptr: nat)
    requires IsUnitSeq(us) && p == start + ptr && 1 <= ptr && p <= |us|
    ensures var r := StringRun(us, start, PlainText, ptr);
      r.outcome.Success? && start + r.step < |us| ==>
        p < start + r.step && IsStringBody(us, p, start + r.step - 1)
    decreases |us| - p, 2
  {
    if p < |us| {
      if Is(us[p], Quote) {
        StopAt(us, start, PlainText, p, ptr, us[p]);
      } else if Is(us[p], ReverseSolidus) {
        EscapeSound(us, start, p, ptr);
      } else {
        StepTo(us, start, PlainText, p, ptr, us[p], PlainText);
        PlainSound(us, start, p + 1, ptr + 1);
        var r := StringRun(us, start, PlainText, ptr);
        if r.outcome.Success? && start + r.step < |us| {
          BodyAfterPlain(us, p, start + r.step - 1);
        }
      }
    }
  }

  /** The same for a reverse solidus at `p`. */
  lemma {:induction false} EscapeSound(us: seq<Unit>, start: nat, p: nat, ptr: nat)
    requires IsUnitSeq(us) && p == start + ptr && 1 <= ptr && p < |us|
    requires Is(us[p], ReverseSolidus)
    ensures var r := StringRun(us, start, PlainText, ptr);
      r.outcome.Success? && start + r.step < |us| ==>
        p < start + r.step && IsStringBody(us, p, start + r.step - 1)
    decreases |us| - p, 1
  {
    if p + 1 == |us| {
      EscapeAtEndRun(us, start, p, ptr);
    } else if IsEscapeChar(us[p + 1]) {
      SimpleEscapeSound(us, start, p, ptr);
    } else if Is(us[p + 1], LetterU) {
      UnicodeEscapeSound(us, start, p, ptr);
    } else {
      BadEscapeRun(us, start, p, ptr);
    }
  }

  /** The same for a two-unit escape at `p`. */
  lemma {:induction false} SimpleEscapeSound(us: seq<Unit>, start: nat, p: nat, ptr: nat)
    requires IsUnitSeq(us) && p == start + ptr && 1 <= ptr && p + 1 < |us|
    requires Is(us[p], ReverseSolidus) && IsEscapeChar(us[p + 1])
    ensures var r := StringRun(us, start, PlainText, ptr);
      r.outcome.Success? && start + r.step < |us| ==>
        p < start + r.step && IsStringBody(us, p, start + r.step - 1)
    decreases |us| - p, 0
  {
    var r := StringRun(us, start, PlainText, ptr);
    EscapeRun(us, start, p, ptr);
    PlainSound(us, start, p + 2, ptr + 2);
    if r.outcome.Success? && start + r.step < |us| {
      BodyAfterEscape(us, p, start + r.step - 1);
    }
  }

  /** The same for a `\u` escape at `p`. */
  lemma {:induction false} UnicodeEscapeSound(us: seq<Unit>, start: nat, p: nat, ptr: nat)
    requires IsUnitSeq(us) && p == start + ptr && 1 <= ptr && p + 1 < |us|
    requires Is(us[p], ReverseSolidus) && Is(us[p + 1], LetterU)
    ensures var r := StringRun(us, start, PlainText, ptr);
      r.outcome.Success? && start + r.step < |us| ==>
        p < start + r.step && IsStringBody(us, p, start + r.step - 1)
    decreases |us| - p, 0
  {
    var r := StringRun(us, start, PlainText, ptr);
    UnicodeEscapeRun(us, start, p, ptr);
    HexSound(us, start, p + 2, ptr + 2, 0, p + 6, ptr + 6);
    if r.outcome.Success? && start + r.step < |us| {
      PlainSound(us, start, p + 6, ptr + 6);
      BodyAfterUnicode(us, p, start + r.step - 1);
    }
  }

  // ---------------------------------------------------------------------
  // What the source promises about strings

  /** Every complete string is accepted, its closing quote consumed. */
  lemma AcceptsString(us: seq<Unit>, start: nat, n: nat)
    requires IsUnitSeq(us) && start < |us|
    requires IsStringSpan(us, start, n)
    ensures StringRun(us, start, Begin, 0) == Production(Success, n)
  {
    OpenRun(us, start);
    BodyRun(us, start, start + 1, 1, start + n - 1, n - 1);
    StopAt(us, start, PlainText, start + n - 1, n - 1, us[start + n - 1]);
  }

  /** A string accepted before the end of the document is a complete
      string; at the end of the document the last unit is a quote. */
  lemma AcceptedIsString(us: seq<Unit>, start: nat)
    requires IsUnitSeq(us) && start < |us|
    ensures var r := StringRun(us, start, Begin, 0);
      r.outcome.Success? ==>
        Is(us[start], Quote) && Is(us[start + r.step - 1], Quote) &&
        (IsStringSpan(us, start, r.step) || start + r.step == |us|)
  {
    OpenRun(us, start);
    if Is(us[start], Quote) {
      PlainSound(us, start, start + 1, 1);
    }
  }

  /** An escape that is neither a listed character nor `u` fails at the
      unit after the reverse solidus. */
  lemma InvalidEscapeAt(us: seq<Unit>, start: nat, p: nat)
    requires IsUnitSeq(us) && start < p && p + 1 < |us|
    requires Is(us[start], Quote) && IsStringBody(us, start + 1, p)
    requires Is(us[p], ReverseSolidus) && !IsEscapeChar(us[p + 1]) && !Is(us[p + 1], LetterU)
    ensures StringRun(us, start, Begin, 0) == Production(Failure(InvalidEscape(us[p + 1])), p + 1 - start)
  {
    OpenRun(us, start);
    BodyRun(us, start, start + 1, 1, p, p - start);
    BadEscapeRun(us, start, p, p - start);
  }

  /** In a `\u` escape, the first unit that is not a hex digit fails where
      it stands. */
  lemma InvalidUnicodeAt(us: seq<Unit>, start: nat, p: nat, k: nat)
    requires IsUnitSeq(us) && start < p && k < 4 && p + 2 + k < |us|
    requires Is(us[start], Quote) && IsStringBody(us, start + 1, p)
    requires Is(us[p], ReverseSolidus) && Is(us[p + 1], LetterU)
    requires AllHex(us, p + 2, p + 2 + k) && !IsValidHexDigits(us[p + 2 + k])
    ensures StringRun(us, start, Begin, 0) ==
              Production(Failure(InvalidUnicode(us[p + 2 + k])), p + 2 + k - start)
  {
    var ptr := p - start;
    OpenRun(us, start);
    BodyRun(us, start, start + 1, 1, p, ptr);
    BadUnicodeRun(us, start, p, ptr, k);
  }

  /** A `\u` escape at `p` whose digit `k` is not a hex digit fails at
      that digit. */
  lemma BadUnicodeRun(us: seq<Unit>, start: nat, p: nat, ptr: nat, k: nat)
    requires IsUnitSeq(us) && p == start + ptr && 1 <= ptr && k < 4 && p + 2 + k < |us|
    requires Is(us[p], ReverseSolidus) && Is(us[p + 1], LetterU)
    requires AllHex(us, p + 2, p + 2 + k) && !IsValidHexDigits(us[p + 2 + k])
    ensures StringRun(us, start, PlainText, ptr) ==
              Production(Failure(InvalidUnicode(us[p + 2 + k])), ptr + 2 + k)
  {
    UnicodeEscapeRun(us, start, p, ptr);
    HexDigitsRun(us, start, p + 2, ptr + 2, 0, k, p + 2 + k, ptr + 2 + k);
    StopAt(us, start, Unicode(k), p + 2 + k, ptr + 2 + k, us[p + 2 + k]);
  }

  /** A string whose body runs to the end of the document is not closed:
      the failure is reported at the offset of the last unit, counted from
      the start of the document rather than from the string. */
  lemma NotClosedAtEnd(us: seq<Unit>, start: nat)
    requires IsUnitSeq(us) && start + 1 < |us|
    requires Is(us[start], Quote) && IsStringBody(us, start + 1, |us|)
    requires !Is(us[|us| - 1], Quote)
    ensures StringRun(us, start, Begin, 0) == Production(Failure(StringNotClosed), |us| - 1)
  {
    OpenRun(us, start);
    BodyRun(us, start, start + 1, 1, |us|, |us| - start);
  }

  // ---------------------------------------------------------------------
  // Where the source departs from RFC 8259

  /** A lone quote as the last unit of the document is accepted as a
      string: the end of the document is reached in plain text and the last
      unit is a quote. */
  lemma AcceptsLoneQuote(us: seq<Unit>)
    requires IsUnitSeq(us) && |us| > 0 && Is(us[|us| - 1], Quote)
    ensures StringRun(us, |us| - 1, Begin, 0) == Production(Success, 1)
  {
    OpenRun(us, |us| - 1);
  }

  /** A string cut off after an escaped quote, `"a\"`, is accepted when it
      ends the document. */
  lemma AcceptsEscapedQuoteAtEnd(us: seq<Unit>, start: nat)
    requires IsUnitSeq(us) && start + 4 == |us|
    requires Is(us[start], Quote) && IsUnescaped(us[start + 1])
    requires Is(us[start + 2], ReverseSolidus) && Is(us[start + 3], Quote)
    ensures StringRun(us, start, Begin, 0) == Production(Success, 4)
  {
    OpenRun(us, start);
    StepTo(us, start, PlainText, start + 1, 1, us[start + 1], PlainText);
    EscapeRun(us, start, start + 2, 2);
  }

  /** Control characters are not rejected: a tab between quotes is
      accepted as a string. */
  lemma AcceptsControlCharacter(us: seq<Unit>, start: nat)
    requires IsUnitSeq(us) && start + 3 <= |us|
    requires Is(us[start], Quote) && Is(us[start + 1], Tab) && Is(us[start + 2], Quote)
    ensures StringRun(us, start, Begin, 0) == Production(Success, 3)
  {
    assert IsStringBody(us, start + 2, start + 2);
    AcceptsString(us, start, 3);
  }
}
