/** `validate_number` of src/validator.rs: a state machine over the units of
    a number. Each unit either moves the machine to a next state (and is
    consumed) or stops it with an outcome at the unit's offset, so the unit
    that ends a number is not consumed. Reaching the end of the document
    stops the machine with success in every state. */
module Numbers {
  import opened Utf8Reader
  import opened Tokens

  datatype NumberState =
    | Begin
    | LeadingMinus
    | LeadingZero
    | Integer
    | PendingFraction
    | Fraction
    | PendingExponent  // after `e` or `E`, before the sign or first digit
    | Exponent

  /** `is_valid_demical_number`: the unit's first character is a digit, and
      not `0` when `nonZero` is set. The source looks only at the first
      character, so a digit followed by combining marks counts as a digit. */
  predicate IsValidDecimalNumber(chr: Unit, nonZero: bool): (b: bool)
    requires |chr| > 0
    ensures |chr| == 1 ==> (b <==> IsDigitUnit(chr) && !(nonZero && Is(chr, Zero)))
    ensures b ==> !IsEndOfNumber(chr)
  {
    (0x31 <= chr[0] <= 0x39) || (chr[0] == 0x30 && !nonZero)
  }

  /** `is_end_of_number`: a unit that closes a number without being part
      of it. */
  predicate IsEndOfNumber(chr: Unit): (b: bool)
    ensures b <==> |chr| == 1 && chr[0] in {0x2C, 0x7D, 0x5D, 0x09, 0x0A, 0x0D, 0x20}
    ensures b ==> ValueTypeOf(chr) == Unknown
  {
    Is(chr, Comma) || Is(chr, RightBrace) || Is(chr, RightBracket) || IsInsignificantWhitespace(chr)
  }

  /** What the tests of `validate_number` can tell about a unit. The tests
      the source makes are exclusive, so each unit falls in one class. */
  datatype NumberUnit =
    | MinusSign
    | PlusSign
    | DecimalMark
    | ExponentMark      // `e` or `E`
    | ExactZero         // the unit `0`
    | ZeroLed           // a longer unit whose first character is `0`
    | NonZeroDigit      // a unit whose first character is `1` to `9`
    | Terminator        // `is_end_of_number`
    | Other

  /** The class of a unit, from the source's own tests. */
  function Classify(chr: Unit): (c: NumberUnit)
    requires |chr| > 0
    ensures c == MinusSign <==> Is(chr, Minus)
    ensures c == PlusSign <==> Is(chr, Plus)
    ensures c == DecimalMark <==> Is(chr, DecimalPoint)
    ensures c == ExponentMark <==> Is(chr, LowerE) || Is(chr, UpperE)
    ensures c == ExactZero <==> Is(chr, Zero)
    ensures c == NonZeroDigit <==> IsValidDecimalNumber(chr, true)
    ensures IsDigitClass(c) <==> IsValidDecimalNumber(chr, false)
    ensures c == Terminator <==> IsEndOfNumber(chr)
  {
    if Is(chr, Minus) then MinusSign
    else if Is(chr, Plus) then PlusSign
    else if Is(chr, DecimalPoint) then DecimalMark
    else if Is(chr, LowerE) || Is(chr, UpperE) then ExponentMark
    else if Is(chr, Zero) then ExactZero
    else if IsValidDecimalNumber(chr, true) then NonZeroDigit
    else if IsValidDecimalNumber(chr, false) then ZeroLed
    else if IsEndOfNumber(chr) then Terminator
    else Other
  }

  /** `is_valid_demical_number(chr, false)` on a class. */
  predicate IsDigitClass(c: NumberUnit)
  {
    c == ExactZero || c == ZeroLed || c == NonZeroDigit
  }

  /** The states in which a number may end. */
  predicate IsTerminal(state: NumberState)
  {
    state == LeadingZero || state == Integer || state == Fraction || state == Exponent
  }

  /** What one unit does to the machine: move on (the unit is consumed),
      or stop with success or with one of the source's number errors (the
      unit is not consumed). */
  datatype Move = Next(state: NumberState) | Accept | Reject(error: NumberError)

  /** One transition of `validate_number`: the arms of its `match state`,
      with each test of the source read off the unit's class. Only
      terminators end a number, only in a terminal state; only sign, digit,
      decimal point and exponent units are consumed; a decimal point leads
      to the state that demands a digit. */
  function NumberStep(state: NumberState, c: NumberUnit): (m: Move)
    ensures m.Next? ==> !m.state.Begin? && c != Terminator && c != Other
    ensures m.Accept? ==> c == Terminator && IsTerminal(state)
    ensures m.Next? && c == DecimalMark ==> m.state == PendingFraction
    ensures m.Next? && state == PendingFraction ==> IsDigitClass(c)
  {
    match state
    case Begin =>
      if c == MinusSign then Next(LeadingMinus)
      else if c == ExactZero then Next(LeadingZero)
      else if c == NonZeroDigit then Next(Integer)
      else Reject(NumberLeading)
    case LeadingMinus =>
      if c == ExactZero then Next(LeadingZero)
      else if c == NonZeroDigit then Next(Integer)
      else Reject(AfterLeadingMinus)
    case LeadingZero =>
      if c == DecimalMark then Next(PendingFraction)
      else if c == ExponentMark then Next(PendingExponent)
      else if IsDigitClass(c) then Reject(LeadingZeros)
      else if c == Terminator then Accept
      else Reject(AfterLeadingZero)
    case Integer =>
      if c == DecimalMark then Next(PendingFraction)
      else if c == ExponentMark then Next(PendingExponent)
      else if IsDigitClass(c) then Next(Integer)
      else if c == Terminator then Accept
      else Reject(IntegerPart)
    case PendingFraction =>
      if IsDigitClass(c) then Next(Fraction)
      else Reject(AfterDecimalPoint)
    case Fraction =>
      if c == ExponentMark then Next(PendingExponent)
      else if IsDigitClass(c) then Next(Fraction)
      else if c == Terminator then Accept
      else Reject(FractionPart)
    case PendingExponent =>
      if c == PlusSign || c == MinusSign then Next(Exponent)
      else if IsDigitClass(c) then Next(Exponent)
      else Reject(ExponentPart)
    case Exponent =>
      if IsDigitClass(c) then Next(Exponent)
      else if c == Terminator then Accept
      else Reject(ExponentPart)
  }

  /** The loop of `validate_number` over the document's units `us`, from
      `state` with `ptr` units consumed since `start`. */
  function NumberRun(us: seq<Unit>, start: nat, state: NumberState, ptr: nat): (p: Production)
    requires IsUnitSeq(us) && start < |us| && start + ptr <= |us|
    requires state.Begin? <==> ptr == 0
    ensures ptr <= p.step <= |us| - start
    ensures p.outcome.Success? ==> 1 <= p.step
    ensures p.outcome.Failure? ==> start + p.step < |us|
    decreases |us| - (start + ptr), 1
  {
    if start + ptr == |us| then Production(Success, ptr) else NumberAt(us, start, state, ptr)
  }

  /** One pass of the loop, at a unit of the document. */
  function NumberAt(us: seq<Unit>, start: nat, state: NumberState, ptr: nat): (p: Production)
    requires IsUnitSeq(us) && start < |us| && start + ptr < |us|
    requires state.Begin? <==> ptr == 0
    ensures ptr <= p.step <= |us| - start
    ensures p.outcome.Success? ==> 1 <= p.step
    ensures p.outcome.Failure? ==> start + p.step < |us|
    decreases |us| - (start + ptr), 0
  {
    var chr := us[start + ptr];
    match NumberStep(state, Classify(chr))
    case Accept => Production(Success, ptr)
    case Reject(error) => Production(Failure(NumberRejected(error, chr)), ptr)
    case Next(next) => NumberRun(us, start, next, ptr + 1)
  }

  /** `validate_number`. */
  method ValidateNumber(r: Reader, start: nat) returns (result: Outcome, step: nat)
    requires Valid(r) && start < Len(r)
    ensures Production(result, step) == NumberRun(Units(r), start, Begin, 0)
  {
    ghost var us := Units(r);
    assert IsUnitSeq(us);
    var len := Len(r);
    var state := Begin;
    var ptr := 0;
    ghost var total := NumberRun(us, start, Begin, 0);
    while start + ptr < len
      invariant start + ptr <= len
      invariant state.Begin? <==> ptr == 0
      invariant NumberRun(us, start, state, ptr) == total
      decreases len - (start + ptr)
    {
      var chr := Char(r, start + ptr);
      match NumberStep(state, Classify(chr)) {
        case Accept =>
          StopAt(us, start, state, ptr);
          return Success, ptr;
        case Reject(error) =>
          StopAt(us, start, state, ptr);
          return Failure(NumberRejected(error, chr)), ptr;
        case Next(next) =>
          StepTo(us, start, state, ptr, next);
          state := next;
          ptr := ptr + 1;
      }
    }
    return Success, ptr;
  }

  // ---------------------------------------------------------------------
  // The shape of every result

  /** One consumed unit: the machine moves on from `state` to `next`. */
  lemma StepTo(us: seq<Unit>, start: nat, state: NumberState, ptr: nat, next: NumberState)
    requires IsUnitSeq(us) && start + ptr < |us|
    requires state.Begin? <==> ptr == 0
    requires NumberStep(state, Classify(us[start + ptr])) == Next(next)
    ensures NumberRun(us, start, state, ptr) == NumberRun(us, start, next, ptr + 1)
  {
  }

  /** One unit that stops the machine: the run ends there, with success
      only before a terminator. */
  lemma StopAt(us: seq<Unit>, start: nat, state: NumberState, ptr: nat)
    requires IsUnitSeq(us) && start + ptr < |us|
    requires state.Begin? <==> ptr == 0
    requires !NumberStep(state, Classify(us[start + ptr])).Next?
    ensures var p := NumberRun(us, start, state, ptr);
      && p.step == ptr
      && (p.outcome.Success? <==> NumberStep(state, Classify(us[start + ptr])).Accept?)
      && (p.outcome.Success? ==> IsEndOfNumber(us[start + ptr]))
      && (p.outcome.Failure? ==>
            p.outcome.reason == NumberRejected(NumberStep(state, Classify(us[start + ptr])).error, us[start + ptr]))
  {
  }

  /** A success stops at the end of the document or just before a
      terminator, which is not consumed; a failure names the unit at which
      it stopped. */
  lemma {:induction false} NumberRunStops(us: seq<Unit>, start: nat, state: NumberState, ptr: nat)
    requires IsUnitSeq(us) && start < |us| && start + ptr <= |us|
    requires state.Begin? <==> ptr == 0
    ensures var p := NumberRun(us, start, state, ptr);
      && (p.outcome.Success? && start + p.step < |us| ==> IsEndOfNumber(us[start + p.step]))
      && (p.outcome.Failure? ==>
            p.outcome.reason.NumberRejected? && p.outcome.reason.found == us[start + p.step])
    decreases |us| - (start + ptr)
  {
    if start + ptr < |us| {
      var m := NumberStep(state, Classify(us[start + ptr]));
      if m.Next? {
        StepTo(us, start, state, ptr, m.state);
        NumberRunStops(us, start, m.state, ptr + 1);
      } else {
        StopAt(us, start, state, ptr);
      }
    }
  }

  /** A unit a number may consist of: a digit (by its first character), a
      sign, a decimal point or an exponent marker. */
  predicate IsNumberUnit(chr: Unit)
    requires |chr| > 0
  {
    IsValidDecimalNumber(chr, false) || Is(chr, Minus) || Is(chr, Plus) || Is(chr, DecimalPoint) ||
    Is(chr, LowerE) || Is(chr, UpperE)
  }

  /** Only number units are consumed. */
  lemma {:induction false} NumberRunConsumes(us: seq<Unit>, start: nat, state: NumberState, ptr: nat)
    requires IsUnitSeq(us) && start < |us| && start + ptr <= |us|
    requires state.Begin? <==> ptr == 0
    ensures var p := NumberRun(us, start, state, ptr);
      forall k :: start + ptr <= k < start + p.step ==> IsNumberUnit(us[k])
    decreases |us| - (start + ptr)
  {
    if start + ptr < |us| {
      var m := NumberStep(state, Classify(us[start + ptr]));
      if m.Next? {
        StepTo(us, start, state, ptr, m.state);
        NumberRunConsumes(us, start, m.state, ptr + 1);
      }
    }
  }

  /** A consumed decimal point is followed by a digit whenever anything
      after it was consumed. */
  lemma {:induction false} FractionHasDigit(us: seq<Unit>, start: nat, state: NumberState, ptr: nat)
    requires IsUnitSeq(us) && start < |us| && start + ptr <= |us|
    requires state.Begin? <==> ptr == 0
    ensures var p := NumberRun(us, start, state, ptr);
      && (forall k :: start + ptr <= k < start + p.step - 1 && Is(us[k], DecimalPoint) ==>
            IsValidDecimalNumber(us[k + 1], false))
      && (state == PendingFraction && ptr < p.step ==> IsValidDecimalNumber(us[start + ptr], false))
    decreases |us| - (start + ptr)
  {
    if start + ptr < |us| {
      var m := NumberStep(state, Classify(us[start + ptr]));
      if m.Next? {
        StepTo(us, start, state, ptr, m.state);
        FractionHasDigit(us, start, m.state, ptr + 1);
      }
    }
  }

  /** A number must start with `-` or a digit; otherwise it fails at its
      first unit. */
  lemma NumberLeadingRejected(us: seq<Unit>, start: nat)
    requires IsUnitSeq(us) && start < |us|
    requires !Is(us[start], Minus) && !IsValidDecimalNumber(us[start], true) && !Is(us[start], Zero)
    ensures NumberRun(us, start, Begin, 0) == Production(Failure(NumberRejected(NumberLeading, us[start])), 0)
  {
  }

  /** A leading `0`, possibly after `-`, may not be followed by another
      digit: the number fails at that digit. */
  lemma LeadingZerosRejected(us: seq<Unit>, start: nat)
    requires IsUnitSeq(us) && start < |us|
    ensures start + 1 < |us| && Is(us[start], Zero) && IsValidDecimalNumber(us[start + 1], false) ==>
              NumberRun(us, start, Begin, 0) == Production(Failure(NumberRejected(LeadingZeros, us[start + 1])), 1)
    ensures start + 2 < |us| && Is(us[start], Minus) && Is(us[start + 1], Zero) &&
            IsValidDecimalNumber(us[start + 2], false) ==>
              NumberRun(us, start, Begin, 0) == Production(Failure(NumberRejected(LeadingZeros, us[start + 2])), 2)
  {
    if start + 1 < |us| && Is(us[start], Zero) {
      StepTo(us, start, Begin, 0, LeadingZero);
    }
    if start + 2 < |us| && Is(us[start], Minus) && Is(us[start + 1], Zero) {
      StepTo(us, start, Begin, 0, LeadingMinus);
      StepTo(us, start, LeadingMinus, 1, LeadingZero);
    }
  }

  // ---------------------------------------------------------------------
  // Every number of RFC 8259, section 6, followed by a terminator or the end
  // of the document, is accepted whole.

  predicate AllDigits(s: seq<Unit>)
  {
    forall k :: 0 <= k < |s| ==> IsDigitUnit(s[k])
  }

  /** `minus`: empty or a single `-`. */
  predicate IsMinusPart(s: seq<Unit>)
  {
    s == [] || (|s| == 1 && Is(s[0], Minus))
  }

  /** `int = zero / ( digit1-9 *DIGIT )`. */
  predicate IsIntPart(s: seq<Unit>)
  {
    |s| > 0 && IsDigitUnit(s[0]) && AllDigits(s[1..]) && (Is(s[0], Zero) ==> |s| == 1)
  }

  /** `frac = decimal-point 1*DIGIT`, optional. */
  predicate IsFracPart(s: seq<Unit>)
  {
    s == [] || (|s| >= 2 && Is(s[0], DecimalPoint) && AllDigits(s[1..]))
  }

  /** `exp = e [ minus / plus ] 1*DIGIT`, optional. */
  predicate IsExpPart(s: seq<Unit>)
  {
    s == [] ||
    (|s| >= 2 && (Is(s[0], LowerE) || Is(s[0], UpperE)) &&
     if Is(s[1], Plus) || Is(s[1], Minus) then |s| >= 3 && AllDigits(s[2..]) else AllDigits(s[1..]))
  }

  /** A number is closed at `pos` when the document ends there or a
      terminator follows. */
  predicate ClosedAt(us: seq<Unit>, pos: nat)
  {
    pos == |us| || (pos < |us| && IsEndOfNumber(us[pos]))
  }

  /** A terminal state at a closing position ends the number there. */
  lemma Finish(us: seq<Unit>, start: nat, state: NumberState, ptr: nat)
    requires IsUnitSeq(us) && start < |us| && start + ptr <= |us| && ptr > 0
    requires IsTerminal(state) && ClosedAt(us, start + ptr)
    ensures NumberRun(us, start, state, ptr) == Production(Success, ptr)
  {
  }

  /** A run of digits keeps the Integer, Fraction and Exponent states. */
  lemma {:induction false} DigitsKeep(us: seq<Unit>, start: nat, state: NumberState, ptr: nat, end: nat)
    requires IsUnitSeq(us) && start < |us| && 0 < ptr <= end && start + end <= |us|
    requires state == Integer || state == Fraction || state == Exponent
    requires forall k :: start + ptr <= k < start + end ==> IsDigitUnit(us[k])
    ensures NumberRun(us, start, state, ptr) == NumberRun(us, start, state, end)
    decreases end - ptr
  {
    if ptr < end {
      StepTo(us, start, state, ptr, state);
      DigitsKeep(us, start, state, ptr + 1, end);
    }
  }

  /** The units spelling the digits of `s` from `from` on are digits. */
  lemma SpelledDigits(us: seq<Unit>, pos: nat, s: seq<Unit>, from: nat)
    requires Spells(us, pos, s) && from <= |s| && AllDigits(s[from..])
    ensures forall k :: pos + from <= k < pos + |s| ==> IsDigitUnit(us[k])
  {
    forall k | pos + from <= k < pos + |s| ensures IsDigitUnit(us[k]) {
      SpellsAt(us, pos, s, k - pos);
      assert s[k - pos] == s[from..][k - pos - from];
    }
  }

  /** An exponent part, then the close, from a state after the integer or
      fraction part. */
  lemma AcceptsExp(us: seq<Unit>, start: nat, state: NumberState, ptr: nat, e: seq<Unit>, end: nat)
    requires IsUnitSeq(us) && start < |us| && ptr > 0 && end == ptr + |e|
    requires state == LeadingZero || state == Integer || state == Fraction
    requires IsExpPart(e) && Spells(us, start + ptr, e)
    requires ClosedAt(us, start + end)
    ensures NumberRun(us, start, state, ptr) == Production(Success, end)
  {
    if e == [] {
      Finish(us, start, state, ptr);
    } else {
      SpellsAt(us, start + ptr, e, 0);
      SpellsAt(us, start + ptr, e, 1);
      StepTo(us, start, state, ptr, PendingExponent);
      StepTo(us, start, PendingExponent, ptr + 1, Exponent);
      if Is(e[1], Plus) || Is(e[1], Minus) {
        SpelledDigits(us, start + ptr, e, 2);
      } else {
        SpelledDigits(us, start + ptr, e, 1);
      }
      DigitsKeep(us, start, Exponent, ptr + 2, end);
      Finish(us, start, Exponent, end);
    }
  }

  /** A fraction part, an exponent part, then the close, from a state after
      the integer part. */
  lemma AcceptsFracExp(us: seq<Unit>, start: nat, state: NumberState, ptr: nat,
                       f: seq<Unit>, e: seq<Unit>, fracEnd: nat, end: nat)
    requires IsUnitSeq(us) && start < |us| && ptr > 0
    requires fracEnd == ptr + |f| && end == fracEnd + |e|
    requires state == LeadingZero || state == Integer
    requires IsFracPart(f) && IsExpPart(e)
    requires Spells(us, start + ptr, f) && Spells(us, start + fracEnd, e)
    requires ClosedAt(us, start + end)
    ensures NumberRun(us, start, state, ptr) == Production(Success, end)
  {
    if f == [] {
      AcceptsExp(us, start, state, ptr, e, end);
    } else {
      SpellsAt(us, start + ptr, f, 0);
      SpellsAt(us, start + ptr, f, 1);
      StepTo(us, start, state, ptr, PendingFraction);
      StepTo(us, start, PendingFraction, ptr + 1, Fraction);
      SpelledDigits(us, start + ptr, f, 1);
      DigitsKeep(us, start, Fraction, ptr + 2, fracEnd);
      AcceptsExp(us, start, Fraction, fracEnd, e, end);
    }
  }

  /** The sign and integer part of a number: the machine ends up in
      LeadingZero after `0` and in Integer after any other integer part. */
  lemma AcceptsInt(us: seq<Unit>, start: nat, m: seq<Unit>, i: seq<Unit>, intState: NumberState, intEnd: nat)
    requires IsUnitSeq(us) && start < |us| && intEnd == |m| + |i|
    requires IsMinusPart(m) && IsIntPart(i)
    requires intState == if Is(i[0], Zero) then LeadingZero else Integer
    requires Spells(us, start, m) && Spells(us, start + |m|, i)
    ensures start + intEnd <= |us|
    ensures NumberRun(us, start, Begin, 0) == NumberRun(us, start, intState, intEnd)
  {
    SpellsAt(us, start + |m|, i, 0);
    if m == [] {
      StepTo(us, start, Begin, 0, intState);
    } else {
      SpellsAt(us, start, m, 0);
      StepTo(us, start, Begin, 0, LeadingMinus);
      StepTo(us, start, LeadingMinus, 1, intState);
    }
    if intState == Integer {
      SpelledDigits(us, start + |m|, i, 1);
      DigitsKeep(us, start, Integer, |m| + 1, intEnd);
    }
  }

  /** Grammar fidelity, accepting direction: a number written as RFC 8259,
      section 6, defines it, closed by a terminator or the end of the
      document, is accepted with all its units consumed. */
  lemma AcceptsRfcNumber(us: seq<Unit>, start: nat, m: seq<Unit>, i: seq<Unit>, f: seq<Unit>, e: seq<Unit>)
    requires IsUnitSeq(us) && start < |us|
    requires IsMinusPart(m) && IsIntPart(i) && IsFracPart(f) && IsExpPart(e)
    requires Spells(us, start, m) && Spells(us, start + |m|, i)
    requires Spells(us, start + |m| + |i|, f) && Spells(us, start + |m| + |i| + |f|, e)
    requires ClosedAt(us, start + |m| + |i| + |f| + |e|)
    ensures NumberRun(us, start, Begin, 0) == Production(Success, |m| + |i| + |f| + |e|)
  {
    var intState := if Is(i[0], Zero) then LeadingZero else Integer;
    var intEnd := |m| + |i|;
    AcceptsInt(us, start, m, i, intState, intEnd);
    AcceptsFracExp(us, start, intState, intEnd, f, e, intEnd + |f|, intEnd + |f| + |e|);
  }

  // ---------------------------------------------------------------------
  // Where the machine accepts more than RFC 8259

  /** `1.` at the end of the document is accepted: reaching the end stops
      the machine with success even right after the decimal point. */
  lemma AcceptsDanglingDecimalPointAtEnd(us: seq<Unit>, start: nat)
    requires IsUnitSeq(us) && start + 2 == |us|
    requires IsDigitUnit(us[start]) && !Is(us[start], Zero)
    requires Is(us[start + 1], DecimalPoint)
    ensures NumberRun(us, start, Begin, 0) == Production(Success, 2)
  {
    StepTo(us, start, Begin, 0, Integer);
    StepTo(us, start, Integer, 1, PendingFraction);
  }

  /** `1e+,` is accepted as the number `1e+`: an exponent sign moves straight
      to the Exponent state, where a terminator ends the number. */
  lemma AcceptsExponentSignWithoutDigits(us: seq<Unit>, start: nat)
    requires IsUnitSeq(us) && start + 3 < |us|
    requires IsDigitUnit(us[start]) && !Is(us[start], Zero)
    requires Is(us[start + 1], LowerE) && Is(us[start + 2], Plus)
    requires Is(us[start + 3], Comma)
    ensures NumberRun(us, start, Begin, 0) == Production(Success, 3)
  {
    StepTo(us, start, Begin, 0, Integer);
    StepTo(us, start, Integer, 1, PendingExponent);
    StepTo(us, start, PendingExponent, 2, Exponent);
  }

  /** A lone `-` at the end of the document is accepted: the end stops the
      machine with success right after the sign. */
  lemma AcceptsLoneMinusAtEnd(us: seq<Unit>, start: nat)
    requires IsUnitSeq(us) && start + 1 == |us| && Is(us[start], Minus)
    ensures NumberRun(us, start, Begin, 0) == Production(Success, 1)
  {
    StepTo(us, start, Begin, 0, LeadingMinus);
  }
}
