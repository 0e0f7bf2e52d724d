/** The structural productions of src/validator.rs: `validate_object`,
    `validate_array`, the dispatch `validate_json_value` and the top-level
    loop `validate`. Objects and arrays are state machines over the units of
    the document that call back into the dispatch for every nested value, so
    the specification is a family of mutually recursive functions over the
    document's units, and each method of the source is proved to compute
    exactly what its function says. */
module Validator {
  import opened Utf8Reader
  import opened Tokens
  import opened Literals
  import Numbers
  import Strings

  /** The states of `validate_object`. */
  datatype ObjectState = ObjectOpen | Key | PendingValue | MemberValue | PendingKey

  /** The states of `validate_array`. */
  datatype ArrayState = ArrayOpen | Element | PendingElement

  /** What `validate` reports: acceptance, or the position it prints in
      "Validation Error @ 1:<position>" together with the reason. */
  datatype Verdict = Accepted | Rejected(position: nat, reason: Reason)

  // ---------------------------------------------------------------------
  // Specification: the productions over the document's units `us`.
  //
  // Recursion goes through the dispatch at the same position as the caller
  // when a value starts, so each call at the same position is ranked below
  // its caller: a container's unit in its opening state (0), the container
  // (1), the dispatch by type (2), the dispatch (3), a nested production in
  // a container (4), a container's unit past its opener (5) and the
  // container past its opener (6).

  /** `validate_json_value` at position `i`: dispatch on the type
      `get_next_json_value_type` reads off the unit there. */
  function ValueRun(us: seq<Unit>, i: nat): (p: Production)
    requires IsUnitSeq(us) && i < |us|
    ensures p.outcome.Success? ==> 1 <= p.step <= |us| - i
    decreases |us| - i, 3
  {
    ValueOfType(us, i, ValueTypeOf(us[i]))
  }

  /** The arms of `validate_json_value` for a value of type `t`. */
  function ValueOfType(us: seq<Unit>, i: nat, t: JsonValue): (p: Production)
    requires IsUnitSeq(us) && i < |us| && t == ValueTypeOf(us[i])
    ensures p.outcome.Success? ==> 1 <= p.step <= |us| - i
    decreases |us| - i, 2
  {
    match t
    case Object => ObjectRun(us, i, ObjectOpen, 0)
    case Array => ArrayRun(us, i, ArrayOpen, 0)
    case Number => Numbers.NumberRun(us, i, Numbers.Begin, 0)
    case String => Strings.StringRun(us, i, Strings.Begin, 0)
    case True => MatchLiteral(us, i, TrueName)
    case False => MatchLiteral(us, i, FalseName)
    case Null => MatchLiteral(us, i, NullName)
    case Unknown =>
      if IsInsignificantWhitespace(us[i]) then Production(Success, 1)
      else Production(Failure(UnknownCharacter(us[i])), 1)
  }

  /** The end of the document inside an object or an array: success with
      the units read so far when the document's last unit is the closer,
      otherwise a failure at the offset of the last unit of the whole
      document (not relative to the container). */
  function EndOfContainer(us: seq<Unit>, closer: byte, ptr: nat, notClosed: Reason): (p: Production)
    requires |us| > 0
    ensures p.outcome.Success? <==> Is(us[|us| - 1], closer)
    ensures p.outcome.Success? ==> p.step == ptr
    ensures p.outcome.Failure? ==> p == Production(Failure(notClosed), |us| - 1)
  {
    if !Is(us[|us| - 1], closer) then Production(Failure(notClosed), |us| - 1)
    else Production(Success, ptr)
  }

  /** What one unit does to an object or array machine that is not inside
      a nested value: move on to a state, close the container (consuming
      the closer), refuse the unit, or start a nested key or value there. */
  datatype Move<S> = Skip(next: S) | Close | Refuse(reason: Reason) | Nest(after: S)

  /** The arms of the `match state` of `validate_object` for one unit. */
  function ObjectStep(state: ObjectState, chr: Unit): (m: Move<ObjectState>)
    ensures m.Close? <==> Is(chr, RightBrace) && (state == Key || state == PendingKey)
    ensures m.Nest? <==>
              (state == Key && Is(chr, Quote)) || (state == MemberValue && !IsInsignificantWhitespace(chr))
    ensures m.Skip? ==> m.next != ObjectOpen
  {
    match state
    case ObjectOpen =>
      if !Is(chr, LeftBrace) then Refuse(ObjectStart) else Skip(Key)
    case Key =>
      if Is(chr, RightBrace) then Close
      else if IsInsignificantWhitespace(chr) then Skip(Key)
      else if !Is(chr, Quote) then Refuse(ObjectKeyStart)
      else Nest(PendingValue)
    case PendingValue =>
      if Is(chr, Colon) then Skip(MemberValue)
      else if IsInsignificantWhitespace(chr) then Skip(PendingValue)
      else Refuse(AfterObjectKey(chr))
    case MemberValue =>
      if IsInsignificantWhitespace(chr) then Skip(MemberValue) else Nest(PendingKey)
    case PendingKey =>
      if Is(chr, RightBrace) then Close
      else if Is(chr, Comma) then Skip(Key)
      else if IsInsignificantWhitespace(chr) then Skip(PendingKey)
      else Refuse(AfterObjectValue(chr))
  }

  /** The arms of the `match state` of `validate_array` for one unit. */
  function ArrayStep(state: ArrayState, chr: Unit): (m: Move<ArrayState>)
    ensures m.Close? <==> Is(chr, RightBracket) && state != ArrayOpen
    ensures m.Nest? <==>
              state == Element && !Is(chr, RightBracket) && !IsInsignificantWhitespace(chr)
    ensures m.Skip? ==> m.next != ArrayOpen
  {
    match state
    case ArrayOpen =>
      if !Is(chr, LeftBracket) then Refuse(ArrayStart) else Skip(Element)
    case Element =>
      if Is(chr, RightBracket) then Close
      else if IsInsignificantWhitespace(chr) then Skip(Element)
      else Nest(PendingElement)
    case PendingElement =>
      if Is(chr, RightBracket) then Close
      else if Is(chr, Comma) then Skip(Element)
      else if IsInsignificantWhitespace(chr) then Skip(PendingElement)
      else Refuse(AfterArrayValue(chr))
  }

  /** The loop of `validate_object` from `state`, with `ptr` units consumed
      since `start`: the end of the document, or one more unit. */
  function ObjectRun(us: seq<Unit>, start: nat, state: ObjectState, ptr: nat): (p: Production)
    requires IsUnitSeq(us) && start < |us| && start + ptr <= |us|
    requires state == ObjectOpen <==> ptr == 0
    ensures p.outcome.Success? ==> 1 <= p.step <= |us| - start
    decreases |us| - (start + ptr), if state == ObjectOpen then 1 else 6
  {
    if start + ptr == |us| then EndOfContainer(us, RightBrace, ptr, ObjectNotClosed)
    else ObjectUnit(us, start, state, ptr)
  }

  /** One pass of the loop of `validate_object` over the unit at
      `start + ptr`. */
  function ObjectUnit(us: seq<Unit>, start: nat, state: ObjectState, ptr: nat): (p: Production)
    requires IsUnitSeq(us) && start < |us| && start + ptr < |us|
    requires state == ObjectOpen <==> ptr == 0
    ensures p.outcome.Success? ==> 1 <= p.step <= |us| - start
    decreases |us| - (start + ptr), if state == ObjectOpen then 0 else 5
  {
    match ObjectStep(state, us[start + ptr])
    case Close => Production(Success, ptr + 1)
    case Refuse(reason) => Production(Failure(reason), ptr)
    case Skip(next) => ObjectRun(us, start, next, ptr + 1)
    case Nest(after) => ObjectNested(us, start, state, ptr, after)
  }

  /** A key (read by `validate_string`) or a member value (read by
      `validate_json_value`) at `start + ptr`: its step is added to `ptr`,
      and its failure is the object's failure. */
  function ObjectNested(us: seq<Unit>, start: nat, state: ObjectState, ptr: nat, after: ObjectState): (p: Production)
    requires IsUnitSeq(us) && start < |us| && start + ptr < |us|
    requires ptr > 0 && state != ObjectOpen && after != ObjectOpen
    ensures p.outcome.Success? ==> 1 <= p.step <= |us| - start
    decreases |us| - (start + ptr), 4
  {
    var index := start + ptr;
    var nested := if state == Key then Strings.StringRun(us, index, Strings.Begin, 0)
                  else ValueRun(us, index);
    if nested.outcome.Success? then ObjectRun(us, start, after, ptr + nested.step)
    else Production(nested.outcome, ptr + nested.step)
  }

  /** The loop of `validate_array` from `state`, with `ptr` units consumed
      since `start`: the end of the document, or one more unit. */
  function ArrayRun(us: seq<Unit>, start: nat, state: ArrayState, ptr: nat): (p: Production)
    requires IsUnitSeq(us) && start < |us| && start + ptr <= |us|
    requires state == ArrayOpen <==> ptr == 0
    ensures p.outcome.Success? ==> 1 <= p.step <= |us| - start
    decreases |us| - (start + ptr), if state == ArrayOpen then 1 else 6
  {
    if start + ptr == |us| then EndOfContainer(us, RightBracket, ptr, ArrayNotClosed)
    else ArrayUnit(us, start, state, ptr)
  }

  /** One pass of the loop of `validate_array` over the unit at
      `start + ptr`. */
  function ArrayUnit(us: seq<Unit>, start: nat, state: ArrayState, ptr: nat): (p: Production)
    requires IsUnitSeq(us) && start < |us| && start + ptr < |us|
    requires state == ArrayOpen <==> ptr == 0
    ensures p.outcome.Success? ==> 1 <= p.step <= |us| - start
    decreases |us| - (start + ptr), if state == ArrayOpen then 0 else 5
  {
    match ArrayStep(state, us[start + ptr])
    case Close => Production(Success, ptr + 1)
    case Refuse(reason) => Production(Failure(reason), ptr)
    case Skip(next) => ArrayRun(us, start, next, ptr + 1)
    case Nest(after) => ArrayNested(us, start, ptr, after)
  }

  /** A value at `start + ptr`, read by `validate_json_value`. */
  function ArrayNested(us: seq<Unit>, start: nat, ptr: nat, after: ArrayState): (p: Production)
    requires IsUnitSeq(us) && start < |us| && start + ptr < |us|
    requires ptr > 0 && after != ArrayOpen
    ensures p.outcome.Success? ==> 1 <= p.step <= |us| - start
    decreases |us| - (start + ptr), 4
  {
    var value := ValueRun(us, start + ptr);
    if value.outcome.Success? then ArrayRun(us, start, after, ptr + value.step)
    else Production(value.outcome, ptr + value.step)
  }

  /** The loop of `validate` from position `i`: dispatch a value, add its
      step, and stop at the first failure, reporting one past the summed
      position. */
  function DocumentRun(us: seq<Unit>, i: nat): (v: Verdict)
    requires IsUnitSeq(us) && i <= |us|
    ensures v.Rejected? ==> i < |us| && i < v.position
    decreases |us| - i
  {
    if i == |us| then Accepted
    else
      var value := ValueRun(us, i);
      if value.outcome.Failure? then Rejected(i + value.step + 1, value.outcome.reason)
      else DocumentRun(us, i + value.step)
  }

  // ---------------------------------------------------------------------
  // Single steps of the runs, each stated at a position `i` of the
  // document together with the matching count `ptr` of units consumed

  /** One unit moves the object machine on without nesting. */
  lemma ObjectSkipTo(us: seq<Unit>, start: nat, state: ObjectState, i: nat, ptr: nat, chr: Unit, next: ObjectState)
    requires IsUnitSeq(us) && i == start + ptr && i < |us| && chr == us[i]
    requires state == ObjectOpen <==> ptr == 0
    requires ObjectStep(state, chr) == Skip(next)
    ensures ObjectRun(us, start, state, ptr) == ObjectRun(us, start, next, ptr + 1)
  {
  }

  /** One unit closes the object or is refused. */
  lemma ObjectStopAt(us: seq<Unit>, start: nat, state: ObjectState, i: nat, ptr: nat, chr: Unit)
    requires IsUnitSeq(us) && i == start + ptr && i < |us| && chr == us[i]
    requires state == ObjectOpen <==> ptr == 0
    requires ObjectStep(state, chr).Close? || ObjectStep(state, chr).Refuse?
    ensures ObjectRun(us, start, state, ptr) ==
              if ObjectStep(state, chr).Close? then Production(Success, ptr + 1)
              else Production(Failure(ObjectStep(state, chr).reason), ptr)
  {
  }

  /** A key starts at `i`; `key` is the string production there. */
  lemma ObjectKeyAt(us: seq<Unit>, start: nat, i: nat, ptr: nat, chr: Unit, key: Production)
    requires IsUnitSeq(us) && i == start + ptr && i < |us| && chr == us[i] && ptr > 0
    requires ObjectStep(Key, chr).Nest?
    requires key == Strings.StringRun(us, i, Strings.Begin, 0)
    ensures ObjectStep(Key, chr) == Nest(PendingValue)
    ensures key.outcome.Success? ==>
              1 <= key.step && i + key.step <= |us| &&
              ObjectRun(us, start, Key, ptr) == ObjectRun(us, start, PendingValue, ptr + key.step)
    ensures key.outcome.Failure? ==>
              ObjectRun(us, start, Key, ptr) == Production(key.outcome, ptr + key.step)
  {
    assert ObjectRun(us, start, Key, ptr) == ObjectNested(us, start, Key, ptr, PendingValue);
  }

  /** A member value starts at `i`; `value` is its production. */
  lemma ObjectValueAt(us: seq<Unit>, start: nat, i: nat, ptr: nat, chr: Unit, value: Production)
    requires IsUnitSeq(us) && i == start + ptr && i < |us| && chr == us[i] && ptr > 0
    requires ObjectStep(MemberValue, chr).Nest?
    requires value == ValueRun(us, i)
    ensures ObjectStep(MemberValue, chr) == Nest(PendingKey)
    ensures value.outcome.Success? ==>
              1 <= value.step && i + value.step <= |us| &&
              ObjectRun(us, start, MemberValue, ptr) == ObjectRun(us, start, PendingKey, ptr + value.step)
    ensures value.outcome.Failure? ==>
              ObjectRun(us, start, MemberValue, ptr) == Production(value.outcome, ptr + value.step)
  {
    assert ObjectRun(us, start, MemberValue, ptr) == ObjectNested(us, start, MemberValue, ptr, PendingKey);
  }

  /** The end of the document inside an object. */
  lemma ObjectEnd(us: seq<Unit>, start: nat, state: ObjectState, ptr: nat)
    requires IsUnitSeq(us) && start < |us| && start + ptr == |us|
    requires state == ObjectOpen <==> ptr == 0
    ensures ObjectRun(us, start, state, ptr) == EndOfContainer(us, RightBrace, ptr, ObjectNotClosed)
  {
  }

  /** One unit moves the array machine on without nesting. */
  lemma ArraySkipTo(us: seq<Unit>, start: nat, state: ArrayState, i: nat, ptr: nat, chr: Unit, next: ArrayState)
    requires IsUnitSeq(us) && i == start + ptr && i < |us| && chr == us[i]
    requires state == ArrayOpen <==> ptr == 0
    requires ArrayStep(state, chr) == Skip(next)
    ensures ArrayRun(us, start, state, ptr) == ArrayRun(us, start, next, ptr + 1)
  {
  }

  /** One unit closes the array or is refused. */
  lemma ArrayStopAt(us: seq<Unit>, start: nat, state: ArrayState, i: nat, ptr: nat, chr: Unit)
    requires IsUnitSeq(us) && i == start + ptr && i < |us| && chr == us[i]
    requires state == ArrayOpen <==> ptr == 0
    requires ArrayStep(state, chr).Close? || ArrayStep(state, chr).Refuse?
    ensures ArrayRun(us, start, state, ptr) ==
              if ArrayStep(state, chr).Close? then Production(Success, ptr + 1)
              else Production(Failure(ArrayStep(state, chr).reason), ptr)
  {
  }

  /** A value starts at `i`; `nested` is its production. */
  lemma ArrayNestAt(us: seq<Unit>, start: nat, state: ArrayState, i: nat, ptr: nat, chr: Unit, nested: Production)
    requires IsUnitSeq(us) && i == start + ptr && i < |us| && chr == us[i]
    requires state == ArrayOpen <==> ptr == 0
    requires ArrayStep(state, chr).Nest?
    requires nested == ValueRun(us, i)
    ensures nested.outcome.Success? ==> 1 <= nested.step && i + nested.step <= |us|
    ensures nested.outcome.Success? ==>
              ArrayRun(us, start, state, ptr) == ArrayRun(us, start, ArrayStep(state, chr).after, ptr + nested.step)
    ensures nested.outcome.Failure? ==>
              ArrayRun(us, start, state, ptr) == Production(nested.outcome, ptr + nested.step)
  {
    assert ArrayRun(us, start, state, ptr) == ArrayNested(us, start, ptr, ArrayStep(state, chr).after);
  }

  /** The end of the document inside an array. */
  lemma ArrayEnd(us: seq<Unit>, start: nat, state: ArrayState, ptr: nat)
    requires IsUnitSeq(us) && start < |us| && start + ptr == |us|
    requires state == ArrayOpen <==> ptr == 0
    ensures ArrayRun(us, start, state, ptr) == EndOfContainer(us, RightBracket, ptr, ArrayNotClosed)
  {
  }

  /** One value of the document: the next one, or the verdict. */
  lemma DocumentStep(us: seq<Unit>, i: nat, value: Production)
    requires IsUnitSeq(us) && i < |us| && value == ValueRun(us, i)
    ensures value.outcome.Success? ==> 1 <= value.step && i + value.step <= |us|
    ensures DocumentRun(us, i) ==
              if value.outcome.Failure? then Rejected(i + value.step + 1, value.outcome.reason)
              else DocumentRun(us, i + value.step)
  {
  }

  // ---------------------------------------------------------------------
  // The methods of the source, proved against the specification

  /** `validate`. */
  method Validate(r: Reader) returns (v: Verdict)
    requires Valid(r)
    ensures v == DocumentRun(Units(r), 0)
  {
    ghost var us := Units(r);
    assert IsUnitSeq(us);
    var length := Len(r);
    var i := 0;
    ghost var total := DocumentRun(us, 0);
    while i < length
      invariant i <= length
      invariant DocumentRun(us, i) == total
      decreases length - i
    {
      var result, step := ValidateJsonValue(r, i);
      DocumentStep(us, i, Production(result, step));
      i := i + step;
      if result.Failure? {
        return Rejected(i + 1, result.reason);
      }
    }
    return Accepted;
  }

  /** `validate_json_value`. */
  method ValidateJsonValue(r: Reader, index: nat) returns (result: Outcome, step: nat)
    requires Valid(r) && index < Len(r)
    ensures Production(result, step) == ValueRun(Units(r), index)
    decreases Len(r) - index, 1
  {
    match NextValueType(r, index)
    case Object =>
      result, step := ValidateObject(r, index);
    case Array =>
      result, step := ValidateArray(r, index);
    case Number =>
      result, step := Numbers.ValidateNumber(r, index);
    case String =>
      result, step := Strings.ValidateString(r, index);
    case True =>
      var p := ValidateTrue(r, index);
      result, step := p.outcome, p.step;
    case False =>
      var p := ValidateFalse(r, index);
      result, step := p.outcome, p.step;
    case Null =>
      var p := ValidateNull(r, index);
      result, step := p.outcome, p.step;
    case Unknown =>
      var chr := Char(r, index);
      if IsInsignificantWhitespace(chr) {
        result, step := Success, 1;
      } else {
        result, step := Failure(UnknownCharacter(chr)), 1;
      }
  }

  /** `validate_object`: the loop reads one unit per pass and acts as
      `ObjectStep` says; a nested key or value is read by its own
      production and its step added to `ptr`. */
  method ValidateObject(r: Reader, start: nat) returns (result: Outcome, step: nat)
    requires Valid(r) && start < Len(r)
    ensures Production(result, step) == ObjectRun(Units(r), start, ObjectOpen, 0)
    decreases Len(r) - start, 0
  {
    ghost var us := Units(r);
    assert IsUnitSeq(us);
    var len := Len(r);
    var state := ObjectOpen;
    var ptr := 0;
    ghost var total := ObjectRun(us, start, ObjectOpen, 0);
    while start + ptr < len
      invariant start + ptr <= len
      invariant state == ObjectOpen <==> ptr == 0
      invariant ObjectRun(us, start, state, ptr) == total
      decreases len - (start + ptr)
    {
      var chr := Char(r, start + ptr);
      match ObjectStep(state, chr) {
        case Close =>
          ObjectStopAt(us, start, state, start + ptr, ptr, chr);
          return Success, ptr + 1;
        case Refuse(reason) =>
          ObjectStopAt(us, start, state, start + ptr, ptr, chr);
          return Failure(reason), ptr;
        case Skip(next) =>
          ObjectSkipTo(us, start, state, start + ptr, ptr, chr, next);
          state := next;
          ptr := ptr + 1;
        case Nest(after) =>
          var nestedResult, nestedStep := ValidateMember(r, start, state, ptr, chr);
          ptr := ptr + nestedStep;
          if nestedResult.Failure? {
            return nestedResult, ptr;
          }
          state := after;
      }
    }
    ObjectEnd(us, start, state, ptr);
    var tail := Tail(r);
    if !Is(tail, RightBrace) {
      return Failure(ObjectNotClosed), len - 1;
    }
    return Success, ptr;
  }

  /** The nesting arm of `validate_object`'s loop: a key is handed to
      `validate_string`, a member value to `validate_json_value`, and the
      object goes on after what they consumed or fails with their error. */
  method ValidateMember(r: Reader, start: nat, state: ObjectState, ptr: nat, chr: Unit)
    returns (result: Outcome, step: nat)
    requires Valid(r) && start + ptr < Len(r) && ptr > 0 && chr == Units(r)[start + ptr]
    requires ObjectStep(state, chr).Nest?
    ensures result.Success? ==>
              1 <= step && start + ptr + step <= Len(r) &&
              ObjectRun(Units(r), start, state, ptr) == ObjectRun(Units(r), start, ObjectStep(state, chr).after, ptr + step)
    ensures result.Failure? ==> ObjectRun(Units(r), start, state, ptr) == Production(result, ptr + step)
    decreases Len(r) - (start + ptr), 2
  {
    ghost var us := Units(r);
    assert IsUnitSeq(us);
    if state == Key {
      result, step := Strings.ValidateString(r, start + ptr);
      ObjectKeyAt(us, start, start + ptr, ptr, chr, Production(result, step));
    } else {
      result, step := ValidateJsonValue(r, start + ptr);
      ObjectValueAt(us, start, start + ptr, ptr, chr, Production(result, step));
    }
  }

  /** `validate_array`, read the same way through `ArrayStep`. */
  method ValidateArray(r: Reader, start: nat) returns (result: Outcome, step: nat)
    requires Valid(r) && start < Len(r)
    ensures Production(result, step) == ArrayRun(Units(r), start, ArrayOpen, 0)
    decreases Len(r) - start, 0
  {
    ghost var us := Units(r);
    assert IsUnitSeq(us);
    var len := Len(r);
    var state := ArrayOpen;
    var ptr := 0;
    ghost var total := ArrayRun(us, start, ArrayOpen, 0);
    while start + ptr < len
      invariant start + ptr <= len
      invariant state == ArrayOpen <==> ptr == 0
      invariant ArrayRun(us, start, state, ptr) == total
      decreases len - (start + ptr)
    {
      var chr := Char(r, start + ptr);
      match ArrayStep(state, chr) {
        case Close =>
          ArrayStopAt(us, start, state, start + ptr, ptr, chr);
          return Success, ptr + 1;
        case Refuse(reason) =>
          ArrayStopAt(us, start, state, start + ptr, ptr, chr);
          return Failure(reason), ptr;
        case Skip(next) =>
          ArraySkipTo(us, start, state, start + ptr, ptr, chr, next);
          state := next;
          ptr := ptr + 1;
        case Nest(after) =>
          var valueResult, valueStep := ValidateElement(r, start, state, ptr, chr);
          ptr := ptr + valueStep;
          if valueResult.Failure? {
            return valueResult, ptr;
          }
          state := after;
      }
    }
    ArrayEnd(us, start, state, ptr);
    var tail := Tail(r);
    if !Is(tail, RightBracket) {
      return Failure(ArrayNotClosed), len - 1;
    }
    return Success, ptr;
  }

  /** The nesting arm of `validate_array`'s loop: an element is handed to
      `validate_json_value`, and the array goes on after what it consumed
      or fails with its error. */
  method ValidateElement(r: Reader, start: nat, state: ArrayState, ptr: nat, chr: Unit)
    returns (result: Outcome, step: nat)
    requires Valid(r) && start + ptr < Len(r) && chr == Units(r)[start + ptr]
    requires state == ArrayOpen <==> ptr == 0
    requires ArrayStep(state, chr).Nest?
    ensures result.Success? ==>
              1 <= step && start + ptr + step <= Len(r) &&
              ArrayRun(Units(r), start, state, ptr) == ArrayRun(Units(r), start, ArrayStep(state, chr).after, ptr + step)
    ensures result.Failure? ==> ArrayRun(Units(r), start, state, ptr) == Production(result, ptr + step)
    decreases Len(r) - (start + ptr), 2
  {
    ghost var us := Units(r);
    assert IsUnitSeq(us);
    result, step := ValidateJsonValue(r, start + ptr);
    ArrayNestAt(us, start, state, start + ptr, ptr, chr, Production(result, step));
  }
}
