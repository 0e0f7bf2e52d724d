/** What the structural productions of src/validator.rs promise, and where
    they accept more than RFC 8259: containers end on their closer,
    whitespace is skipped between tokens, only the expected tokens may
    follow a key or a value, a closer is allowed wherever a key or value
    may start (so empty containers and trailing commas are accepted), and
    `validate` accepts a document exactly when it splits into values that
    each succeed. */
module ValidatorProperties {
  import opened Utf8Reader
  import opened Tokens
  import opened Validator

  /** The units in `[from, to)` are all insignificant whitespace. */
  predicate AllWhitespace(us: seq<Unit>, from: nat, to: nat)
    requires IsUnitSeq(us) && from <= to <= |us|
  {
    forall k :: from <= k < to ==> IsInsignificantWhitespace(us[k])
  }

  // ---------------------------------------------------------------------
  // A container that succeeds ends on its closer

  /** An object that succeeds has consumed up to a `}`: the one that closed
      it, or the document's last unit when the document ends inside it. */
  lemma {:induction false} ObjectEndsOnBrace(us: seq<Unit>, start: nat, state: ObjectState, ptr: nat)
    requires IsUnitSeq(us) && start < |us| && start + ptr <= |us|
    requires state == ObjectOpen <==> ptr == 0
    ensures var p := ObjectRun(us, start, state, ptr);
      p.outcome.Success? ==> ptr <= p.step && Is(us[start + p.step - 1], RightBrace)
    decreases |us| - (start + ptr), 1
  {
    if start + ptr < |us| {
      assert ObjectRun(us, start, state, ptr) == ObjectUnit(us, start, state, ptr);
      match ObjectStep(state, us[start + ptr]) {
        case Close =>
        case Refuse(_) =>
        case Skip(next) =>
          ObjectEndsOnBrace(us, start, next, ptr + 1);
        case Nest(after) =>
          NestedObjectEndsOnBrace(us, start, state, ptr, after);
      }
    }
  }

  /** The same, past a key or member value that starts at `start + ptr`. */
  lemma {:induction false} NestedObjectEndsOnBrace(us: seq<Unit>, start: nat, state: ObjectState, ptr: nat,
                                                   after: ObjectState)
    requires IsUnitSeq(us) && start < |us| && start + ptr < |us|
    requires ptr > 0 && state != ObjectOpen && after != ObjectOpen
    ensures var p := ObjectNested(us, start, state, ptr, after);
      p.outcome.Success? ==> ptr <= p.step && Is(us[start + p.step - 1], RightBrace)
    decreases |us| - (start + ptr), 0
  {
    var nested := if state == Key then Strings.StringRun(us, start + ptr, Strings.Begin, 0)
                  else ValueRun(us, start + ptr);
    if nested.outcome.Success? {
      ObjectEndsOnBrace(us, start, after, ptr + nested.step);
    }
  }

  /** An array that succeeds has consumed up to a `]`: the one that closed
      it, or the document's last unit when the document ends inside it. */
  lemma {:induction false} ArrayEndsOnBracket(us: seq<Unit>, start: nat, state: ArrayState, ptr: nat)
    requires IsUnitSeq(us) && start < |us| && start + ptr <= |us|
    requires state == ArrayOpen <==> ptr == 0
    ensures var p := ArrayRun(us, start, state, ptr);
      p.outcome.Success? ==> ptr <= p.step && Is(us[start + p.step - 1], RightBracket)
    decreases |us| - (start + ptr)
  {
    if start + ptr < |us| {
      assert ArrayRun(us, start, state, ptr) == ArrayUnit(us, start, state, ptr);
      match ArrayStep(state, us[start + ptr]) {
        case Close =>
        case Refuse(_) =>
        case Skip(next) =>
          ArrayEndsOnBracket(us, start, next, ptr + 1);
        case Nest(after) =>
          assert ArrayUnit(us, start, state, ptr) == ArrayNested(us, start, ptr, after);
          var value := ValueRun(us, start + ptr);
          if value.outcome.Success? {
            ArrayEndsOnBracket(us, start, after, ptr + value.step);
          }
      }
    }
  }

  // ---------------------------------------------------------------------
  // Whitespace between tokens

  /** Past the opening brace, a run of whitespace leaves the object's state
      as it was. */
  lemma {:induction false} ObjectSkipsWhitespace(us: seq<Unit>, start: nat, state: ObjectState, ptr: nat, n: nat)
    requires IsUnitSeq(us) && start < |us| && start + ptr + n <= |us|
    requires state != ObjectOpen && ptr > 0
    requires AllWhitespace(us, start + ptr, start + ptr + n)
    ensures ObjectRun(us, start, state, ptr) == ObjectRun(us, start, state, ptr + n)
    decreases n
  {
    if n > 0 {
      ObjectSkipTo(us, start, state, start + ptr, ptr, us[start + ptr], state);
      ObjectSkipsWhitespace(us, start, state, ptr + 1, n - 1);
    }
  }

  /** Past the opening bracket, a run of whitespace leaves the array's state
      as it was. */
  lemma {:induction false} ArraySkipsWhitespace(us: seq<Unit>, start: nat, state: ArrayState, ptr: nat, n: nat)
    requires IsUnitSeq(us) && start < |us| && start + ptr + n <= |us|
    requires state != ArrayOpen && ptr > 0
    requires AllWhitespace(us, start + ptr, start + ptr + n)
    ensures ArrayRun(us, start, state, ptr) == ArrayRun(us, start, state, ptr + n)
    decreases n
  {
    if n > 0 {
      ArraySkipTo(us, start, state, start + ptr, ptr, us[start + ptr], state);
      ArraySkipsWhitespace(us, start, state, ptr + 1, n - 1);
    }
  }

  // ---------------------------------------------------------------------
  // What may come next, after any whitespace

  /** Where a key may start: `}` closes the object (so `{}` and a comma
      before `}` are accepted), `"` starts the key, and anything else is
      refused there. */
  lemma KeyPosition(us: seq<Unit>, start: nat, ptr: nat, n: nat)
    requires IsUnitSeq(us) && start < |us| && ptr > 0 && start + ptr + n < |us|
    requires AllWhitespace(us, start + ptr, start + ptr + n)
    ensures var chr := us[start + ptr + n];
      && (Is(chr, RightBrace) ==> ObjectRun(us, start, Key, ptr) == Production(Success, ptr + n + 1))
      && (!Is(chr, RightBrace) && !Is(chr, Quote) && !IsInsignificantWhitespace(chr) ==>
            ObjectRun(us, start, Key, ptr) == Production(Failure(ObjectKeyStart), ptr + n))
  {
    ObjectSkipsWhitespace(us, start, Key, ptr, n);
    var chr := us[start + ptr + n];
    if !Is(chr, Quote) && !IsInsignificantWhitespace(chr) {
      ObjectStopAt(us, start, Key, start + ptr + n, ptr + n, chr);
    }
  }

  /** After a key only `:` may follow; anything else is refused with the
      unit it found. */
  lemma AfterKey(us: seq<Unit>, start: nat, ptr: nat, n: nat)
    requires IsUnitSeq(us) && start < |us| && ptr > 0 && start + ptr + n < |us|
    requires AllWhitespace(us, start + ptr, start + ptr + n)
    ensures var chr := us[start + ptr + n];
      && (Is(chr, Colon) ==> ObjectRun(us, start, PendingValue, ptr) == ObjectRun(us, start, MemberValue, ptr + n + 1))
      && (!Is(chr, Colon) && !IsInsignificantWhitespace(chr) ==>
            ObjectRun(us, start, PendingValue, ptr) == Production(Failure(AfterObjectKey(chr)), ptr + n))
  {
    ObjectSkipsWhitespace(us, start, PendingValue, ptr, n);
    var chr := us[start + ptr + n];
    if Is(chr, Colon) {
      ObjectSkipTo(us, start, PendingValue, start + ptr + n, ptr + n, chr, MemberValue);
    } else if !IsInsignificantWhitespace(chr) {
      ObjectStopAt(us, start, PendingValue, start + ptr + n, ptr + n, chr);
    }
  }

  /** After a member value only `,` or `}` may follow; anything else is
      refused with the unit it found. */
  lemma AfterMemberValue(us: seq<Unit>, start: nat, ptr: nat, n: nat)
    requires IsUnitSeq(us) && start < |us| && ptr > 0 && start + ptr + n < |us|
    requires AllWhitespace(us, start + ptr, start + ptr + n)
    ensures var chr := us[start + ptr + n];
      && (Is(chr, RightBrace) ==> ObjectRun(us, start, PendingKey, ptr) == Production(Success, ptr + n + 1))
      && (Is(chr, Comma) ==> ObjectRun(us, start, PendingKey, ptr) == ObjectRun(us, start, Key, ptr + n + 1))
      && (!Is(chr, RightBrace) && !Is(chr, Comma) && !IsInsignificantWhitespace(chr) ==>
            ObjectRun(us, start, PendingKey, ptr) == Production(Failure(AfterObjectValue(chr)), ptr + n))
  {
    ObjectSkipsWhitespace(us, start, PendingKey, ptr, n);
    var chr := us[start + ptr + n];
    if Is(chr, Comma) {
      ObjectSkipTo(us, start, PendingKey, start + ptr + n, ptr + n, chr, Key);
    } else if !IsInsignificantWhitespace(chr) {
      ObjectStopAt(us, start, PendingKey, start + ptr + n, ptr + n, chr);
    }
  }

  /** Where an element may start: `]` closes the array (so `[]` and a comma
      before `]` are accepted), and anything else is an element. */
  lemma ElementPosition(us: seq<Unit>, start: nat, ptr: nat, n: nat)
    requires IsUnitSeq(us) && start < |us| && ptr > 0 && start + ptr + n < |us|
    requires AllWhitespace(us, start + ptr, start + ptr + n)
    ensures var chr := us[start + ptr + n];
      && (Is(chr, RightBracket) ==> ArrayRun(us, start, Element, ptr) == Production(Success, ptr + n + 1))
      && (!Is(chr, RightBracket) && !IsInsignificantWhitespace(chr) ==>
            ArrayStep(Element, chr) == Nest(PendingElement) &&
            ArrayRun(us, start, Element, ptr) == ArrayNested(us, start, ptr + n, PendingElement))
  {
    ArraySkipsWhitespace(us, start, Element, ptr, n);
    var chr := us[start + ptr + n];
    if Is(chr, RightBracket) {
      ArrayStopAt(us, start, Element, start + ptr + n, ptr + n, chr);
    } else if !IsInsignificantWhitespace(chr) {
      assert ArrayRun(us, start, Element, ptr + n) == ArrayUnit(us, start, Element, ptr + n);
    }
  }

  /** After an element only `,` or `]` may follow; anything else is
      refused with the unit it found. */
  lemma AfterElement(us: seq<Unit>, start: nat, ptr: nat, n: nat)
    requires IsUnitSeq(us) && start < |us| && ptr > 0 && start + ptr + n < |us|
    requires AllWhitespace(us, start + ptr, start + ptr + n)
    ensures var chr := us[start + ptr + n];
      && (Is(chr, RightBracket) ==> ArrayRun(us, start, PendingElement, ptr) == Production(Success, ptr + n + 1))
      && (Is(chr, Comma) ==> ArrayRun(us, start, PendingElement, ptr) == ArrayRun(us, start, Element, ptr + n + 1))
      && (!Is(chr, RightBracket) && !Is(chr, Comma) && !IsInsignificantWhitespace(chr) ==>
            ArrayRun(us, start, PendingElement, ptr) == Production(Failure(AfterArrayValue(chr)), ptr + n))
  {
    ArraySkipsWhitespace(us, start, PendingElement, ptr, n);
    var chr := us[start + ptr + n];
    if Is(chr, Comma) {
      ArraySkipTo(us, start, PendingElement, start + ptr + n, ptr + n, chr, Element);
    } else if !IsInsignificantWhitespace(chr) {
      ArrayStopAt(us, start, PendingElement, start + ptr + n, ptr + n, chr);
    }
  }

  // ---------------------------------------------------------------------
  // Where a closer is accepted in key or value position

  /** `{` and `}` with only whitespace between are a complete object. */
  lemma EmptyObject(us: seq<Unit>, start: nat, n: nat)
    requires IsUnitSeq(us) && start + n + 1 < |us|
    requires Is(us[start], LeftBrace) && Is(us[start + n + 1], RightBrace)
    requires AllWhitespace(us, start + 1, start + n + 1)
    ensures ValueRun(us, start) == Production(Success, n + 2)
  {
    ObjectSkipTo(us, start, ObjectOpen, start, 0, us[start], Key);
    KeyPosition(us, start, 1, n);
  }

  /** `[` and `]` with only whitespace between are a complete array. */
  lemma EmptyArray(us: seq<Unit>, start: nat, n: nat)
    requires IsUnitSeq(us) && start + n + 1 < |us|
    requires Is(us[start], LeftBracket) && Is(us[start + n + 1], RightBracket)
    requires AllWhitespace(us, start + 1, start + n + 1)
    ensures ValueRun(us, start) == Production(Success, n + 2)
  {
    ArraySkipTo(us, start, ArrayOpen, start, 0, us[start], Element);
    ElementPosition(us, start, 1, n);
  }

  /** A comma after a member value followed by `}` closes the object: the
      trailing comma RFC 8259 forbids is accepted. */
  lemma ObjectTrailingComma(us: seq<Unit>, start: nat, ptr: nat, n: nat)
    requires IsUnitSeq(us) && start < |us| && ptr > 0 && start + ptr + n + 1 < |us|
    requires Is(us[start + ptr], Comma) && Is(us[start + ptr + n + 1], RightBrace)
    requires AllWhitespace(us, start + ptr + 1, start + ptr + n + 1)
    ensures ObjectRun(us, start, PendingKey, ptr) == Production(Success, ptr + n + 2)
  {
    AfterMemberValue(us, start, ptr, 0);
    KeyPosition(us, start, ptr + 1, n);
  }

  /** A comma after an element followed by `]` closes the array: the
      trailing comma RFC 8259 forbids is accepted. */
  lemma ArrayTrailingComma(us: seq<Unit>, start: nat, ptr: nat, n: nat)
    requires IsUnitSeq(us) && start < |us| && ptr > 0 && start + ptr + n + 1 < |us|
    requires Is(us[start + ptr], Comma) && Is(us[start + ptr + n + 1], RightBracket)
    requires AllWhitespace(us, start + ptr + 1, start + ptr + n + 1)
    ensures ArrayRun(us, start, PendingElement, ptr) == Production(Success, ptr + n + 2)
  {
    AfterElement(us, start, ptr, 0);
    ElementPosition(us, start, ptr + 1, n);
  }

  // ---------------------------------------------------------------------
  // The top-level loop

  /** `ps` lists the positions at which `validate` dispatches values,
      each value succeeding and ending where the next one starts. */
  predicate IsTiling(us: seq<Unit>, ps: seq<nat>)
    requires IsUnitSeq(us)
  {
    && |ps| >= 1
    && (forall j :: 0 <= j < |ps| ==> ps[j] <= |us|)
    && (forall j :: 0 <= j < |ps| - 1 ==>
          ps[j] < |us| && ValueRun(us, ps[j]).outcome.Success? && ps[j] + ValueRun(us, ps[j]).step == ps[j + 1])
  }

  /** The dispatch positions `ps` lead from `i` to `j`. */
  predicate Reaches(us: seq<Unit>, i: nat, ps: seq<nat>, j: nat)
    requires IsUnitSeq(us)
  {
    IsTiling(us, ps) && ps[0] == i && ps[|ps| - 1] == j
  }

  /** A tiling from a value that succeeds, extended at the front. */
  lemma TilingCons(us: seq<Unit>, i: nat, ps: seq<nat>, j: nat)
    requires IsUnitSeq(us) && i < |us| && ValueRun(us, i).outcome.Success?
    requires Reaches(us, i + ValueRun(us, i).step, ps, j)
    ensures Reaches(us, i, [i] + ps, j)
  {
    var qs := [i] + ps;
    forall k | 0 <= k < |qs| - 1
      ensures qs[k] < |us| && ValueRun(us, qs[k]).outcome.Success? && qs[k] + ValueRun(us, qs[k]).step == qs[k + 1]
    {
      if k > 0 {
        assert qs[k] == ps[k - 1] && qs[k + 1] == ps[k];
      }
    }
  }

  /** A tiling from a value that succeeds, with its first position dropped. */
  lemma TilingTail(us: seq<Unit>, i: nat, ps: seq<nat>, j: nat)
    requires IsUnitSeq(us) && Reaches(us, i, ps, j) && |ps| >= 2
    ensures i < |us| && ValueRun(us, i).outcome.Success?
    ensures Reaches(us, i + ValueRun(us, i).step, ps[1..], j)
  {
    assert ps[0] + ValueRun(us, ps[0]).step == ps[1];
    forall k | 0 <= k < |ps| - 2
      ensures ps[1..][k] < |us| && ValueRun(us, ps[1..][k]).outcome.Success? &&
              ps[1..][k] + ValueRun(us, ps[1..][k]).step == ps[1..][k + 1]
    {
      assert ps[1..][k] == ps[k + 1] && ps[1..][k + 1] == ps[k + 2];
    }
  }

  /** The value at `j` fails with `reason`, and `validate` reports `pos`:
      one past `j` plus the failed value's step, the one-based column the
      source prints. */
  predicate FailsAt(us: seq<Unit>, j: nat, pos: nat, reason: Reason)
    requires IsUnitSeq(us)
  {
    j < |us| && ValueRun(us, j).outcome == Failure(reason) && pos == j + ValueRun(us, j).step + 1
  }

  /** An accepted document splits into values that succeed. */
  lemma {:induction false} AcceptedIsTiled(us: seq<Unit>, i: nat)
    requires IsUnitSeq(us) && i <= |us| && DocumentRun(us, i) == Accepted
    ensures exists ps :: Reaches(us, i, ps, |us|)
    decreases |us| - i
  {
    if i == |us| {
      assert Reaches(us, i, [i], |us|);
    } else {
      var value := ValueRun(us, i);
      DocumentStep(us, i, value);
      AcceptedIsTiled(us, i + value.step);
      var ps :| Reaches(us, i + value.step, ps, |us|);
      TilingCons(us, i, ps, |us|);
    }
  }

  /** A document that splits into values that succeed is accepted. */
  lemma {:induction false} TiledIsAccepted(us: seq<Unit>, i: nat, ps: seq<nat>)
    requires IsUnitSeq(us) && Reaches(us, i, ps, |us|)
    ensures i <= |us| && DocumentRun(us, i) == Accepted
    decreases |ps|
  {
    if |ps| >= 2 {
      TilingTail(us, i, ps, |us|);
      var value := ValueRun(us, i);
      DocumentStep(us, i, value);
      TiledIsAccepted(us, i + value.step, ps[1..]);
    }
  }

  /** `validate` accepts the document from `i` exactly when the values it
      dispatches from `i` all succeed and end at the end of the document;
      in particular the empty document, and several values one after the
      other, are accepted. */
  lemma DocumentAccepted(us: seq<Unit>, i: nat)
    requires IsUnitSeq(us) && i <= |us|
    ensures DocumentRun(us, i) == Accepted <==> exists ps :: Reaches(us, i, ps, |us|)
  {
    if DocumentRun(us, i) == Accepted {
      AcceptedIsTiled(us, i);
    }
    if exists ps :: Reaches(us, i, ps, |us|) {
      var ps :| Reaches(us, i, ps, |us|);
      TiledIsAccepted(us, i, ps);
    }
  }

  /** A rejected document splits into values that succeed up to one that
      fails, and the position is where that one fails. */
  lemma {:induction false} RejectedIsTiled(us: seq<Unit>, i: nat, pos: nat, reason: Reason)
    requires IsUnitSeq(us) && i <= |us| && DocumentRun(us, i) == Rejected(pos, reason)
    ensures exists ps, j: nat :: Reaches(us, i, ps, j) && FailsAt(us, j, pos, reason)
    decreases |us| - i
  {
    var value := ValueRun(us, i);
    DocumentStep(us, i, value);
    if value.outcome.Failure? {
      assert Reaches(us, i, [i], i) && FailsAt(us, i, pos, reason);
    } else {
      RejectedIsTiled(us, i + value.step, pos, reason);
      var ps, j: nat :| Reaches(us, i + value.step, ps, j) && FailsAt(us, j, pos, reason);
      TilingCons(us, i, ps, j);
    }
  }

  /** Values that succeed up to one that fails make `validate` reject the
      document where that one fails. */
  lemma {:induction false} TiledIsRejected(us: seq<Unit>, i: nat, ps: seq<nat>, j: nat, pos: nat, reason: Reason)
    requires IsUnitSeq(us) && Reaches(us, i, ps, j) && FailsAt(us, j, pos, reason)
    ensures i <= |us| && DocumentRun(us, i) == Rejected(pos, reason)
    decreases |ps|
  {
    if |ps| >= 2 {
      TilingTail(us, i, ps, j);
      var value := ValueRun(us, i);
      DocumentStep(us, i, value);
      TiledIsRejected(us, i + value.step, ps[1..], j, pos, reason);
    } else {
      DocumentStep(us, i, ValueRun(us, i));
    }
  }

  /** `validate` rejects the document from `i` with a position and a reason
      exactly when the values it dispatches from `i` succeed up to some
      `j` and the value at `j` fails with that reason at that position. */
  lemma DocumentRejected(us: seq<Unit>, i: nat, pos: nat, reason: Reason)
    requires IsUnitSeq(us) && i <= |us|
    ensures DocumentRun(us, i) == Rejected(pos, reason) <==>
              exists ps, j: nat :: Reaches(us, i, ps, j) && FailsAt(us, j, pos, reason)
  {
    if DocumentRun(us, i) == Rejected(pos, reason) {
      RejectedIsTiled(us, i, pos, reason);
    }
    if exists ps, j: nat :: Reaches(us, i, ps, j) && FailsAt(us, j, pos, reason) {
      var ps, j: nat :| Reaches(us, i, ps, j) && FailsAt(us, j, pos, reason);
      TiledIsRejected(us, i, ps, j, pos, reason);
    }
  }

  // ---------------------------------------------------------------------
  // Whole documents where the source departs from RFC 8259

  /** `[[]` is accepted: the inner array closes on the only `]`, and the
      end of the document inside the outer array counts as closing it
      because the document's last unit is `]`. */
  lemma UnclosedOuterArrayAccepted()
    ensures var doc: seq<Unit> := [[LeftBracket], [LeftBracket], [RightBracket]];
      ValueRun(doc, 0) == Production(Success, 3) && DocumentRun(doc, 0) == Accepted
  {
    var doc: seq<Unit> := [[LeftBracket], [LeftBracket], [RightBracket]];
    assert ValueRun(doc, 1) == Production(Success, 2) by {
      assert ValueRun(doc, 1) == ArrayRun(doc, 1, ArrayOpen, 0);
      ArraySkipTo(doc, 1, ArrayOpen, 1, 0, doc[1], Element);
      ArrayStopAt(doc, 1, Element, 2, 1, doc[2]);
    }
    assert ValueRun(doc, 0) == ArrayRun(doc, 0, ArrayOpen, 0);
    ArraySkipTo(doc, 0, ArrayOpen, 0, 0, doc[0], Element);
    ArrayNestAt(doc, 0, Element, 1, 1, doc[1], ValueRun(doc, 1));
    ArrayEnd(doc, 0, PendingElement, 3);
    DocumentStep(doc, 0, ValueRun(doc, 0));
  }

  /** `[][]` is accepted: `validate` goes on dispatching values after the
      first one, so a document may hold several. */
  lemma SeveralValuesAccepted()
    ensures var doc: seq<Unit> := [[LeftBracket], [RightBracket], [LeftBracket], [RightBracket]];
      DocumentRun(doc, 0) == Accepted
  {
    var doc: seq<Unit> := [[LeftBracket], [RightBracket], [LeftBracket], [RightBracket]];
    EmptyArray(doc, 0, 0);
    EmptyArray(doc, 2, 0);
    DocumentStep(doc, 0, ValueRun(doc, 0));
    DocumentStep(doc, 2, ValueRun(doc, 2));
  }

  /** `1 [` is rejected at column 5 of a three-unit document: the array
      reports the document's last offset, 2, as its step, and `validate`
      adds that step to the array's own start. */
  lemma UnclosedReportedPastEnd()
    ensures var doc: seq<Unit> := [[0x31], [Space], [LeftBracket]];
      DocumentRun(doc, 0) == Rejected(5, ArrayNotClosed) && 5 > |doc|
  {
    var doc: seq<Unit> := [[0x31], [Space], [LeftBracket]];
    assert ValueRun(doc, 0) == Production(Success, 1) by {
      assert ValueRun(doc, 0) == Numbers.NumberRun(doc, 0, Numbers.Begin, 0);
      Numbers.StepTo(doc, 0, Numbers.Begin, 0, Numbers.Integer);
      Numbers.StopAt(doc, 0, Numbers.Integer, 1);
    }
    assert ValueRun(doc, 1) == Production(Success, 1);
    assert ValueRun(doc, 2) == Production(Failure(ArrayNotClosed), 2) by {
      assert ValueRun(doc, 2) == ArrayRun(doc, 2, ArrayOpen, 0);
      ArraySkipTo(doc, 2, ArrayOpen, 2, 0, doc[2], Element);
      ArrayEnd(doc, 2, Element, 1);
    }
    DocumentStep(doc, 0, ValueRun(doc, 0));
    DocumentStep(doc, 1, ValueRun(doc, 1));
    DocumentStep(doc, 2, ValueRun(doc, 2));
  }

  /** An empty document is accepted: `validate` finds no value to check. */
  lemma EmptyDocumentAccepted(r: Reader)
    requires Valid(r) && r.document == []
    ensures Len(r) == 0 && DocumentRun(Units(r), 0) == Accepted
  {
  }

  /** `1 2` is accepted: two numbers one after the other, the first closed
      by the space and the second by the end of the document. */
  lemma TwoNumbersAccepted()
    ensures var doc: seq<Unit> := [[0x31], [Space], [0x32]];
      DocumentRun(doc, 0) == Accepted
  {
    var doc: seq<Unit> := [[0x31], [Space], [0x32]];
    assert ValueRun(doc, 0) == Production(Success, 1) by {
      assert ValueRun(doc, 0) == Numbers.NumberRun(doc, 0, Numbers.Begin, 0);
      Numbers.StepTo(doc, 0, Numbers.Begin, 0, Numbers.Integer);
      Numbers.StopAt(doc, 0, Numbers.Integer, 1);
    }
    assert ValueRun(doc, 1) == Production(Success, 1);
    assert ValueRun(doc, 2) == Production(Success, 1) by {
      assert ValueRun(doc, 2) == Numbers.NumberRun(doc, 2, Numbers.Begin, 0);
      Numbers.StepTo(doc, 2, Numbers.Begin, 0, Numbers.Integer);
    }
    DocumentStep(doc, 0, ValueRun(doc, 0));
    DocumentStep(doc, 1, ValueRun(doc, 1));
    DocumentStep(doc, 2, ValueRun(doc, 2));
  }

  /** A quote followed by the combining acute accent U+0301 (bytes CC 81)
      is one grapheme cluster, so one unit, and that unit starts no value:
      the document `"` U+0301 `"`, a string under RFC 8259, is rejected at
      column 2 as an unknown character. */
  lemma GraphemeMergeRejected()
    ensures var doc: seq<Unit> := [[Quote, 0xCC, 0x81], [Quote]];
      DocumentRun(doc, 0) == Rejected(2, UnknownCharacter([Quote, 0xCC, 0x81]))
  {
    var doc: seq<Unit> := [[Quote, 0xCC, 0x81], [Quote]];
    StrayUnit(doc, 0);
    DocumentStep(doc, 0, ValueRun(doc, 0));
  }

  /** An escape letter followed by the combining acute accent U+0301 is one
      unit, which is no escape character: the string `"\n` U+0301 `"`,
      valid under RFC 8259, is rejected at column 3 as an invalid escape. */
  lemma EscapeMergeRejected()
    ensures var doc: seq<Unit> := [[Quote], [ReverseSolidus], [LetterN, 0xCC, 0x81], [Quote]];
      DocumentRun(doc, 0) == Rejected(3, InvalidEscape([LetterN, 0xCC, 0x81]))
  {
    var doc: seq<Unit> := [[Quote], [ReverseSolidus], [LetterN, 0xCC, 0x81], [Quote]];
    assert ValueRun(doc, 0) == Strings.StringRun(doc, 0, Strings.Begin, 0);
    Strings.OpenRun(doc, 0);
    Strings.BadEscapeRun(doc, 0, 1, 1);
    DocumentStep(doc, 0, ValueRun(doc, 0));
  }

  /** A Unicode Prepend character such as U+0600 (bytes D8 80) joins the
      character after it into one unit: in `"` U+0600 `"` the closing
      quote is swallowed, and the string, valid under RFC 8259, is
      rejected at column 2 as not closed. */
  lemma PrependMergeRejected()
    ensures var doc: seq<Unit> := [[Quote], [0xD8, 0x80, Quote]];
      DocumentRun(doc, 0) == Rejected(2, StringNotClosed)
  {
    var doc: seq<Unit> := [[Quote], [0xD8, 0x80, Quote]];
    assert ValueRun(doc, 0) == Strings.StringRun(doc, 0, Strings.Begin, 0);
    Strings.NotClosedAtEnd(doc, 0);
    DocumentStep(doc, 0, ValueRun(doc, 0));
  }

  /** Carriage return and line feed together are one grapheme cluster, so
      one unit of two bytes, which is not whitespace: `{}` ended by a CR LF
      line break is rejected at column 4 as an unknown character. */
  lemma CrLfRejected()
    ensures var doc: seq<Unit> := [[LeftBrace], [RightBrace], [CarriageReturn, LineFeed]];
      DocumentRun(doc, 0) == Rejected(4, UnknownCharacter([CarriageReturn, LineFeed]))
  {
    var doc: seq<Unit> := [[LeftBrace], [RightBrace], [CarriageReturn, LineFeed]];
    EmptyObject(doc, 0, 0);
    StrayUnit(doc, 2);
    DocumentStep(doc, 0, ValueRun(doc, 0));
    DocumentStep(doc, 2, ValueRun(doc, 2));
  }

  /** `[1,]` is accepted: the comma after the element leads back to the
      element position, where `]` closes the array. */
  lemma ArrayTrailingCommaAccepted()
    ensures var doc: seq<Unit> := [[LeftBracket], [0x31], [Comma], [RightBracket]];
      DocumentRun(doc, 0) == Accepted
  {
    var doc: seq<Unit> := [[LeftBracket], [0x31], [Comma], [RightBracket]];
    assert ValueRun(doc, 1) == Production(Success, 1) by {
      assert ValueRun(doc, 1) == Numbers.NumberRun(doc, 1, Numbers.Begin, 0);
      Numbers.StepTo(doc, 1, Numbers.Begin, 0, Numbers.Integer);
      Numbers.StopAt(doc, 1, Numbers.Integer, 1);
    }
    assert ValueRun(doc, 0) == ArrayRun(doc, 0, ArrayOpen, 0);
    ArraySkipTo(doc, 0, ArrayOpen, 0, 0, doc[0], Element);
    ArrayNestAt(doc, 0, Element, 1, 1, doc[1], ValueRun(doc, 1));
    ArrayTrailingComma(doc, 0, 2, 0);
    DocumentStep(doc, 0, ValueRun(doc, 0));
  }

  // ---------------------------------------------------------------------
  // Units that start no value

  /** A unit other than the seventeen that start a value is consumed alone:
      whitespace succeeds, anything else is an unknown character. Between
      top-level values this is how `validate` skips whitespace. */
  lemma StrayUnit(us: seq<Unit>, i: nat)
    requires IsUnitSeq(us) && i < |us|
    requires |us[i]| != 1 ||
             us[i][0] !in {0x7B, 0x5B, 0x2D, 0x22, 0x74, 0x66, 0x6E, 0x30, 0x31,
                           0x32, 0x33, 0x34, 0x35, 0x36, 0x37, 0x38, 0x39}
    ensures IsInsignificantWhitespace(us[i]) ==> ValueRun(us, i) == Production(Success, 1)
    ensures !IsInsignificantWhitespace(us[i]) ==>
              ValueRun(us, i) == Production(Failure(UnknownCharacter(us[i])), 1)
  {
    UnknownIsTheRest(us[i]);
  }
}
