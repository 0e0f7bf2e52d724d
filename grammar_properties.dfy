/** The validator accepts what the grammar of RFC 8259 generates: every
    well-formed value, closed by a terminator or by the end of the
    document, is consumed whole, and every JSON text `ws value ws` is
    accepted, provided each of its structural characters, quotes, reverse
    solidi, whitespace characters and escape letters is a grapheme cluster
    of its own.

    Several lemmas take a grammar predicate as `P(...) == true`. The two
    forms mean the same; the equation makes a caller establish the fact as
    a whole rather than conjunct by conjunct, which keeps these proofs,
    whose contexts hold the validator's recursive runs, small. */
module GrammarProperties {
  import opened Utf8Reader
  import opened Tokens
  import opened Literals
  import opened Validator
  import opened ValidatorProperties
  import opened JsonGrammar
  import Numbers
  import Strings

  // ---------------------------------------------------------------------
  // The validator accepts every value of the grammar

  /** A value starts with a unit of a known type, never whitespace, and
      spans at least one unit. */
  lemma FirstUnit(us: seq<Unit>, i: nat, v: Json)
    requires IsUnitSeq(us) && IsValue(us, i, v) == true
    ensures i < |us| && 1 <= Width(v) && i + Width(v) <= |us|
    ensures ValueTypeOf(us[i]) != Unknown && !IsInsignificantWhitespace(us[i])
  {
    match v
    case LiteralText(name) =>
      assert us[i] == [name[0]];
    case NumberText(m, n, f, e) =>
      if m == [] {
        SpellsAt(us, i, n, 0);
      } else {
        SpellsAt(us, i, m, 0);
      }
    case StringText(_) =>
    case ObjectText(_, _) =>
    case ArrayText(_, _) =>
  }

  /** Grammar fidelity, accepting direction: a value of the grammar that is
      closed by a terminator or by the end of the document is accepted by
      `validate_json_value` with all its units consumed. */
  lemma {:induction false} ValueAccepted(us: seq<Unit>, i: nat, v: Json)
    requires IsUnitSeq(us) && IsValue(us, i, v)
    requires Numbers.ClosedAt(us, i + Width(v))
    ensures i < |us| && ValueRun(us, i) == Production(Success, Width(v))
    ensures ValueTypeOf(us[i]) != Unknown && !IsInsignificantWhitespace(us[i])
    decreases v, 2
  {
    FirstUnit(us, i, v);
    match v
    case LiteralText(_) =>
      LiteralValueAccepted(us, i, v);
    case NumberText(_, _, _, _) =>
      NumberValueAccepted(us, i, v);
    case StringText(_) =>
      StringValueAccepted(us, i, v);
    case ObjectText(_, _) =>
      ObjectAccepted(us, i, v);
    case ArrayText(_, _) =>
      ArrayAccepted(us, i, v);
  }

  /** A literal of the grammar is accepted. */
  lemma LiteralValueAccepted(us: seq<Unit>, i: nat, v: Json)
    requires IsUnitSeq(us) && v.LiteralText? && IsValue(us, i, v) == true
    ensures ValueRun(us, i) == Production(Success, Width(v))
  {
    LiteralAccepted(us, i, v.name);
  }

  /** A number of the grammar closed at its end is accepted. */
  lemma NumberValueAccepted(us: seq<Unit>, i: nat, v: Json)
    requires IsUnitSeq(us) && v.NumberText? && IsValue(us, i, v) == true
    requires Numbers.ClosedAt(us, i + Width(v))
    ensures ValueRun(us, i) == Production(Success, Width(v))
  {
    NumberAccepted(us, i, v.minus, v.integer, v.fraction, v.exponent);
  }

  /** A string of the grammar is accepted. */
  lemma StringValueAccepted(us: seq<Unit>, i: nat, v: Json)
    requires IsUnitSeq(us) && v.StringText? && IsValue(us, i, v) == true
    ensures ValueRun(us, i) == Production(Success, Width(v))
  {
    StringAccepted(us, i, v.width);
  }

  /** An object of the grammar is accepted. */
  lemma {:induction false} ObjectAccepted(us: seq<Unit>, i: nat, v: Json)
    requires IsUnitSeq(us) && v.ObjectText? && IsValue(us, i, v) == true
    ensures ValueRun(us, i) == Production(Success, Width(v))
    decreases v, 1
  {
    ObjectMembersAccepted(us, i, v);
    ObjectOpens(us, i, v.blank);
  }

  /** Past `{` and the whitespace after it, the members of an object of the
      grammar close it. */
  lemma {:induction false} ObjectMembersAccepted(us: seq<Unit>, i: nat, v: Json)
    requires IsUnitSeq(us) && v.ObjectText? && IsValue(us, i, v)
    ensures i + 1 + v.blank <= |us|
    ensures ObjectRun(us, i, Key, 1 + v.blank) == Production(Success, Width(v))
    decreases v, 0
  {
    MembersAccepted(us, i, 1 + v.blank, v.members, i + 1 + v.blank + MembersWidth(v.members));
  }

  /** An array of the grammar is accepted. */
  lemma {:induction false} ArrayAccepted(us: seq<Unit>, i: nat, v: Json)
    requires IsUnitSeq(us) && v.ArrayText? && IsValue(us, i, v) == true
    ensures ValueRun(us, i) == Production(Success, Width(v))
    decreases v, 1
  {
    ArrayElementsAccepted(us, i, v);
    ArrayOpens(us, i, v.blank);
  }

  /** Past `[` and the whitespace after it, the elements of an array of the
      grammar close it. */
  lemma {:induction false} ArrayElementsAccepted(us: seq<Unit>, i: nat, v: Json)
    requires IsUnitSeq(us) && v.ArrayText? && IsValue(us, i, v)
    ensures i + 1 + v.blank <= |us|
    ensures ArrayRun(us, i, Element, 1 + v.blank) == Production(Success, Width(v))
    decreases v, 0
  {
    ElementsAccepted(us, i, 1 + v.blank, v.elements, i + 1 + v.blank + ElementsWidth(v.elements));
  }

  /** Where a key may start, the members of the grammar followed by `}` at
      `close` close the object. */
  lemma {:induction false} MembersAccepted(us: seq<Unit>, start: nat, ptr: nat, ms: Members, close: nat)
    requires IsUnitSeq(us) && start < |us| && ptr > 0
    requires IsMembers(us, start + ptr, ms) == true
    requires close == start + ptr + MembersWidth(ms) && close < |us| && Is(us[close], RightBrace)
    ensures ObjectRun(us, start, Key, ptr) == Production(Success, ptr + MembersWidth(ms) + 1)
    decreases ms, 1
  {
    match ms
    case NoMembers =>
      KeyPosition(us, start, ptr, 0);
    case Members(_, _, _, _, _, _, rest) =>
      var next := MemberNext(us, start, ptr, ms, close);
      MemberAccepted(us, start, ptr, ms);
      if rest != NoMembers {
        MembersAccepted(us, start, next, rest, close);
      }
  }

  /** Where the first member ends: at the closing `}` after the last
      member, or at the `,` before the next one, which is laid out from
      `next` on. */
  lemma MemberNext(us: seq<Unit>, start: nat, ptr: nat, ms: Members, close: nat) returns (next: nat)
    requires IsUnitSeq(us) && ms.Members? && IsMembers(us, start + ptr, ms) == true
    requires close == start + ptr + MembersWidth(ms) && close < |us| && Is(us[close], RightBrace)
    ensures next == ptr + ms.lead + ms.key + ms.beforeColon + 1 + ms.afterColon + Width(ms.value) + ms.trail + 1
    ensures MemberShape(us, start + ptr, ms)
    ensures ms.rest == NoMembers ==> next == ptr + MembersWidth(ms) + 1
    ensures ms.rest != NoMembers ==>
              && IsMembers(us, start + next, ms.rest) == true
              && next + MembersWidth(ms.rest) == ptr + MembersWidth(ms)
  {
    next := ptr + ms.lead + ms.key + ms.beforeColon + 1 + ms.afterColon + Width(ms.value) + ms.trail + 1;
  }


  /** The first member is accepted, and then `}` closes the object or `,`
      leads to the next member. */
  lemma {:induction false} MemberAccepted(us: seq<Unit>, start: nat, ptr: nat, ms: Members)
    requires IsUnitSeq(us) && start < |us| && ptr > 0 && ms.Members? && MemberShape(us, start + ptr, ms) == true
    ensures var next := ptr + ms.lead + ms.key + ms.beforeColon + 1 + ms.afterColon + Width(ms.value) + ms.trail + 1;
      ObjectRun(us, start, Key, ptr) ==
        if ms.rest == NoMembers then Production(Success, next) else ObjectRun(us, start, Key, next)
    decreases ms, 0
  {
    var p := start + ptr + ms.lead + ms.key + ms.beforeColon + 1 + ms.afterColon;
    MemberHeadRun(us, start, ptr, start + ptr, ms.lead, ms.key, ms.beforeColon, ms.afterColon,
                  ptr + ms.lead + ms.key + ms.beforeColon + 1 + ms.afterColon);
    MemberValueAccepted(us, start, ptr + ms.lead + ms.key + ms.beforeColon + 1 + ms.afterColon, p,
                        ms.value, ms.trail, ms.rest == NoMembers,
                        ptr + ms.lead + ms.key + ms.beforeColon + 1 + ms.afterColon + Width(ms.value) + ms.trail + 1);
  }

  /** A member value of the grammar is accepted, and then whitespace and
      `}` (when `last`) or `,`. */
  lemma {:induction false} MemberValueAccepted(us: seq<Unit>, start: nat, ptr: nat, i: nat, v: Json, trail: nat,
                                               last: bool, next: nat)
    requires IsUnitSeq(us) && start < |us| && ptr > 0 && i == start + ptr
    requires IsValue(us, i, v) == true && i + Width(v) + trail < |us|
    requires AllWhitespace(us, i + Width(v), i + Width(v) + trail)
    requires Is(us[i + Width(v) + trail], if last then RightBrace else Comma)
    requires next == ptr + Width(v) + trail + 1
    ensures ObjectRun(us, start, MemberValue, ptr) ==
              if last then Production(Success, next) else ObjectRun(us, start, Key, next)
    decreases v, 3
  {
    ClosedAfter(us, i + Width(v), trail);
    ValueAccepted(us, i, v);
    MemberValueRun(us, start, ptr, i, Width(v), trail, last);
  }

  /** Where an element may start, the elements of the grammar followed by
      `]` at `close` close the array. */
  lemma {:induction false} ElementsAccepted(us: seq<Unit>, start: nat, ptr: nat, es: Elements, close: nat)
    requires IsUnitSeq(us) && start < |us| && ptr > 0
    requires IsElements(us, start + ptr, es) == true
    requires close == start + ptr + ElementsWidth(es) && close < |us| && Is(us[close], RightBracket)
    ensures ArrayRun(us, start, Element, ptr) == Production(Success, ptr + ElementsWidth(es) + 1)
    decreases es, 1
  {
    match es
    case NoElements =>
      ElementPosition(us, start, ptr, 0);
    case Elements(_, _, _, rest) =>
      var next := ElementNext(us, start, ptr, es, close);
      ElementAccepted(us, start, ptr, es);
      if rest != NoElements {
        ElementsAccepted(us, start, next, rest, close);
      }
  }

  /** Where the first element ends: at the closing `]` after the last
      element, or at the `,` before the next one, which is laid out from
      `next` on. */
  lemma ElementNext(us: seq<Unit>, start: nat, ptr: nat, es: Elements, close: nat) returns (next: nat)
    requires IsUnitSeq(us) && es.Elements? && IsElements(us, start + ptr, es) == true
    requires close == start + ptr + ElementsWidth(es) && close < |us| && Is(us[close], RightBracket)
    ensures next == ptr + es.lead + Width(es.value) + es.trail + 1
    ensures ElementShape(us, start + ptr, es)
    ensures es.rest == NoElements ==> next == ptr + ElementsWidth(es) + 1
    ensures es.rest != NoElements ==>
              && IsElements(us, start + next, es.rest) == true
              && next + ElementsWidth(es.rest) == ptr + ElementsWidth(es)
  {
    next := ptr + es.lead + Width(es.value) + es.trail + 1;
  }


  /** The first element is accepted, and then `]` closes the array or `,`
      leads to the next element. */
  lemma {:induction false} ElementAccepted(us: seq<Unit>, start: nat, ptr: nat, es: Elements)
    requires IsUnitSeq(us) && start < |us| && ptr > 0 && es.Elements? && ElementShape(us, start + ptr, es) == true
    ensures var next := ptr + es.lead + Width(es.value) + es.trail + 1;
      ArrayRun(us, start, Element, ptr) ==
        if es.rest == NoElements then Production(Success, next) else ArrayRun(us, start, Element, next)
    decreases es, 0
  {
    var p := start + ptr + es.lead;
    ElementValueAccepted(us, start, ptr + es.lead, p, es.value, es.trail, es.rest == NoElements);
    ArraySkipsWhitespace(us, start, Element, ptr, es.lead);
  }

  /** An element of the grammar is accepted, and then whitespace and `]`
      (when `last`) or `,`. */
  lemma {:induction false} ElementValueAccepted(us: seq<Unit>, start: nat, ptr: nat, i: nat, v: Json, trail: nat, last: bool)
    requires IsUnitSeq(us) && start < |us| && ptr > 0 && i == start + ptr
    requires IsValue(us, i, v) == true && i + Width(v) + trail < |us|
    requires AllWhitespace(us, i + Width(v), i + Width(v) + trail)
    requires Is(us[i + Width(v) + trail], if last then RightBracket else Comma)
    ensures var next := ptr + Width(v) + trail + 1;
      ArrayRun(us, start, Element, ptr) ==
        if last then Production(Success, next) else ArrayRun(us, start, Element, next)
    decreases v, 3
  {
    ClosedAfter(us, i + Width(v), trail);
    ValueAccepted(us, i, v);
    ElementValueRun(us, start, ptr, i, Width(v), trail, last);
  }

  /** A value followed by whitespace and then `,`, `}` or `]` is closed. */
  lemma ClosedAfter(us: seq<Unit>, pos: nat, n: nat)
    requires IsUnitSeq(us) && pos + n < |us| && AllWhitespace(us, pos, pos + n)
    requires Is(us[pos + n], Comma) || Is(us[pos + n], RightBrace) || Is(us[pos + n], RightBracket)
    ensures Numbers.ClosedAt(us, pos)
  {
    if n > 0 {
      assert IsInsignificantWhitespace(us[pos]);
    }
  }

  // ---------------------------------------------------------------------
  // The runs over the tokens of the grammar, stated on plain positions

  /** A literal name spelled one byte per unit is matched. */
  lemma LiteralAccepted(us: seq<Unit>, i: nat, name: seq<byte>)
    requires IsUnitSeq(us) && (name == TrueName || name == FalseName || name == NullName)
    requires i + |name| <= |us| && forall k :: 0 <= k < |name| ==> us[i + k] == [name[k]]
    ensures ValueRun(us, i) == Production(Success, |name|)
  {
    assert us[i] == [name[0]];
    assert ValueRun(us, i) == MatchLiteral(us, i, name);
  }

  /** A number of RFC 8259 closed at its end is accepted. */
  lemma NumberAccepted(us: seq<Unit>, i: nat, m: seq<Unit>, n: seq<Unit>, f: seq<Unit>, e: seq<Unit>)
    requires IsUnitSeq(us) && i < |us|
    requires Numbers.IsMinusPart(m) && Numbers.IsIntPart(n) && Numbers.IsFracPart(f) && Numbers.IsExpPart(e)
    requires Spells(us, i, m) && Spells(us, i + |m|, n)
    requires Spells(us, i + |m| + |n|, f) && Spells(us, i + |m| + |n| + |f|, e)
    requires Numbers.ClosedAt(us, i + |m| + |n| + |f| + |e|)
    ensures ValueRun(us, i) == Production(Success, |m| + |n| + |f| + |e|)
  {
    if m == [] {
      SpellsAt(us, i, n, 0);
    } else {
      SpellsAt(us, i, m, 0);
    }
    assert ValueRun(us, i) == Numbers.NumberRun(us, i, Numbers.Begin, 0);
    Numbers.AcceptsRfcNumber(us, i, m, n, f, e);
  }

  /** A complete string is accepted. */
  lemma StringAccepted(us: seq<Unit>, i: nat, width: nat)
    requires IsUnitSeq(us) && Strings.IsStringSpan(us, i, width)
    ensures ValueRun(us, i) == Production(Success, width)
  {
    assert ValueRun(us, i) == Strings.StringRun(us, i, Strings.Begin, 0);
    Strings.AcceptsString(us, i, width);
  }

  /** `{` and whitespace bring the object to where a key may start. */
  lemma ObjectOpens(us: seq<Unit>, i: nat, blank: nat)
    requires IsUnitSeq(us) && i + 1 + blank <= |us|
    requires Is(us[i], LeftBrace) && AllWhitespace(us, i + 1, i + 1 + blank)
    ensures ValueRun(us, i) == ObjectRun(us, i, Key, 1 + blank)
  {
    assert ValueRun(us, i) == ObjectRun(us, i, ObjectOpen, 0);
    ObjectSkipTo(us, i, ObjectOpen, i, 0, us[i], Key);
    ObjectSkipsWhitespace(us, i, Key, 1, blank);
  }

  /** `[` and whitespace bring the array to where an element may start. */
  lemma ArrayOpens(us: seq<Unit>, i: nat, blank: nat)
    requires IsUnitSeq(us) && i + 1 + blank <= |us|
    requires Is(us[i], LeftBracket) && AllWhitespace(us, i + 1, i + 1 + blank)
    ensures ValueRun(us, i) == ArrayRun(us, i, Element, 1 + blank)
  {
    assert ValueRun(us, i) == ArrayRun(us, i, ArrayOpen, 0);
    ArraySkipTo(us, i, ArrayOpen, i, 0, us[i], Element);
    ArraySkipsWhitespace(us, i, Element, 1, blank);
  }

  // Each lemma below takes both the count `ptr` of units the container has
  // consumed and the position `i == start + ptr` of the next unit, and
  // states its facts about the document at `i`.

  /** Whitespace, a key, whitespace, `:` and whitespace bring the object to
      where a member value is expected. */
  lemma MemberHeadRun(us: seq<Unit>, start: nat, ptr: nat, i: nat, lead: nat, key: nat,
                      beforeColon: nat, afterColon: nat, ptrValue: nat)
    requires IsUnitSeq(us) && start < |us| && ptr > 0 && i == start + ptr
    requires ptrValue == ptr + lead + key + beforeColon + 1 + afterColon
    requires i + lead + key + beforeColon + 1 + afterColon <= |us|
    requires AllWhitespace(us, i, i + lead) && Strings.IsStringSpan(us, i + lead, key) == true
    requires AllWhitespace(us, i + lead + key, i + lead + key + beforeColon)
    requires Is(us[i + lead + key + beforeColon], Colon)
    requires AllWhitespace(us, i + lead + key + beforeColon + 1, i + lead + key + beforeColon + 1 + afterColon)
    ensures ObjectRun(us, start, Key, ptr) == ObjectRun(us, start, MemberValue, ptrValue)
  {
    KeyRun(us, start, ptr, i, lead, key);
    ColonRun(us, start, ptr + lead + key, i + lead + key, beforeColon, afterColon);
  }

  /** Whitespace and a key bring the object to where `:` is expected. */
  lemma KeyRun(us: seq<Unit>, start: nat, ptr: nat, i: nat, lead: nat, key: nat)
    requires IsUnitSeq(us) && start < |us| && ptr > 0 && i == start + ptr
    requires i + lead + key <= |us|
    requires AllWhitespace(us, i, i + lead) && Strings.IsStringSpan(us, i + lead, key)
    ensures ObjectRun(us, start, Key, ptr) == ObjectRun(us, start, PendingValue, ptr + lead + key)
  {
    var keyAt := ptr + lead;
    ObjectSkipsWhitespace(us, start, Key, ptr, lead);
    Strings.AcceptsString(us, start + keyAt, key);
    ObjectKeyAt(us, start, start + keyAt, keyAt, us[start + keyAt], Strings.StringRun(us, start + keyAt, Strings.Begin, 0));
  }

  /** Whitespace, `:` and whitespace bring the object to where a member
      value is expected. */
  lemma ColonRun(us: seq<Unit>, start: nat, ptr: nat, i: nat, beforeColon: nat, afterColon: nat)
    requires IsUnitSeq(us) && start < |us| && ptr > 0 && i == start + ptr
    requires i + beforeColon + 1 + afterColon <= |us|
    requires AllWhitespace(us, i, i + beforeColon) && Is(us[i + beforeColon], Colon)
    requires AllWhitespace(us, i + beforeColon + 1, i + beforeColon + 1 + afterColon)
    ensures ObjectRun(us, start, PendingValue, ptr) ==
              ObjectRun(us, start, MemberValue, ptr + beforeColon + 1 + afterColon)
  {
    AfterKey(us, start, ptr, beforeColon);
    ObjectSkipsWhitespace(us, start, MemberValue, ptr + beforeColon + 1, afterColon);
  }

  /** A member value of `width` units, whitespace, and then `}` (when
      `last`) or `,`. */
  lemma MemberValueRun(us: seq<Unit>, start: nat, ptr: nat, i: nat, width: nat, trail: nat, last: bool)
    requires IsUnitSeq(us) && start < |us| && ptr > 0 && i == start + ptr
    requires i + width + trail < |us|
    requires !IsInsignificantWhitespace(us[i]) && ValueRun(us, i) == Production(Success, width)
    requires AllWhitespace(us, i + width, i + width + trail)
    requires Is(us[i + width + trail], if last then RightBrace else Comma)
    ensures var next := ptr + width + trail + 1;
      ObjectRun(us, start, MemberValue, ptr) ==
        if last then Production(Success, next) else ObjectRun(us, start, Key, next)
  {
    ObjectValueAt(us, start, i, ptr, us[i], ValueRun(us, i));
    AfterMemberValue(us, start, ptr + width, trail);
  }

  /** An element of `width` units, whitespace, and then `]` (when `last`)
      or `,`. */
  lemma ElementValueRun(us: seq<Unit>, start: nat, ptr: nat, i: nat, width: nat, trail: nat, last: bool)
    requires IsUnitSeq(us) && start < |us| && ptr > 0 && i == start + ptr
    requires i + width + trail < |us|
    requires ValueTypeOf(us[i]) != Unknown && ValueRun(us, i) == Production(Success, width)
    requires AllWhitespace(us, i + width, i + width + trail)
    requires Is(us[i + width + trail], if last then RightBracket else Comma)
    ensures var next := ptr + width + trail + 1;
      ArrayRun(us, start, Element, ptr) ==
        if last then Production(Success, next) else ArrayRun(us, start, Element, next)
  {
    ArrayNestAt(us, start, Element, i, ptr, us[i], ValueRun(us, i));
    AfterElement(us, start, ptr + width, trail);
  }

  // ---------------------------------------------------------------------
  // The validator accepts every JSON text laid out one unit per token character

  /** Whitespace between top-level values is consumed one unit at a time. */
  lemma {:induction false} DocumentSkipsWhitespace(us: seq<Unit>, i: nat, n: nat)
    requires IsUnitSeq(us) && i + n <= |us| && AllWhitespace(us, i, i + n)
    ensures DocumentRun(us, i) == DocumentRun(us, i + n)
    decreases n
  {
    if n > 0 {
      assert IsInsignificantWhitespace(us[i]);
      DocumentStep(us, i, ValueRun(us, i));
      DocumentSkipsWhitespace(us, i + 1, n - 1);
    }
  }

  /** Grammar fidelity for whole documents: every JSON text of RFC 8259,
      section 2, whose token characters are units of their own (as
      `IsJsonText` demands) is accepted by `validate`. */
  lemma JsonTextAccepted(us: seq<Unit>, lead: nat, v: Json)
    requires IsUnitSeq(us) && IsJsonText(us, lead, v)
    ensures DocumentRun(us, 0) == Accepted
  {
    TopValueAccepted(us, lead, v);
    DocumentSkipsWhitespace(us, 0, lead);
  }

  /** A value of the grammar followed by nothing but whitespace ends the
      document accepted. */
  lemma TopValueAccepted(us: seq<Unit>, i: nat, v: Json)
    requires IsUnitSeq(us) && i + Width(v) <= |us|
    requires IsValue(us, i, v) && AllWhitespace(us, i + Width(v), |us|)
    ensures DocumentRun(us, i) == Accepted
  {
    var end := i + Width(v);
    if end < |us| {
      assert IsInsignificantWhitespace(us[end]);
    }
    ValueAccepted(us, i, v);
    DocumentStep(us, i, ValueRun(us, i));
    DocumentSkipsWhitespace(us, end, |us| - end);
  }

  // ---------------------------------------------------------------------
  // Nesting has no limit

  /** `n` opening brackets followed by `n` closing brackets, one unit
      each. */
  function Brackets(n: nat): (us: seq<Unit>)
    ensures |us| == 2 * n && IsUnitSeq(us)
  {
    if n == 0 then [] else [[LeftBracket]] + Brackets(n - 1) + [[RightBracket]]
  }

  /** The array nested `n` deep, as a value of the grammar. */
  function Nest(n: nat): (v: Json)
    requires n >= 1
    ensures v.ArrayText? && Width(v) == 2 * n
  {
    if n == 1 then ArrayText(0, NoElements) else ArrayText(0, Elements(0, Nest(n - 1), 0, NoElements))
  }

  /** Brackets spelled anywhere in a document lay out the nested array. */
  lemma {:induction false} BracketsAreNest(us: seq<Unit>, i: nat, n: nat)
    requires IsUnitSeq(us) && n >= 1 && Spells(us, i, Brackets(n))
    ensures IsValue(us, i, Nest(n))
    decreases n
  {
    var inner := Brackets(n - 1);
    assert Brackets(n) == [[LeftBracket]] + inner + [[RightBracket]];
    SpellsSplit(us, i, [[LeftBracket]] + inner, [[RightBracket]]);
    SpellsSplit(us, i, [[LeftBracket]], inner);
    SpellsAt(us, i, [[LeftBracket]], 0);
    SpellsAt(us, i + 1 + |inner|, [[RightBracket]], 0);
    if n == 1 {
      assert IsElements(us, i + 1, NoElements);
    } else {
      var es := Elements(0, Nest(n - 1), 0, NoElements);
      BracketsAreNest(us, i + 1, n - 1);
      assert ElementShape(us, i + 1, es);
      assert IsElements(us, i + 1, es);
    }
  }

  /** Nesting has no limit: `n` opening brackets followed by `n` closing
      ones are accepted, for every depth `n`. */
  lemma NestingAccepted(n: nat)
    ensures DocumentRun(Brackets(n), 0) == Accepted
  {
    var us := Brackets(n);
    if n > 0 {
      assert us[0..|us|] == us;
      BracketsAreNest(us, 0, n);
      JsonTextAccepted(us, 0, Nest(n));
    }
  }
}
