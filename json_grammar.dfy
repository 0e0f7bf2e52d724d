/** The JSON grammar of RFC 8259, sections 2 to 7, laid out over the units
    of a document.

    Structural characters and whitespace are one-byte units. Numbers and
    strings take the forms of `Numbers.AcceptsRfcNumber` and
    `Strings.IsStringSpan`. The grammar describes a value by its parse
    tree together with its layout: the whitespace runs between tokens and
    the width of every string. */
module JsonGrammar {
  import opened Utf8Reader
  import opened Tokens
  import opened Literals
  import opened ValidatorProperties
  import Numbers
  import Strings

  /** A value: a literal name, a number by its four parts, a string of
      `width` units, or a container with the whitespace after its opener. */
  datatype Json =
    | LiteralText(name: seq<byte>)
    | NumberText(minus: seq<Unit>, integer: seq<Unit>, fraction: seq<Unit>, exponent: seq<Unit>)
    | StringText(width: nat)
    | ObjectText(blank: nat, members: Members)
    | ArrayText(blank: nat, elements: Elements)

  /** `member *( value-separator member )`: each member is whitespace, a
      key string, whitespace, `:`, whitespace, the value and whitespace; a
      `,` precedes every member but the first. */
  datatype Members =
    | NoMembers
    | Members(lead: nat, key: nat, beforeColon: nat, afterColon: nat, value: Json, trail: nat, rest: Members)

  /** `value *( value-separator value )`, with whitespace around each value. */
  datatype Elements =
    | NoElements
    | Elements(lead: nat, value: Json, trail: nat, rest: Elements)

  /** The number of units a value spans. */
  function Width(v: Json): nat
    decreases v
  {
    match v
    case LiteralText(name) => |name|
    case NumberText(m, n, f, e) => |m| + |n| + |f| + |e|
    case StringText(width) => width
    case ObjectText(blank, ms) => 1 + blank + MembersWidth(ms) + 1
    case ArrayText(blank, es) => 1 + blank + ElementsWidth(es) + 1
  }

  /** The number of units the members span, up to the closing brace. */
  function MembersWidth(ms: Members): nat
    decreases ms
  {
    match ms
    case NoMembers => 0
    case Members(lead, key, beforeColon, afterColon, value, trail, rest) =>
      lead + key + beforeColon + 1 + afterColon + Width(value) + trail +
      (if rest == NoMembers then 0 else 1 + MembersWidth(rest))
  }

  /** The number of units the elements span, up to the closing bracket. */
  function ElementsWidth(es: Elements): nat
    decreases es
  {
    match es
    case NoElements => 0
    case Elements(lead, value, trail, rest) =>
      lead + Width(value) + trail + (if rest == NoElements then 0 else 1 + ElementsWidth(rest))
  }

  /** `v` is laid out in the document from position `i` on. */
  predicate IsValue(us: seq<Unit>, i: nat, v: Json)
    requires IsUnitSeq(us)
    decreases v, 2
  {
    match v
    case LiteralText(name) =>
      && (name == TrueName || name == FalseName || name == NullName)
      && i + |name| <= |us|
      && forall k :: 0 <= k < |name| ==> us[i + k] == [name[k]]
    case NumberText(m, n, f, e) =>
      && Numbers.IsMinusPart(m) && Numbers.IsIntPart(n) && Numbers.IsFracPart(f) && Numbers.IsExpPart(e)
      && Spells(us, i, m) && Spells(us, i + |m|, n)
      && Spells(us, i + |m| + |n|, f) && Spells(us, i + |m| + |n| + |f|, e)
    case StringText(width) =>
      Strings.IsStringSpan(us, i, width)
    case ObjectText(blank, ms) =>
      var close := i + 1 + blank + MembersWidth(ms);
      && close < |us|
      && Is(us[i], LeftBrace) && AllWhitespace(us, i + 1, i + 1 + blank)
      && IsMembers(us, i + 1 + blank, ms) && Is(us[close], RightBrace)
    case ArrayText(blank, es) =>
      var close := i + 1 + blank + ElementsWidth(es);
      && close < |us|
      && Is(us[i], LeftBracket) && AllWhitespace(us, i + 1, i + 1 + blank)
      && IsElements(us, i + 1 + blank, es) && Is(us[close], RightBracket)
  }

  /** The members `ms` are laid out from position `i` on. */
  predicate IsMembers(us: seq<Unit>, i: nat, ms: Members)
    requires IsUnitSeq(us)
    decreases ms, 1
  {
    match ms
    case NoMembers => true
    case Members(lead, key, beforeColon, afterColon, value, trail, rest) =>
      && MemberShape(us, i, ms)
      && (rest != NoMembers ==>
            IsMembers(us, i + lead + key + beforeColon + 1 + afterColon + Width(value) + trail + 1, rest))
  }

  /** The first member laid out from `i`: whitespace, a key string,
      whitespace, `:`, whitespace, the value, whitespace, and then `}`
      after the last member or `,` before the next. */
  predicate MemberShape(us: seq<Unit>, i: nat, ms: Members)
    requires IsUnitSeq(us) && ms.Members?
    decreases ms, 0
  {
    var k := i + ms.lead;
    var c := k + ms.key + ms.beforeColon;
    var p := c + 1 + ms.afterColon;
    var e := p + Width(ms.value) + ms.trail;
    && e < |us|
    && AllWhitespace(us, i, k) && Strings.IsStringSpan(us, k, ms.key)
    && AllWhitespace(us, k + ms.key, c) && Is(us[c], Colon) && AllWhitespace(us, c + 1, p)
    && IsValue(us, p, ms.value) && AllWhitespace(us, p + Width(ms.value), e)
    && Is(us[e], if ms.rest == NoMembers then RightBrace else Comma)
  }

  /** The elements `es` are laid out from position `i` on. */
  predicate IsElements(us: seq<Unit>, i: nat, es: Elements)
    requires IsUnitSeq(us)
    decreases es, 1
  {
    match es
    case NoElements => true
    case Elements(lead, value, trail, rest) =>
      && ElementShape(us, i, es)
      && (rest != NoElements ==> IsElements(us, i + lead + Width(value) + trail + 1, rest))
  }

  /** The first element laid out from `i`: whitespace, the value,
      whitespace, and then `]` after the last element or `,` before the
      next. */
  predicate ElementShape(us: seq<Unit>, i: nat, es: Elements)
    requires IsUnitSeq(us) && es.Elements?
    decreases es, 0
  {
    var p := i + es.lead;
    var e := p + Width(es.value) + es.trail;
    && e < |us|
    && AllWhitespace(us, i, p) && IsValue(us, p, es.value) && AllWhitespace(us, p + Width(es.value), e)
    && Is(us[e], if es.rest == NoElements then RightBracket else Comma)
  }

  /** A JSON text, `ws value ws`, spanning the whole document. */
  predicate IsJsonText(us: seq<Unit>, lead: nat, v: Json)
    requires IsUnitSeq(us)
  {
    && lead + Width(v) <= |us|
    && AllWhitespace(us, 0, lead) && IsValue(us, lead, v)
    && AllWhitespace(us, lead + Width(v), |us|)
  }

}
