/** The vocabulary shared by the grammar productions of src/validator.rs:
    the token constants, the result every production returns, the width-1
    read of one unit, whitespace and the dispatch on a value's first unit. */
module Tokens {
  import opened Utf8Reader

  // Structural tokens
  const LeftBracket: byte := 0x5B     // [
  const RightBracket: byte := 0x5D    // ]
  const LeftBrace: byte := 0x7B       // {
  const RightBrace: byte := 0x7D      // }
  const Colon: byte := 0x3A           // :
  const Comma: byte := 0x2C           // ,

  // Literal names and their leading units
  const TrueName: seq<byte> := [0x74, 0x72, 0x75, 0x65]          // true
  const FalseName: seq<byte> := [0x66, 0x61, 0x6C, 0x73, 0x65]   // false
  const NullName: seq<byte> := [0x6E, 0x75, 0x6C, 0x6C]          // null
  const LetterT: byte := 0x74         // t
  const LetterF: byte := 0x66         // f
  const LetterN: byte := 0x6E         // n

  // Insignificant whitespace
  const Tab: byte := 0x09
  const LineFeed: byte := 0x0A
  const CarriageReturn: byte := 0x0D
  const Space: byte := 0x20

  // Units with a role inside strings and numbers
  const Quote: byte := 0x22           // "
  const ReverseSolidus: byte := 0x5C  // \
  const Solidus: byte := 0x2F         // /
  const LetterB: byte := 0x62         // b
  const LetterR: byte := 0x72         // r
  const LetterU: byte := 0x75         // u
  const Minus: byte := 0x2D           // -
  const Plus: byte := 0x2B            // +
  const DecimalPoint: byte := 0x2E    // .
  const LowerE: byte := 0x65          // e
  const UpperE: byte := 0x45          // E
  const Zero: byte := 0x30            // 0

  /** Why a production failed: one case per error message of the source,
      carrying the unit the message quotes. */
  datatype Reason =
    | ObjectStart
    | ObjectKeyStart
    | AfterObjectKey(found: Unit)
    | AfterObjectValue(found: Unit)
    | ObjectNotClosed
    | ArrayStart
    | AfterArrayValue(found: Unit)
    | ArrayNotClosed
    | NumberRejected(error: NumberError, found: Unit)
    | StringStart
    | InvalidEscape(found: Unit)
    | InvalidUnicode(found: Unit)
    | StringNotClosed
    | LiteralMismatch(expected: seq<byte>, segment: ReaderResult)
    | UnknownCharacter(found: Unit)

  /** The error messages of `validate_number`, one per state that can
      reject a unit. */
  datatype NumberError =
    | NumberLeading
    | AfterLeadingMinus
    | LeadingZeros
    | AfterLeadingZero
    | IntegerPart
    | AfterDecimalPoint
    | FractionPart
    | ExponentPart

  datatype Outcome = Success | Failure(reason: Reason)

  /** What every production returns: its outcome and the number of units it
      consumed, on failure too. */
  datatype Production = Production(outcome: Outcome, step: nat)

  /** The unit is the one-character string of ASCII byte `b`: the source's
      comparison of a unit with a one-character string literal. */
  predicate Is(chr: Unit, b: byte)
  {
    |chr| == 1 && chr[0] == b
  }

  /** A unit that is exactly one ASCII digit. */
  predicate IsDigitUnit(u: Unit)
  {
    |u| == 1 && 0x30 <= u[0] <= 0x39
  }

  /** The unit at `index`, read as a width-1 look-ahead. Every caller has
      checked `index < len` first, so the read is in bounds. */
  function Char(r: Reader, index: nat): (c: Unit)
    requires Valid(r) && index < Len(r)
    ensures c == Units(r)[index] && |c| > 0
  {
    SingleUnit(r, index);
    Unwrap(LookAhead(r, index, 1))
  }

  /** A sequence of units as the reader delivers them: none is empty. The
      grammar productions are specified over the document's units. */
  predicate IsUnitSeq(us: seq<Unit>)
  {
    forall k :: 0 <= k < |us| ==> |us[k]| > 0
  }

  /** The units from `pos` on are the units of `s`. */
  predicate Spells(us: seq<Unit>, pos: nat, s: seq<Unit>)
  {
    pos + |s| <= |us| && us[pos..pos + |s|] == s
  }

  /** Spelling a concatenation is spelling each part in turn. */
  lemma SpellsSplit(us: seq<Unit>, pos: nat, a: seq<Unit>, b: seq<Unit>)
    ensures Spells(us, pos, a + b) <==> Spells(us, pos, a) && Spells(us, pos + |a|, b)
  {
    if pos + |a| + |b| <= |us| {
      var whole := us[pos..pos + |a| + |b|];
      assert whole[..|a|] == us[pos..pos + |a|];
      assert whole[|a|..] == us[pos + |a|..pos + |a| + |b|];
      assert whole == whole[..|a|] + whole[|a|..];
      assert (a + b)[..|a|] == a && (a + b)[|a|..] == b;
    }
  }

  /** A spelling names each unit it covers. */
  lemma SpellsAt(us: seq<Unit>, pos: nat, s: seq<Unit>, k: nat)
    requires Spells(us, pos, s) && k < |s|
    ensures us[pos + k] == s[k]
  {
    assert us[pos..pos + |s|][k] == us[pos + k];
  }

  /** `is_insignificant_whitespace`: tab, line feed, carriage return or space. */
  predicate IsInsignificantWhitespace(chr: Unit): (b: bool)
    ensures b ==> |chr| == 1 && ValueTypeOf(chr) == Unknown
  {
    Is(chr, Tab) || Is(chr, LineFeed) || Is(chr, CarriageReturn) || Is(chr, Space)
  }

  /** The four whitespace units are exactly the one-byte units U+0009,
      U+000A, U+000D and U+0020. */
  lemma WhitespaceIsFourBytes(chr: Unit)
    ensures IsInsignificantWhitespace(chr) <==>
              |chr| == 1 && (chr[0] == 0x09 || chr[0] == 0x0A || chr[0] == 0x0D || chr[0] == 0x20)
  {
  }

  /** The productions a value can start: `JSONValue` of the source. */
  datatype JsonValue = Object | Array | Number | String | True | False | Null | Unknown

  /** The production a unit starts, by the tests of
      `get_next_json_value_type`. */
  function ValueTypeOf(chr: Unit): (t: JsonValue)
    ensures t == Object <==> Is(chr, LeftBrace)
    ensures t == Array <==> Is(chr, LeftBracket)
    ensures t == Number <==> IsDigitUnit(chr) || Is(chr, Minus)
    ensures t == String <==> Is(chr, Quote)
    ensures t == True <==> Is(chr, LetterT)
    ensures t == False <==> Is(chr, LetterF)
    ensures t == Null <==> Is(chr, LetterN)
  {
    if Is(chr, LeftBrace) then Object
    else if Is(chr, LeftBracket) then Array
    else if IsDigitUnit(chr) || Is(chr, Minus) then Number
    else if Is(chr, Quote) then String
    else if Is(chr, LetterT) then True
    else if Is(chr, LetterF) then False
    else if Is(chr, LetterN) then Null
    else Unknown
  }

  /** A unit is of no known type exactly when it is not one of the
      seventeen one-byte units `{ [ - " t f n 0 1 2 3 4 5 6 7 8 9`. */
  lemma UnknownIsTheRest(chr: Unit)
    ensures ValueTypeOf(chr) == Unknown <==>
              |chr| != 1 ||
              chr[0] !in {0x7B, 0x5B, 0x2D, 0x22, 0x74, 0x66, 0x6E, 0x30, 0x31,
                          0x32, 0x33, 0x34, 0x35, 0x36, 0x37, 0x38, 0x39}
  {
  }

  /** `get_next_json_value_type`: classify the unit at the cursor. */
  function NextValueType(r: Reader, index: nat): (t: JsonValue)
    requires Valid(r) && index < Len(r)
    ensures t == ValueTypeOf(Units(r)[index])
  {
    ValueTypeOf(Char(r, index))
  }
}
