/** The literal matchers `validate_true`, `validate_false` and `validate_null`
    of src/validator.rs: a fixed-width look-ahead compared with the literal
    name. A shortfall from the reader counts as a mismatch. Each matcher
    reports the literal's width as consumed, whether it matched or not. */
module Literals {
  import opened Utf8Reader
  import opened Tokens

  /** What a look-ahead of `width` units from `start` yields, stated on the
      document's units. */
  function Segment(us: seq<Unit>, start: nat, width: nat): (res: ReaderResult)
    requires start <= |us|
    ensures res.OutOfBoundError? <==> start + width > |us|
  {
    if start + width > |us| then OutOfBoundError(|us| - start)
    else Ok(Concat(us[start..start + width]))
  }

  /** `Segment` is `look_ahead` read off the reader's units. */
  lemma SegmentIsLookAhead(r: Reader, start: nat, width: nat)
    requires Valid(r) && start <= Len(r)
    ensures Segment(Units(r), start, width) == LookAhead(r, start, width)
  {
  }

  /** The specification of the three matchers: the literal is consumed
      whole, and it matches exactly when the next `|name|` units are its
      bytes, one byte per unit. A mismatch quotes what was read. */
  function MatchLiteral(us: seq<Unit>, start: nat, name: seq<byte>): (p: Production)
    requires IsUnitSeq(us) && start <= |us|
    ensures p.step == |name|
    ensures p.outcome.Success? <==>
              start + |name| <= |us| && forall k :: 0 <= k < |name| ==> us[start + k] == [name[k]]
    ensures p.outcome.Failure? ==> p.outcome.reason == LiteralMismatch(name, Segment(us, start, |name|))
  {
    SpelledBy(us, start, name);
    var segment := Segment(us, start, |name|);
    if segment == Ok(name) then Production(Success, |name|)
    else Production(Failure(LiteralMismatch(name, segment)), |name|)
  }

  /** `validate_true`: the next 4 units must spell `true`. */
  function ValidateTrue(r: Reader, start: nat): (p: Production)
    requires Valid(r) && start <= Len(r)
    ensures p == MatchLiteral(Units(r), start, TrueName)
  {
    var segment := LookAhead(r, start, 4);
    if segment == Ok(TrueName) then Production(Success, 4)
    else Production(Failure(LiteralMismatch(TrueName, segment)), 4)
  }

  /** `validate_false`: the next 5 units must spell `false`. */
  function ValidateFalse(r: Reader, start: nat): (p: Production)
    requires Valid(r) && start <= Len(r)
    ensures p == MatchLiteral(Units(r), start, FalseName)
  {
    var segment := LookAhead(r, start, 5);
    if segment == Ok(FalseName) then Production(Success, 5)
    else Production(Failure(LiteralMismatch(FalseName, segment)), 5)
  }

  /** `validate_null`: the next 4 units must spell `null`. */
  function ValidateNull(r: Reader, start: nat): (p: Production)
    requires Valid(r) && start <= Len(r)
    ensures p == MatchLiteral(Units(r), start, NullName)
  {
    var segment := LookAhead(r, start, 4);
    if segment == Ok(NullName) then Production(Success, 4)
    else Production(Failure(LiteralMismatch(NullName, segment)), 4)
  }

  // ---------------------------------------------------------------------
  // Why a look-ahead compares unit by unit

  /** Non-empty units hold at least one byte each. */
  lemma {:induction false} ConcatLength(us: seq<Unit>)
    requires IsUnitSeq(us)
    ensures |Concat(us)| >= |us|
    decreases |us|
  {
    if us != [] {
      ConcatLength(us[1..]);
    }
  }

  /** As many non-empty units as bytes concatenate to those bytes exactly
      when every unit is the one corresponding byte. */
  lemma {:induction false} ConcatOfSingles(us: seq<Unit>, bytes: seq<byte>)
    requires IsUnitSeq(us)
    requires |us| == |bytes|
    ensures Concat(us) == bytes <==> forall k :: 0 <= k < |us| ==> us[k] == [bytes[k]]
    decreases |us|
  {
    if us != [] {
      ConcatOfSingles(us[1..], bytes[1..]);
      ConcatLength(us[1..]);
      if Concat(us) == bytes {
        assert us[0] == bytes[..|us[0]|];
        assert Concat(us[1..]) == bytes[|us[0]|..];
        assert us[0] == [bytes[0]];
        forall k | 0 <= k < |us| ensures us[k] == [bytes[k]] {
          if k > 0 {
            assert us[1..][k - 1] == [bytes[1..][k - 1]];
          }
        }
      }
      if forall k :: 0 <= k < |us| ==> us[k] == [bytes[k]] {
        forall k | 0 <= k < |us| - 1 ensures us[1..][k] == [bytes[1..][k]] {
          assert us[k + 1] == [bytes[k + 1]];
        }
        assert bytes == [bytes[0]] + bytes[1..];
      }
    }
  }

  /** A look-ahead of `|name|` units equals `name` exactly when those units
      are the bytes of `name`, one byte per unit. */
  lemma SpelledBy(us: seq<Unit>, start: nat, name: seq<byte>)
    requires IsUnitSeq(us) && start <= |us|
    ensures Segment(us, start, |name|) == Ok(name) <==>
              start + |name| <= |us| &&
              forall k :: 0 <= k < |name| ==> us[start + k] == [name[k]]
  {
    if start + |name| <= |us| {
      var part := us[start..start + |name|];
      ConcatOfSingles(part, name);
      assert forall k :: 0 <= k < |name| ==> part[k] == us[start + k];
    }
  }
}
