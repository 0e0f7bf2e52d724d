/** The grapheme-indexed document reader (`UTF8Reader` in src/utils.rs).

    The document is a UTF-8 byte string. Its atomic units are the extended
    grapheme clusters produced by a segmentation library, which this model
    takes as an input: a sequence of non-empty byte strings whose
    concatenation is the document. The reader keeps a table of byte offsets,
    one per unit plus a final entry, and answers bounded look-ahead queries
    by slicing the document between two table entries.
 */
module Utf8Reader {

  newtype byte = b: int | 0 <= b < 0x100

  /** One atomic unit (a grapheme cluster) as its UTF-8 bytes. */
  type Unit = seq<byte>

  /** `UTF8ReaderResult`: the requested slice, or how many units remain. */
  datatype ReaderResult = Ok(slice: seq<byte>) | OutOfBoundError(remaining: nat)

  /** `UTF8Reader`: the document and its `begin_index_map`. Neither field is
      changed after construction, so the reader is a value. */
  datatype Reader = Reader(document: seq<byte>, beginIndexMap: seq<nat>)

  /** The concatenation of a sequence of units. */
  function Concat(us: seq<Unit>): (bytes: seq<byte>)
  {
    if us == [] then [] else us[0] + Concat(us[1..])
  }

  /** The reader invariant: the offset table starts at 0, ends at the
      document's byte length, never points past it and increases strictly
      from each entry to the next (every unit is non-empty). */
  predicate Valid(r: Reader)
  {
    var m := r.beginIndexMap;
    && |m| >= 1
    && m[0] == 0
    && m[|m| - 1] == |r.document|
    && (forall k :: 0 <= k < |m| - 1 ==> m[k] < m[k + 1])
    && (forall k :: 0 <= k < |m| ==> m[k] <= |r.document|)
  }

  /** `len`: the number of units, one less than the table size. */
  function Len(r: Reader): (n: nat)
    requires Valid(r)
    ensures n <= |r.document|
    ensures n == 0 <==> r.document == []
  {
    OffsetsFromIndex(r.beginIndexMap, |r.beginIndexMap| - 1);
    |r.beginIndexMap| - 1
  }

  /** A strictly increasing table from 0 has entry `k` at least `k`: each
      unit holds at least one byte. */
  lemma {:induction false} OffsetsFromIndex(m: seq<nat>, k: nat)
    requires k < |m| && m[0] == 0
    requires forall j :: 0 <= j < |m| - 1 ==> m[j] < m[j + 1]
    ensures k <= m[k]
    decreases k
  {
    if k > 0 {
      OffsetsFromIndex(m, k - 1);
    }
  }

  /** The units the table describes: unit `k` is the document between the
      offsets `k` and `k + 1`. */
  function Units(r: Reader): (us: seq<Unit>)
    requires Valid(r)
    ensures |us| == Len(r)
    ensures forall k :: 0 <= k < |us| ==> |us[k]| > 0
  {
    UnitsBefore(r, Len(r))
  }

  /** The first `n` units. */
  function UnitsBefore(r: Reader, n: nat): (us: seq<Unit>)
    requires Valid(r) && n <= Len(r)
    ensures |us| == n
    ensures forall k :: 0 <= k < n ==> |us[k]| > 0
    decreases n, 1
  {
    if n == 0 then [] else UnitsThrough(r, n - 1)
  }

  /** The first `k + 1` units: the first `k` and then unit `k`. */
  function UnitsThrough(r: Reader, k: nat): (us: seq<Unit>)
    requires Valid(r) && k < Len(r)
    ensures |us| == k + 1
    ensures forall j :: 0 <= j <= k ==> |us[j]| > 0
    decreases k + 1, 0
  {
    UnitsBefore(r, k) + [r.document[r.beginIndexMap[k]..r.beginIndexMap[k + 1]]]
  }

  /** Unit `k` is the document between table entries `k` and `k + 1`. */
  lemma UnitAt(r: Reader, k: nat)
    requires Valid(r) && k < Len(r)
    ensures r.beginIndexMap[k] < r.beginIndexMap[k + 1]
    ensures Units(r)[k] == r.document[r.beginIndexMap[k]..r.beginIndexMap[k + 1]]
  {
    UnitBefore(r, Len(r), k);
  }

  /** The same within the first `n` units. */
  lemma {:induction false} UnitBefore(r: Reader, n: nat, k: nat)
    requires Valid(r) && k < n <= Len(r)
    ensures UnitsBefore(r, n)[k] == r.document[r.beginIndexMap[k]..r.beginIndexMap[k + 1]]
    decreases n
  {
    assert UnitsBefore(r, n) == UnitsThrough(r, n - 1);
    if k < n - 1 {
      UnitBefore(r, n - 1, k);
    }
  }

  /** `look_ahead(index, width)`: the bytes of units `[index, index + width)`,
      or the number of units left when fewer than `width` remain. The source
      computes `len - index` on unsigned integers, so callers must not ask
      beyond the end. */
  function LookAhead(r: Reader, index: nat, width: nat): (res: ReaderResult)
    requires Valid(r) && index <= Len(r)
    ensures res.OutOfBoundError? <==> index + width > Len(r)
    ensures res.OutOfBoundError? ==> res.remaining == Len(r) - index
    ensures res.Ok? ==> res.slice == Concat(Units(r)[index..index + width])
  {
    var l := Len(r);
    if index + width > l then
      OutOfBoundError(l - index)
    else
      SliceIsConcat(r, index, index + width);
      Ok(r.document[r.beginIndexMap[index]..r.beginIndexMap[index + width]])
  }

  /** `UTF8ReaderResult::unwrap`: the slice; the source panics on a shortfall,
      so a shortfall is excluded here. */
  function Unwrap(res: ReaderResult): (s: seq<byte>)
    requires res.Ok?
    ensures Ok(s) == res
  {
    match res
    case Ok(s) => s
  }

  /** The last unit of the document. The validator calls `get_tail()` on the
      reader, which src/utils.rs does not define; this model assumes it
      returns the last unit. */
  function Tail(r: Reader): (u: Unit)
    requires Valid(r) && Len(r) > 0
    ensures u == Units(r)[Len(r) - 1]
  {
    SingleUnit(r, Len(r) - 1);
    Unwrap(LookAhead(r, Len(r) - 1, 1))
  }

  /** `UTF8Reader::new`: builds the offset table with a running sum of the
      graphemes' byte lengths, then appends the total. */
  method New(document: seq<byte>, graphemes: seq<Unit>) returns (r: Reader)
    requires forall k :: 0 <= k < |graphemes| ==> |graphemes[k]| > 0
    requires Concat(graphemes) == document
    ensures r.document == document
    ensures |r.beginIndexMap| == |graphemes| + 1
    ensures forall k :: 0 <= k <= |graphemes| ==> r.beginIndexMap[k] == |Concat(graphemes[..k])|
    ensures forall k :: 0 <= k < |graphemes| ==>
              r.beginIndexMap[k] + |graphemes[k]| == r.beginIndexMap[k + 1]
    ensures Valid(r) && Units(r) == graphemes
  {
    var sum := 0;
    var beginIndexMap: seq<nat> := [];
    var k := 0;
    while k < |graphemes|
      invariant 0 <= k <= |graphemes|
      invariant |beginIndexMap| == k
      invariant sum == |Concat(graphemes[..k])|
      invariant forall j :: 0 <= j < k ==> beginIndexMap[j] == |Concat(graphemes[..j])|
    {
      beginIndexMap := beginIndexMap + [sum];
      PrefixStep(graphemes, k);
      sum := sum + |graphemes[k]|;
      k := k + 1;
    }
    assert graphemes[..k] == graphemes;
    beginIndexMap := beginIndexMap + [sum];
    r := Reader(document, beginIndexMap);
    OffsetTable(r, graphemes);
  }

  /** A table of the running byte sums of non-empty graphemes that ends
      with the total makes a valid reader whose units are the graphemes. */
  lemma OffsetTable(r: Reader, graphemes: seq<Unit>)
    requires forall k :: 0 <= k < |graphemes| ==> |graphemes[k]| > 0
    requires Concat(graphemes) == r.document
    requires |r.beginIndexMap| == |graphemes| + 1
    requires forall k :: 0 <= k <= |graphemes| ==> r.beginIndexMap[k] == |Concat(graphemes[..k])|
    ensures forall k :: 0 <= k < |graphemes| ==>
              r.beginIndexMap[k] + |graphemes[k]| == r.beginIndexMap[k + 1]
    ensures Valid(r) && Units(r) == graphemes
  {
    var m := r.beginIndexMap;
    forall k | 0 <= k < |graphemes|
      ensures m[k] + |graphemes[k]| == m[k + 1]
    {
      PrefixStep(graphemes, k);
    }
    OffsetsValid(r, graphemes);
    UnitsAreGraphemes(r, graphemes);
  }

  /** Under a valid table of running sums, unit `k` is grapheme `k`. */
  lemma UnitsAreGraphemes(r: Reader, graphemes: seq<Unit>)
    requires Valid(r) && Concat(graphemes) == r.document
    requires |r.beginIndexMap| == |graphemes| + 1
    requires forall k :: 0 <= k <= |graphemes| ==> r.beginIndexMap[k] == |Concat(graphemes[..k])|
    ensures Units(r) == graphemes
  {
    forall k | 0 <= k < |graphemes|
      ensures Units(r)[k] == graphemes[k]
    {
      UnitIsGrapheme(r, graphemes, k);
    }
  }

  /** Unit `k` of a table of running sums is grapheme `k`. */
  lemma UnitIsGrapheme(r: Reader, graphemes: seq<Unit>, k: nat)
    requires Valid(r) && Concat(graphemes) == r.document
    requires |r.beginIndexMap| == |graphemes| + 1 && k < |graphemes|
    requires r.beginIndexMap[k] == |Concat(graphemes[..k])|
    requires r.beginIndexMap[k + 1] == |Concat(graphemes[..k + 1])|
    ensures Units(r)[k] == graphemes[k]
  {
    UnitAt(r, k);
    PrefixSegment(graphemes, k);
  }

  /** The table of running sums is a valid offset table. */
  lemma OffsetsValid(r: Reader, graphemes: seq<Unit>)
    requires forall k :: 0 <= k < |graphemes| ==> |graphemes[k]| > 0
    requires Concat(graphemes) == r.document
    requires |r.beginIndexMap| == |graphemes| + 1
    requires forall k :: 0 <= k <= |graphemes| ==> r.beginIndexMap[k] == |Concat(graphemes[..k])|
    ensures Valid(r)
  {
    var m := r.beginIndexMap;
    SumsEnds(m, graphemes);
    SumsIncrease(m, graphemes);
    SumsBounded(m, graphemes);
  }

  /** The running sums start at 0 and end at the total byte length. */
  lemma SumsEnds(m: seq<nat>, graphemes: seq<Unit>)
    requires |m| == |graphemes| + 1
    requires forall k :: 0 <= k <= |graphemes| ==> m[k] == |Concat(graphemes[..k])|
    ensures m[0] == 0 && m[|m| - 1] == |Concat(graphemes)|
  {
    assert graphemes[..0] == [];
    assert graphemes[..|graphemes|] == graphemes;
  }

  /** Running sums of non-empty graphemes increase from each entry to
      the next. */
  lemma SumsIncrease(m: seq<nat>, graphemes: seq<Unit>)
    requires forall k :: 0 <= k < |graphemes| ==> |graphemes[k]| > 0
    requires |m| == |graphemes| + 1
    requires forall k :: 0 <= k <= |graphemes| ==> m[k] == |Concat(graphemes[..k])|
    ensures forall k :: 0 <= k < |m| - 1 ==> m[k] < m[k + 1]
  {
    forall k | 0 <= k < |m| - 1
      ensures m[k] < m[k + 1]
    {
      PrefixStep(graphemes, k);
    }
  }

  /** No running sum exceeds the total. */
  lemma SumsBounded(m: seq<nat>, graphemes: seq<Unit>)
    requires |m| == |graphemes| + 1
    requires forall k :: 0 <= k <= |graphemes| ==> m[k] == |Concat(graphemes[..k])|
    ensures forall k :: 0 <= k < |m| ==> m[k] <= |Concat(graphemes)|
  {
    forall k | 0 <= k < |m|
      ensures m[k] <= |Concat(graphemes)|
    {
      assert graphemes == graphemes[..k] + graphemes[k..];
      ConcatAppend(graphemes[..k], graphemes[k..]);
    }
  }

  /** Concatenation distributes over sequence append. */
  lemma {:induction false} ConcatAppend(a: seq<Unit>, b: seq<Unit>)
    ensures Concat(a + b) == Concat(a) + Concat(b)
    decreases |a|
  {
    if a == [] {
      assert a + b == b;
    } else {
      assert (a + b)[1..] == a[1..] + b;
      ConcatAppend(a[1..], b);
    }
  }

  /** Adding one grapheme to the prefix adds its bytes to the running sum. */
  lemma PrefixStep(gs: seq<Unit>, k: nat)
    requires k < |gs|
    ensures Concat(gs[..k + 1]) == Concat(gs[..k]) + gs[k]
  {
    assert gs[..k + 1] == gs[..k] + [gs[k]];
    ConcatAppend(gs[..k], [gs[k]]);
    assert Concat([gs[k]]) == gs[k] + Concat([]);
  }

  /** Grapheme `k` lies between the byte lengths of the prefixes before and
      after it. */
  lemma PrefixSegment(gs: seq<Unit>, k: nat)
    requires k < |gs|
    ensures |Concat(gs[..k])| + |gs[k]| == |Concat(gs[..k + 1])| <= |Concat(gs)|
    ensures Concat(gs)[|Concat(gs[..k])|..|Concat(gs[..k + 1])|] == gs[k]
  {
    PrefixStep(gs, k);
    assert gs == gs[..k + 1] + gs[k + 1..];
    ConcatAppend(gs[..k + 1], gs[k + 1..]);
  }

  /** The slice between table entries `i` and `j` is the concatenation of
      units `i` to `j`. */
  lemma SliceIsConcat(r: Reader, i: nat, j: nat)
    requires Valid(r) && i <= j <= Len(r)
    ensures r.beginIndexMap[i] <= r.beginIndexMap[j]
    ensures r.document[r.beginIndexMap[i]..r.beginIndexMap[j]] == Concat(Units(r)[i..j])
  {
    var m := r.beginIndexMap;
    var us := Units(r);
    forall k | 0 <= k < |us|
      ensures us[k] == r.document[m[k]..m[k + 1]]
    {
      UnitAt(r, k);
    }
    ConcatOfSlices(r.document, m, us, i, j);
  }

  /** Consecutive slices of a byte string between increasing offsets
      concatenate to the slice between the outer offsets. */
  lemma {:induction false} ConcatOfSlices(d: seq<byte>, m: seq<nat>, us: seq<Unit>, i: nat, j: nat)
    requires i <= j < |m| && |m| == |us| + 1
    requires forall k :: 0 <= k < |m| - 1 ==> m[k] < m[k + 1]
    requires forall k :: 0 <= k < |m| ==> m[k] <= |d|
    requires forall k :: 0 <= k < |us| ==> m[k] <= m[k + 1] && us[k] == d[m[k]..m[k + 1]]
    ensures m[i] <= m[j] && d[m[i]..m[j]] == Concat(us[i..j])
    decreases j - i
  {
    if i < j {
      ConcatOfSlices(d, m, us, i + 1, j);
      assert us[i..j] == [us[i]] + us[i + 1..j];
      ConcatCons(us[i], us[i + 1..j]);
      assert d[m[i]..m[j]] == d[m[i]..m[i + 1]] + d[m[i + 1]..m[j]];
    } else {
      assert us[i..j] == [];
    }
  }

  /** Concatenation takes its first unit off the front. */
  lemma ConcatCons(u: Unit, rest: seq<Unit>)
    ensures Concat([u] + rest) == u + Concat(rest)
  {
    assert ([u] + rest)[1..] == rest;
  }

  /** A width-1 look-ahead inside the document yields exactly one unit. */
  lemma SingleUnit(r: Reader, index: nat)
    requires Valid(r) && index < Len(r)
    ensures LookAhead(r, index, 1) == Ok(Units(r)[index])
  {
    assert Units(r)[index..index + 1] == [Units(r)[index]];
    assert Concat([Units(r)[index]]) == Units(r)[index] + Concat([]);
  }

  /** A look-ahead over all units yields the whole document. */
  lemma LookAheadWhole(r: Reader)
    requires Valid(r)
    ensures LookAhead(r, 0, Len(r)) == Ok(r.document)
  {
  }
}
