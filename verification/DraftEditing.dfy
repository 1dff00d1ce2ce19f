/** Exact editing of a saved candidate: every old text must occur exactly once in the original, all
    replacements are made at once, and the result is read back in chunks of whole characters. */
module DraftEditing {
  import opened Wrappers
  import opened Utf8
  import opened Patching
  import opened Sorting
  import opened TextOrder

  datatype Error = EditInvalid | EncodingUnsupported | Mismatch | Ambiguous | Overlap | LimitExceeded | ReadInvalid

  type Result<T> = Fallible<T, Error>

  datatype Replacement = Replacement(oldText: string, newText: string)

  type Span = Edit<char, ()>

  const MAX_EDITS: nat := 16
  const MAX_EDIT_BYTES: nat := 8192
  const MAX_CANDIDATE_BYTES: nat := 1048576
  const MAX_CHUNK_BYTES: nat := 65536

  const BOM: Bytes := [0xEF, 0xBB, 0xBF]

  // --- Text of a candidate --------------------------------------------------------------

  /** The text without its CR LF pairs. */
  function WithoutPairs(text: string): string {
    if text == [] then []
    else if |text| >= 2 && text[0] == '\r' && text[1] == '\n' then WithoutPairs(text[2..])
    else [text[0]] + WithoutPairs(text[1..])
  }

  /** Either only CR LF, or only LF. */
  predicate OneStyle(text: string) {
    var remaining := WithoutPairs(text);
    '\r' !in remaining && (|remaining| < |text| ==> '\n' !in remaining)
  }

  predicate HasBom(raw: Bytes) {
    |raw| >= 3 && raw[..3] == BOM
  }

  function TextOf(raw: Bytes): Result<string> {
    var body := if HasBom(raw) then raw[3..] else raw;
    if Valid(body) && OneStyle(Decode(body)) then Ok(Decode(body)) else Err(EncodingUnsupported)
  }

  // --- Matching -------------------------------------------------------------------------

  predicate OccursAt(text: string, needle: string, i: nat) {
    i + |needle| <= |text| && text[i..i + |needle|] == needle
  }

  /** The least occurrence from `from` on. */
  function Find(text: string, needle: string, from: nat): (r: Option<nat>)
    ensures r.Some? ==> r.value >= from && OccursAt(text, needle, r.value)
    ensures forall i: nat :: from <= i && OccursAt(text, needle, i) ==> r.Some? && r.value <= i
    decreases |text| + 1 - from
  {
    if from > |text| then None
    else if OccursAt(text, needle, from) then Some(from)
    else Find(text, needle, from + 1)
  }

  /** The span of one edit in the original text. */
  function SpanOf(text: string, count: nat, e: Replacement): Result<Span> {
    if e.oldText == [] && (text != [] || count != 1) then Err(EditInvalid)
    else
      var found := Find(text, e.oldText, 0);
      if found == None then Err(Mismatch)
      else if Find(text, e.oldText, found.value + 1) != None then Err(Ambiguous)
      else Ok(Edit(found.value, found.value + |e.oldText|, e.newText, ()))
  }

  /** The spans of all edits in the order given, or the first refusal. */
  function SpansOf(text: string, count: nat, edits: seq<Replacement>): Result<seq<Span>> {
    if edits == [] then Ok([])
    else
      var before := SpansOf(text, count, edits[..|edits| - 1]);
      if before.Err? then before
      else
        var last := SpanOf(text, count, edits[|edits| - 1]);
        if last.Err? then Err(last.error) else Ok(before.value + [last.value])
  }

  /** Order of (start, end, replacement) triples. */
  predicate SpanBefore(a: Span, b: Span) {
    a.start < b.start
      || (a.start == b.start && (a.end < b.end || (a.end == b.end && Less(a.replacement, b.replacement))))
  }

  function Ranges(spans: seq<Span>): seq<Span> {
    SortBy(spans, (a, b) => SpanBefore(a, b))
  }

  predicate EditsValid(edits: seq<Replacement>) {
    && 1 <= |edits| <= MAX_EDITS
    && forall k :: 0 <= k < |edits| ==>
      |Encode(edits[k].oldText)| <= MAX_EDIT_BYTES && |Encode(edits[k].newText)| <= MAX_EDIT_BYTES
  }

  function Marked(raw: Bytes, text: string): Bytes {
    (if HasBom(raw) then BOM else []) + Encode(text)
  }

  /** What an edit of `raw` returns. */
  ghost function Replaced(raw: Bytes, edits: seq<Replacement>): Result<Bytes> {
    if !EditsValid(edits) then Err(EditInvalid)
    else if TextOf(raw).Err? then Err(EncodingUnsupported)
    else
      var text := TextOf(raw).value;
      var spans := SpansOf(text, |edits|, edits);
      if spans.Err? then Err(spans.error)
      else if !InOrder(Ranges(spans.value), 0, |text|) then Err(Overlap)
      else
        var result := Marked(raw, Patched(text, 0, Ranges(spans.value)));
        if |result| > MAX_CANDIDATE_BYTES then Err(LimitExceeded) else Ok(result)
  }

  // --- The loops ------------------------------------------------------------------------

  method LocateAll(text: string, edits: seq<Replacement>) returns (r: Result<seq<Span>>)
    ensures r == SpansOf(text, |edits|, edits)
  {
    var spans: seq<Span> := [];
    for k := 0 to |edits|
      invariant SpansOf(text, |edits|, edits[..k]) == Ok(spans)
    {
      assert edits[..k + 1][..k] == edits[..k];
      var next := SpanOf(text, |edits|, edits[k]);
      if next.Err? {
        RefusalStays(text, |edits|, edits, k + 1);
        return Err(next.error);
      }
      spans := spans + [next.value];
    }
    assert edits[..|edits|] == edits;
    return Ok(spans);
  }

  /** Once an edit is refused, the later ones do not matter. */
  lemma {:induction false} RefusalStays(text: string, count: nat, edits: seq<Replacement>, k: nat)
    requires k <= |edits| && SpansOf(text, count, edits[..k]).Err?
    ensures SpansOf(text, count, edits) == SpansOf(text, count, edits[..k])
    decreases |edits| - k
  {
    if k == |edits| {
      assert edits[..k] == edits;
    } else {
      assert edits[..k + 1][..k] == edits[..k];
      RefusalStays(text, count, edits, k + 1);
    }
  }

  /** Joins the pieces between the sorted spans; stops at the first overlap. */
  method Join(text: string, ranges: seq<Span>) returns (r: Option<string>)
    requires forall k :: 0 <= k < |ranges| ==> 0 <= ranges[k].start <= ranges[k].end <= |text|
    ensures r.Some? <==> InOrder(ranges, 0, |text|)
    ensures r.Some? ==> r.value == Patched(text, 0, ranges)
  {
    var pieces: string := [];
    var previous: nat := 0;
    assert ranges[0..] == ranges;
    for k := 0 to |ranges|
      invariant previous <= |text|
      invariant InOrder(ranges[k..], previous, |text|) <==> InOrder(ranges, 0, |text|)
      invariant InOrder(ranges[k..], previous, |text|) ==>
        pieces + Patched(text, previous, ranges[k..]) == Patched(text, 0, ranges)
    {
      var span := ranges[k];
      JoinStep(text, pieces, ranges, previous, k);
      if span.start < previous {
        return None;
      }
      pieces := pieces + text[previous..span.start] + span.replacement;
      previous := span.end;
    }
    return Some(pieces + text[previous..]);
  }

  lemma JoinStep(text: string, pieces: string, ranges: seq<Span>, previous: nat, k: nat)
    requires k < |ranges| && 0 <= ranges[k].start <= ranges[k].end <= |text| && previous <= |text|
    ensures var span := ranges[k];
      && (InOrder(ranges[k..], previous, |text|) <==>
        previous <= span.start && InOrder(ranges[k + 1..], span.end, |text|))
      && (InOrder(ranges[k..], previous, |text|) ==>
        pieces + Patched(text, previous, ranges[k..])
          == pieces + text[previous..span.start] + span.replacement + Patched(text, span.end, ranges[k + 1..]))
  {
    var span := ranges[k];
    assert ranges[k..][1..] == ranges[k + 1..] && ranges[k..][0] == span;
    if InOrder(ranges[k..], previous, |text|) {
      var rest := Patched(text, span.end, ranges[k + 1..]);
      assert pieces + (text[previous..span.start] + (span.replacement + rest)) ==
        pieces + text[previous..span.start] + span.replacement + rest;
    }
  }

  lemma {:induction false} SpansInside(text: string, count: nat, edits: seq<Replacement>)
    requires SpansOf(text, count, edits).Ok?
    ensures var spans := SpansOf(text, count, edits).value;
      |spans| == |edits| && forall k :: 0 <= k < |edits| ==> SpanOf(text, count, edits[k]) == Ok(spans[k])
  {
    if edits != [] {
      SpansInside(text, count, edits[..|edits| - 1]);
    }
  }

  lemma RangesInside(text: string, edits: seq<Replacement>)
    requires SpansOf(text, |edits|, edits).Ok?
    ensures var ranges := Ranges(SpansOf(text, |edits|, edits).value);
      forall k :: 0 <= k < |ranges| ==> 0 <= ranges[k].start <= ranges[k].end <= |text|
  {
    SpansInside(text, |edits|, edits);
    var spans := SpansOf(text, |edits|, edits).value;
    RangesHold(spans);
    hide SpansOf, SpanOf, Ranges;
    forall k | 0 <= k < |Ranges(spans)| ensures 0 <= Ranges(spans)[k].start <= Ranges(spans)[k].end <= |text| {
      assert Ranges(spans)[k] in multiset(spans);
      var j :| 0 <= j < |spans| && spans[j] == Ranges(spans)[k];
      SpanInside(text, |edits|, edits[j]);
    }
  }

  lemma SpanInside(text: string, count: nat, e: Replacement)
    requires SpanOf(text, count, e).Ok?
    ensures var span := SpanOf(text, count, e).value; 0 <= span.start <= span.end <= |text|
  {
  }

  lemma RangesHold(spans: seq<Span>)
    ensures multiset(Ranges(spans)) == multiset(spans) && OrderedBy(Ranges(spans), (a, b) => SpanBefore(a, b))
  {
    SpanOrderTotal();
    hide SpanBefore;
    SortOrders(spans, (a, b) => SpanBefore(a, b));
  }

  lemma SpanOrderTotal()
    ensures TotalOrder((a, b) => SpanBefore(a, b))
  {
    forall x: Span, y: Span
      ensures (SpanBefore(x, y) ==> !SpanBefore(y, x)) && (!SpanBefore(x, y) && !SpanBefore(y, x) ==> x == y) {
      LessOrder(x.replacement, y.replacement);
      assert x.mark == () && y.mark == ();
    }
    forall x: Span, y: Span, z: Span | !SpanBefore(x, y) && !SpanBefore(y, z) ensures !SpanBefore(x, z) {
      if x.start == z.start && x.end == z.end && x.start == y.start && x.end == y.end {
        NotLessTransitive(x.replacement, y.replacement, z.replacement);
      }
    }
  }

  method ReplaceText(raw: Bytes, edits: seq<Replacement>) returns (r: Result<Bytes>)
    ensures r == Replaced(raw, edits)
  {
    hide Encode, Valid, Decode, Find, SpanOf, SpansOf, Patched, InOrder, SortBy;
    if !EditsValid(edits) {
      return Err(EditInvalid);
    }
    var read := TextOf(raw);
    if read.Err? {
      return Err(read.error);
    }
    var spans := LocateAll(read.value, edits);
    if spans.Err? {
      return Err(spans.error);
    }
    RangesInside(read.value, edits);
    var joined := Join(read.value, Ranges(spans.value));
    if joined == None {
      return Err(Overlap);
    }
    var result := Marked(raw, joined.value);
    return if |result| > MAX_CANDIDATE_BYTES then Err(LimitExceeded) else Ok(result);
  }

  // --- When an edit succeeds ------------------------------------------------------------

  ghost predicate OnlyAt(text: string, needle: string, i: nat) {
    OccursAt(text, needle, i) && forall j: nat :: OccursAt(text, needle, j) ==> j == i
  }

  /** The old text occurs exactly once; an empty one only as the single insertion into an empty candidate. */
  ghost predicate Locatable(text: string, count: nat, e: Replacement) {
    (e.oldText == [] ==> text == [] && count == 1) && exists i: nat :: OnlyAt(text, e.oldText, i)
  }

  lemma LocatedIff(text: string, count: nat, e: Replacement)
    ensures SpanOf(text, count, e).Ok? <==> Locatable(text, count, e)
    ensures SpanOf(text, count, e).Ok? ==>
      var span := SpanOf(text, count, e).value;
      && span.start >= 0 && OnlyAt(text, e.oldText, span.start)
      && span == Edit(span.start, span.start + |e.oldText|, e.newText, ())
  {
    var found := Find(text, e.oldText, 0);
    if found.Some? {
      var second := Find(text, e.oldText, found.value + 1);
      if second == None {
        forall j: nat | OccursAt(text, e.oldText, j) ensures j == found.value {}
        assert OnlyAt(text, e.oldText, found.value);
      }
    }
  }

  lemma {:induction false} AllLocatedIff(text: string, count: nat, edits: seq<Replacement>)
    ensures SpansOf(text, count, edits).Ok? <==> forall k :: 0 <= k < |edits| ==> Locatable(text, count, edits[k])
  {
    hide *;
    LastSpan(text, count, edits);
    if edits != [] {
      var before, last := edits[..|edits| - 1], edits[|edits| - 1];
      AllLocatedIff(text, count, before);
      LocatedIff(text, count, last);
      assert forall k :: 0 <= k < |before| ==> before[k] == edits[k];
    }
  }

  lemma LastSpan(text: string, count: nat, edits: seq<Replacement>)
    ensures edits == [] ==> SpansOf(text, count, edits).Ok?
    ensures edits != [] ==>
      (SpansOf(text, count, edits).Ok? <==>
        SpansOf(text, count, edits[..|edits| - 1]).Ok? && SpanOf(text, count, edits[|edits| - 1]).Ok?)
  {
    hide SpanOf;
  }

  /** A refusal for where the old texts stand. */
  predicate LocationRefusal(r: Result<Bytes>) {
    r == Err(EditInvalid) || r == Err(Mismatch) || r == Err(Ambiguous)
  }

  /** The success of an edit, its result, and its refusals for overlap or size do not depend on the order in
      which the replacements are listed. */
  lemma OrderDoesNotMatter(raw: Bytes, a: seq<Replacement>, b: seq<Replacement>)
    requires multiset(a) == multiset(b)
    ensures Replaced(raw, a) == Replaced(raw, b)
      || (LocationRefusal(Replaced(raw, a)) && LocationRefusal(Replaced(raw, b)))
  {
    hide *;
    SameCount(a, b);
    EditsValidPermutes(a, b);
    EditsValidPermutes(b, a);
    if EditsValid(a) && TextOf(raw).Ok? {
      var text := TextOf(raw).value;
      LocatedPermutes(text, |a|, a, b);
      LocatedPermutes(text, |a|, b, a);
      if SpansOf(text, |a|, a).Ok? {
        RangesPermute(text, |a|, a, b);
      } else {
        LocationErrors(text, |a|, a);
        LocationErrors(text, |a|, b);
      }
    }
    ReplacedFromRanges(raw, a, b);
  }

  lemma ReplacedFromRanges(raw: Bytes, a: seq<Replacement>, b: seq<Replacement>)
    requires |a| == |b| && (EditsValid(a) <==> EditsValid(b))
    requires EditsValid(a) && TextOf(raw).Ok? ==>
      var (sa, sb) := (SpansOf(TextOf(raw).value, |a|, a), SpansOf(TextOf(raw).value, |b|, b));
      || (sa.Ok? && sb.Ok? && Ranges(sa.value) == Ranges(sb.value))
      || (sa.Err? && sb.Err? && sa.error in {EditInvalid, Mismatch, Ambiguous}
        && sb.error in {EditInvalid, Mismatch, Ambiguous})
    ensures Replaced(raw, a) == Replaced(raw, b)
      || (LocationRefusal(Replaced(raw, a)) && LocationRefusal(Replaced(raw, b)))
  {
    hide EditsValid, TextOf, SpansOf, Ranges, InOrder, Patched, Marked;
  }

  lemma SameCount(a: seq<Replacement>, b: seq<Replacement>)
    requires multiset(a) == multiset(b)
    ensures |a| == |b|
  {
    assert |multiset(a)| == |a| && |multiset(b)| == |b|;
  }

  lemma EditsValidPermutes(a: seq<Replacement>, b: seq<Replacement>)
    requires multiset(a) == multiset(b) && |a| == |b|
    ensures EditsValid(a) ==> EditsValid(b)
  {
    hide Encode;
    forall k | EditsValid(a) && 0 <= k < |b|
      ensures |Encode(b[k].oldText)| <= MAX_EDIT_BYTES && |Encode(b[k].newText)| <= MAX_EDIT_BYTES {
      assert b[k] in multiset(a);
      var j :| 0 <= j < |a| && a[j] == b[k];
    }
  }

  lemma LocatedPermutes(text: string, count: nat, a: seq<Replacement>, b: seq<Replacement>)
    requires multiset(a) == multiset(b)
    ensures SpansOf(text, count, a).Ok? ==> SpansOf(text, count, b).Ok?
  {
    AllLocatedIff(text, count, a);
    AllLocatedIff(text, count, b);
    hide SpansOf, Locatable;
    forall k | SpansOf(text, count, a).Ok? && 0 <= k < |b| ensures Locatable(text, count, b[k]) {
      assert b[k] in multiset(a);
      var j :| 0 <= j < |a| && a[j] == b[k];
    }
  }

  lemma {:induction false} LocationErrors(text: string, count: nat, edits: seq<Replacement>)
    requires SpansOf(text, count, edits).Err?
    ensures SpansOf(text, count, edits).error in {EditInvalid, Mismatch, Ambiguous}
  {
    if SpansOf(text, count, edits[..|edits| - 1]).Err? {
      LocationErrors(text, count, edits[..|edits| - 1]);
    }
  }

  function SpanOrNone(text: string, count: nat, e: Replacement): Span {
    if SpanOf(text, count, e).Ok? then SpanOf(text, count, e).value else Edit(0, 0, [], ())
  }

  lemma RangesPermute(text: string, count: nat, a: seq<Replacement>, b: seq<Replacement>)
    requires multiset(a) == multiset(b) && SpansOf(text, count, a).Ok? && SpansOf(text, count, b).Ok?
    ensures Ranges(SpansOf(text, count, a).value) == Ranges(SpansOf(text, count, b).value)
  {
    SpansInside(text, count, a);
    SpansInside(text, count, b);
    var f := (e: Replacement) => SpanOrNone(text, count, e);
    MappedPermutes(f, a, b);
    assert Mapped(f, a) == SpansOf(text, count, a).value;
    assert Mapped(f, b) == SpansOf(text, count, b).value;
    SpanOrderTotal();
    hide SpanOf, SpansOf, SpanBefore;
    SortForgetsOrder(SpansOf(text, count, a).value, SpansOf(text, count, b).value, (x, y) => SpanBefore(x, y));
  }

  /** The three reasons: an empty old text that is not the only insertion into an empty candidate, an old text
      that does not occur, and one that occurs twice. */
  lemma ReasonExactly(text: string, count: nat, e: Replacement)
    ensures var allowed := e.oldText != [] || (text == [] && count == 1);
      && (SpanOf(text, count, e) == Err(EditInvalid) <==> !allowed)
      && (SpanOf(text, count, e) == Err(Mismatch) <==> allowed && forall i: nat :: !OccursAt(text, e.oldText, i))
      && (SpanOf(text, count, e) == Err(Ambiguous) <==>
            allowed && exists i: nat, j: nat :: i < j && OccursAt(text, e.oldText, i) && OccursAt(text, e.oldText, j))
  {
    var found := Find(text, e.oldText, 0);
    if found.Some? {
      var second := Find(text, e.oldText, found.value + 1);
      if second.Some? {
        assert OccursAt(text, e.oldText, found.value) && OccursAt(text, e.oldText, second.value);
      }
      forall i: nat, j: nat | i < j && OccursAt(text, e.oldText, i) && OccursAt(text, e.oldText, j)
        ensures second.Some? {
        assert found.value <= i;
      }
    }
  }

  /** Every refused edit is a reason to refuse; the first one in the list is reported. */
  lemma {:induction false} FirstRefused(text: string, count: nat, edits: seq<Replacement>)
    ensures SpansOf(text, count, edits).Err? <==> exists k :: 0 <= k < |edits| && SpanOf(text, count, edits[k]).Err?
    ensures SpansOf(text, count, edits).Err? ==>
      exists k :: 0 <= k < |edits| && SpanOf(text, count, edits[k]).Err?
        && SpansOf(text, count, edits) == Err(SpanOf(text, count, edits[k]).error)
        && forall j :: 0 <= j < k ==> SpanOf(text, count, edits[j]).Ok?
  {
    hide SpanOf;
    if edits != [] {
      var n := |edits| - 1;
      FirstRefused(text, count, edits[..n]);
      if SpansOf(text, count, edits[..n]).Err? {
        var k :| 0 <= k < n && SpanOf(text, count, edits[..n][k]).Err?
          && SpansOf(text, count, edits[..n]) == Err(SpanOf(text, count, edits[..n][k]).error)
          && forall j :: 0 <= j < k ==> SpanOf(text, count, edits[..n][j]).Ok?;
        assert edits[k] == edits[..n][k] && forall j :: 0 <= j < k ==> edits[j] == edits[..n][j];
      } else {
        assert forall j :: 0 <= j < n ==> edits[j] == edits[..n][j];
        assert edits[n] == edits[|edits| - 1];
      }
    }
  }

  /** The same edits, with the one at `k` moved to the front. */
  function Front(edits: seq<Replacement>, k: nat): seq<Replacement>
    requires k < |edits|
  {
    [edits[k]] + (edits[..k] + edits[k + 1..])
  }

  lemma FrontPermutes(edits: seq<Replacement>, k: nat)
    requires k < |edits|
    ensures multiset(Front(edits, k)) == multiset(edits) && |Front(edits, k)| == |edits|
  {
    assert edits == edits[..k] + ([edits[k]] + edits[k + 1..]);
  }

  /** Whatever refused edit is listed first is the one that is reported. */
  lemma ErrorDependsOnOrder(raw: Bytes, edits: seq<Replacement>, k: nat)
    requires EditsValid(edits) && TextOf(raw).Ok? && k < |edits| && SpanOf(TextOf(raw).value, |edits|, edits[k]).Err?
    ensures multiset(Front(edits, k)) == multiset(edits)
    ensures Replaced(raw, Front(edits, k)) == Err(SpanOf(TextOf(raw).value, |edits|, edits[k]).error)
  {
    hide EditsValid, TextOf, SpanOf;
    var text, moved := TextOf(raw).value, Front(edits, k);
    FrontPermutes(edits, k);
    EditsValidPermutes(edits, moved);
    assert moved[..1] == [edits[k]] && [edits[k]][..0] == [];
    assert SpansOf(text, |edits|, moved[..1]) == Err(SpanOf(text, |edits|, edits[k]).error);
    RefusalStays(text, |edits|, moved, 1);
  }

  /** All refused edits are refused for the same reason. */
  ghost predicate OneReason(text: string, edits: seq<Replacement>) {
    forall i, j ::
      (0 <= i < |edits| && 0 <= j < |edits| && SpanOf(text, |edits|, edits[i]).Err?
        && SpanOf(text, |edits|, edits[j]).Err?) ==>
      SpanOf(text, |edits|, edits[i]).error == SpanOf(text, |edits|, edits[j]).error
  }

  ghost predicate SameForAllOrders(raw: Bytes, a: seq<Replacement>) {
    forall b: seq<Replacement> :: multiset(b) == multiset(a) ==> Replaced(raw, b) == Replaced(raw, a)
  }

  /** The result is the same for every order of the edits exactly when no two edits are refused for different
      reasons: because the old text is missing, because it is repeated, or because it is empty. */
  lemma OrderMattersExactly(raw: Bytes, a: seq<Replacement>)
    ensures SameForAllOrders(raw, a) <==> (EditsValid(a) && TextOf(raw).Ok? ==> OneReason(TextOf(raw).value, a))
  {
    hide *;
    if EditsValid(a) && TextOf(raw).Ok? {
      if OneReason(TextOf(raw).value, a) {
        OneReasonSuffices(raw, a);
      } else {
        TwoReasonsShow(raw, a);
      }
    } else {
      NoTextNoOrder(raw, a);
    }
  }

  lemma NoTextNoOrder(raw: Bytes, a: seq<Replacement>)
    requires !EditsValid(a) || TextOf(raw).Err?
    ensures SameForAllOrders(raw, a)
  {
    hide EditsValid, TextOf, SpansOf, InOrder, Ranges, Patched, Marked;
    forall b: seq<Replacement> | multiset(b) == multiset(a) ensures Replaced(raw, b) == Replaced(raw, a) {
      SameCount(b, a);
      EditsValidPermutes(a, b);
      EditsValidPermutes(b, a);
    }
  }

  lemma OneReasonSuffices(raw: Bytes, a: seq<Replacement>)
    requires EditsValid(a) && TextOf(raw).Ok? && OneReason(TextOf(raw).value, a)
    ensures SameForAllOrders(raw, a)
  {
    hide EditsValid, TextOf, SpanOf, SpansOf, InOrder, Ranges, Patched, Marked;
    var text := TextOf(raw).value;
    forall b: seq<Replacement> | multiset(b) == multiset(a) ensures Replaced(raw, b) == Replaced(raw, a) {
      SameCount(b, a);
      EditsValidPermutes(a, b);
      if SpansOf(text, |a|, a).Ok? {
        LocatedPermutes(text, |a|, a, b);
        RangesPermute(text, |a|, a, b);
      } else {
        LocatedPermutes(text, |a|, b, a);
        SameReason(text, a, b);
      }
    }
  }

  lemma SameReason(text: string, a: seq<Replacement>, b: seq<Replacement>)
    requires OneReason(text, a) && multiset(b) == multiset(a) && |b| == |a|
    requires SpansOf(text, |a|, a).Err? && SpansOf(text, |a|, b).Err?
    ensures SpansOf(text, |a|, a) == SpansOf(text, |a|, b)
  {
    hide SpansOf, SpanOf;
    FirstRefused(text, |a|, a);
    FirstRefused(text, |a|, b);
    var i :| 0 <= i < |a| && SpanOf(text, |a|, a[i]).Err?
      && SpansOf(text, |a|, a) == Err(SpanOf(text, |a|, a[i]).error);
    var k :| 0 <= k < |b| && SpanOf(text, |a|, b[k]).Err?
      && SpansOf(text, |a|, b) == Err(SpanOf(text, |a|, b[k]).error);
    assert b[k] in multiset(a);
    var j :| 0 <= j < |a| && a[j] == b[k];
  }

  lemma TwoReasonsShow(raw: Bytes, a: seq<Replacement>)
    requires EditsValid(a) && TextOf(raw).Ok? && !OneReason(TextOf(raw).value, a)
    ensures !SameForAllOrders(raw, a)
  {
    hide EditsValid, TextOf, SpanOf, Replaced, Front;
    var text := TextOf(raw).value;
    var i, j :| 0 <= i < |a| && 0 <= j < |a| && SpanOf(text, |a|, a[i]).Err? && SpanOf(text, |a|, a[j]).Err?
      && SpanOf(text, |a|, a[i]).error != SpanOf(text, |a|, a[j]).error;
    ErrorDependsOnOrder(raw, a, i);
    ErrorDependsOnOrder(raw, a, j);
  }

  lemma OneCharacter(text: string, needle: char, i: nat)
    ensures OccursAt(text, [needle], i) <==> i < |text| && text[i] == needle
  {
    if i < |text| {
      assert text[i..i + 1] == [text[i]];
    }
  }

  /** Edits of short texts are well-formed, and a short text without CR is a candidate's text. */
  lemma ShortText(text: string, edits: seq<Replacement>)
    requires |Encode(text)| < 3 && '\r' !in text && 1 <= |edits| <= MAX_EDITS
    requires forall k :: 0 <= k < |edits| ==> |edits[k].oldText| <= 1 && edits[k].newText == []
    ensures TextOf(Encode(text)) == Ok(text) && EditsValid(edits)
  {
    DecodeEncode(text);
    NoPairs(text);
    hide Valid, Decode, EncodeChar, WithoutPairs;
    forall k | 0 <= k < |edits| ensures |Encode(edits[k].oldText)| <= 4 {
      if edits[k].oldText != [] {
        assert edits[k].oldText[1..] == [] && |EncodeChar(edits[k].oldText[0])| <= 4;
      }
    }
  }

  lemma {:induction false} NoPairs(text: string)
    requires '\r' !in text
    ensures WithoutPairs(text) == text
  {
    if text != [] {
      NoPairs(text[1..]);
    }
  }

  /** Candidates for which the order matters: a missing text against a repeated one, and an empty old text
      against a missing one. */
  lemma SomeErrorDependsOnOrder()
    ensures Replaced(Encode("aa"), [Replacement("b", ""), Replacement("a", "")]) == Err(Mismatch)
    ensures Replaced(Encode("aa"), [Replacement("a", ""), Replacement("b", "")]) == Err(Ambiguous)
    ensures Replaced(Encode("a"), [Replacement("", ""), Replacement("b", "")]) == Err(EditInvalid)
    ensures Replaced(Encode("a"), [Replacement("b", ""), Replacement("", "")]) == Err(Mismatch)
  {
    var missing, repeated, empty := Replacement("b", ""), Replacement("a", ""), Replacement("", "");
    SmallEncodings();
    forall k: nat ensures !OccursAt("aa", "b", k) && !OccursAt("a", "b", k) {
      OneCharacter("aa", 'b', k);
      OneCharacter("a", 'b', k);
    }
    OneCharacter("aa", 'a', 0);
    OneCharacter("aa", 'a', 1);
    assert OccursAt("aa", "a", 0) && OccursAt("aa", "a", 1);
    ReasonExactly("aa", 2, missing);
    ReasonExactly("a", 2, missing);
    ReasonExactly("aa", 2, repeated);
    ReasonExactly("a", 2, empty);
    hide OccursAt, Encode, TextOf, EditsValid, Replaced, SpanOf;
    FirstOfTwo("aa", missing, repeated);
    FirstOfTwo("aa", repeated, missing);
    FirstOfTwo("a", empty, missing);
    FirstOfTwo("a", missing, empty);
  }

  lemma SmallEncodings()
    ensures |Encode("aa")| == 2 && |Encode("a")| == 1
  {
    assert EncodeChar('a') == [97];
    assert "aa"[1..] == "a" && "a"[1..] == [];
    hide EncodeChar;
  }

  lemma FirstOfTwo(text: string, first: Replacement, second: Replacement)
    requires |Encode(text)| < 3 && '\r' !in text && SpanOf(text, 2, first).Err?
    requires |first.oldText| <= 1 && first.newText == [] && |second.oldText| <= 1 && second.newText == []
    ensures Replaced(Encode(text), [first, second]) == Err(SpanOf(text, 2, first).error)
  {
    ShortText(text, [first, second]);
    hide EditsValid, TextOf, SpanOf, Replaced, Encode;
    ErrorDependsOnOrder(Encode(text), [first, second], 0);
    assert Front([first, second], 0) == [first, second];
  }

  // --- Overlap --------------------------------------------------------------------------

  predicate Apart(a: Span, b: Span) {
    a.end <= b.start || b.end <= a.start
  }

  predicate AllApart(spans: seq<Span>) {
    forall i, j :: 0 <= i < j < |spans| ==> Apart(spans[i], spans[j])
  }

  lemma {:induction false} InOrderIsApart(spans: seq<Span>, lo: int, n: int)
    requires InOrder(spans, lo, n)
    ensures AllApart(spans) && forall k :: 0 <= k < |spans| ==> lo <= spans[k].start
  {
    if spans != [] {
      InOrderIsApart(spans[1..], spans[0].end, n);
    }
  }

  lemma {:induction false} ApartIsInOrder(spans: seq<Span>, lo: int, n: int)
    requires AllApart(spans) && OrderedBy(spans, (a, b) => SpanBefore(a, b))
    requires forall k :: 0 <= k < |spans| ==> lo <= spans[k].start < spans[k].end <= n
    ensures InOrder(spans, lo, n)
  {
    if spans != [] {
      forall k | 1 <= k < |spans| ensures spans[0].end <= spans[k].start {
        assert Apart(spans[0], spans[k]) && !SpanBefore(spans[k], spans[0]);
      }
      ApartIsInOrder(spans[1..], spans[0].end, n);
    }
  }

  /** Two equal elements at different places stay two under rearrangement. */
  lemma TwoPlaces(values: seq<Span>, x: Span) returns (i: nat, j: nat)
    requires multiset(values)[x] >= 2
    ensures i < j < |values| && values[i] == values[j] == x
  {
    assert x in multiset(values);
    i :| 0 <= i < |values| && values[i] == x;
    Without(values, i);
    assert multiset(values[..i] + values[i + 1..])[x] >= 1;
    assert x in values[..i] + values[i + 1..];
    var k :| 0 <= k < |values| - 1 && (values[..i] + values[i + 1..])[k] == x;
    if k < i {
      i, j := k, i;
    } else {
      j := k + 1;
    }
  }

  lemma CountsTwo(values: seq<Span>, i: nat, j: nat)
    requires i < j < |values| && values[i] == values[j]
    ensures multiset(values)[values[i]] >= 2
  {
    Without(values, i);
    assert (values[..i] + values[i + 1..])[j - 1] == values[j];
    assert values[j] in multiset(values[..i] + values[i + 1..]);
  }

  lemma ApartPermutes(a: seq<Span>, b: seq<Span>)
    requires multiset(a) == multiset(b) && AllApart(a)
    ensures AllApart(b)
  {
    forall i, j | 0 <= i < j < |b| ensures Apart(b[i], b[j]) {
      if b[i] == b[j] {
        CountsTwo(b, i, j);
        var k, l := TwoPlaces(a, b[i]);
        assert Apart(a[k], a[l]);
      } else {
        assert b[i] in multiset(a) && b[j] in multiset(a);
        var k :| 0 <= k < |a| && a[k] == b[i];
        var l :| 0 <= l < |a| && a[l] == b[j];
        assert Apart(a[if k < l then k else l], a[if k < l then l else k]);
      }
    }
  }

  lemma SingleInOrder(ranges: seq<Span>, n: nat)
    requires |multiset(ranges)| == 1
    requires forall k :: 0 <= k < |ranges| ==> 0 <= ranges[k].start <= ranges[k].end <= n
    ensures InOrder(ranges, 0, n)
  {
    assert |ranges| == 1 && ranges[1..] == [];
  }

  lemma Nonempty(text: string, count: nat, e: Replacement)
    requires SpanOf(text, count, e).Ok? && count != 1
    ensures var span := SpanOf(text, count, e).value; span.start < span.end
  {
  }

  lemma RangesNonempty(text: string, edits: seq<Replacement>)
    requires SpansOf(text, |edits|, edits).Ok? && |edits| != 1
    ensures var ranges := Ranges(SpansOf(text, |edits|, edits).value);
      forall k :: 0 <= k < |ranges| ==> ranges[k].start < ranges[k].end
  {
    SpansInside(text, |edits|, edits);
    var spans := SpansOf(text, |edits|, edits).value;
    RangesHold(spans);
    hide Ranges, SpanOf, SpansOf;
    forall k | 0 <= k < |Ranges(spans)| ensures Ranges(spans)[k].start < Ranges(spans)[k].end {
      assert Ranges(spans)[k] in multiset(spans);
      var j :| 0 <= j < |spans| && spans[j] == Ranges(spans)[k];
      Nonempty(text, |edits|, edits[j]);
    }
  }

  /** Spans in sorted order follow each other exactly when no two of them overlap. */
  lemma InOrderIff(ranges: seq<Span>, spans: seq<Span>, n: nat)
    requires multiset(ranges) == multiset(spans) && OrderedBy(ranges, (a, b) => SpanBefore(a, b))
    requires forall k :: 0 <= k < |ranges| ==> 0 <= ranges[k].start <= ranges[k].end <= n
    requires |spans| != 1 ==> forall k :: 0 <= k < |ranges| ==> ranges[k].start < ranges[k].end
    ensures InOrder(ranges, 0, n) <==> AllApart(spans)
  {
    if InOrder(ranges, 0, n) {
      InOrderIsApart(ranges, 0, n);
      ApartPermutes(ranges, spans);
    }
    if AllApart(spans) {
      ApartPermutes(spans, ranges);
      if |spans| == 1 {
        assert |multiset(spans)| == 1;
        SingleInOrder(ranges, n);
      } else {
        ApartIsInOrder(ranges, 0, n);
      }
    }
  }

  lemma RangesInOrderIff(text: string, edits: seq<Replacement>)
    requires SpansOf(text, |edits|, edits).Ok?
    ensures var spans := SpansOf(text, |edits|, edits).value; InOrder(Ranges(spans), 0, |text|) <==> AllApart(spans)
  {
    var spans := SpansOf(text, |edits|, edits).value;
    RangesHold(spans);
    RangesInside(text, edits);
    SpansInside(text, |edits|, edits);
    if |edits| != 1 {
      RangesNonempty(text, edits);
    }
    hide SpansOf, SpanOf, Ranges, SpanBefore, InOrder, AllApart, OrderedBy;
    InOrderIff(Ranges(spans), spans, |text|);
  }

  // --- How long the result is -----------------------------------------------------------

  /** Bytes gained by one edit. */
  function Gain(e: Replacement): int {
    |Encode(e.newText)| - |Encode(e.oldText)|
  }

  function SpanGain(text: string, s: Span): int {
    if 0 <= s.start <= s.end <= |text| then |Encode(s.replacement)| - |Encode(text[s.start..s.end])| else 0
  }

  lemma {:induction false} PatchedBytes(text: string, cursor: nat, ranges: seq<Span>)
    requires cursor <= |text| && InOrder(ranges, cursor, |text|)
    ensures |Encode(Patched(text, cursor, ranges))| == |Encode(text[cursor..])| + Sum(s => SpanGain(text, s), ranges)
    decreases |ranges|
  {
    hide Encode;
    if ranges != [] {
      var s := ranges[0];
      var rest := Patched(text, s.end, ranges[1..]);
      PatchedBytes(text, s.end, ranges[1..]);
      EncodeConcat(text[cursor..s.start], s.replacement + rest);
      EncodeConcat(s.replacement, rest);
      EncodeConcat(text[cursor..s.start], text[s.start..s.end]);
      EncodeConcat(text[cursor..s.start] + text[s.start..s.end], text[s.end..]);
      assert text[cursor..] == text[cursor..s.start] + text[s.start..s.end] + text[s.end..];
    }
  }

  lemma SpanGainIs(text: string, count: nat, e: Replacement)
    requires SpanOf(text, count, e).Ok?
    ensures SpanGain(text, SpanOf(text, count, e).value) == Gain(e)
  {
    LocatedIff(text, count, e);
    hide Encode, Find;
  }

  lemma {:induction false} SpansGain(text: string, count: nat, edits: seq<Replacement>, spans: seq<Span>)
    requires |spans| == |edits| && forall k :: 0 <= k < |edits| ==> SpanOf(text, count, edits[k]) == Ok(spans[k])
    ensures Sum(s => SpanGain(text, s), spans) == Sum(Gain, edits)
  {
    hide SpanGain, Gain, SpanOf;
    if edits != [] {
      SpanGainIs(text, count, edits[0]);
      SpansGain(text, count, edits[1..], spans[1..]);
    }
  }

  lemma MarkedBytes(raw: Bytes, text: string)
    requires TextOf(raw).Ok?
    ensures |Marked(raw, text)| == |raw| - |Encode(TextOf(raw).value)| + |Encode(text)|
  {
    EncodeDecode(if HasBom(raw) then raw[3..] else raw);
    hide Valid, OneStyle;
  }

  /** The result is longer than the candidate by exactly what the edits gain. */
  lemma ResultBytes(raw: Bytes, edits: seq<Replacement>)
    requires TextOf(raw).Ok? && SpansOf(TextOf(raw).value, |edits|, edits).Ok?
    requires InOrder(Ranges(SpansOf(TextOf(raw).value, |edits|, edits).value), 0, |TextOf(raw).value|)
    ensures var text := TextOf(raw).value;
      |Marked(raw, Patched(text, 0, Ranges(SpansOf(text, |edits|, edits).value)))| == |raw| + Sum(Gain, edits)
  {
    hide *;
    var text := TextOf(raw).value;
    var spans := SpansOf(text, |edits|, edits).value;
    SpansInside(text, |edits|, edits);
    RangesHold(spans);
    PatchedBytes(text, 0, Ranges(spans));
    assert text[0..] == text;
    SumPermutes(s => SpanGain(text, s), Ranges(spans), spans);
    SpansGain(text, |edits|, edits, spans);
    MarkedBytes(raw, Patched(text, 0, Ranges(spans)));
  }

  /** Every old text occurs exactly once, and no two of these occurrences overlap. */
  ghost predicate Placeable(text: string, edits: seq<Replacement>) {
    && (forall k :: 0 <= k < |edits| ==> Locatable(text, |edits|, edits[k]))
    && SpansOf(text, |edits|, edits).Ok? && AllApart(SpansOf(text, |edits|, edits).value)
  }

  /** An edit succeeds exactly when the edits are well-formed, the candidate is text, every old text occurs
      once, no two occurrences overlap, and the candidate with all gains fits. */
  lemma ReplacedExactly(raw: Bytes, edits: seq<Replacement>)
    ensures Replaced(raw, edits).Ok? <==>
      EditsValid(edits) && TextOf(raw).Ok? && Placeable(TextOf(raw).value, edits)
        && |raw| + Sum(Gain, edits) <= MAX_CANDIDATE_BYTES
    ensures Replaced(raw, edits).Ok? ==> |Replaced(raw, edits).value| == |raw| + Sum(Gain, edits)
  {
    hide EditsValid, TextOf, SpansOf, Ranges, InOrder, Patched, Marked, Locatable, AllApart, Gain, Sum;
    if EditsValid(edits) && TextOf(raw).Ok? {
      var text := TextOf(raw).value;
      AllLocatedIff(text, |edits|, edits);
      if SpansOf(text, |edits|, edits).Ok? {
        RangesInOrderIff(text, edits);
        if InOrder(Ranges(SpansOf(text, |edits|, edits).value), 0, |text|) {
          ResultBytes(raw, edits);
        }
      }
    }
  }

  // --- What the result holds ------------------------------------------------------------

  ghost predicate Located(text: string, edits: seq<Replacement>, spans: seq<Span>) {
    |spans| == |edits| && forall k :: 0 <= k < |edits| ==> SpanOf(text, |edits|, edits[k]) == Ok(spans[k])
  }

  /** A successful edit writes the spans of its edits, in sorted order. */
  lemma ReplacedIsPatched(raw: Bytes, edits: seq<Replacement>)
    returns (text: string, spans: seq<Span>, ranges: seq<Span>)
    requires Replaced(raw, edits).Ok?
    ensures TextOf(raw) == Ok(text) && Located(text, edits, spans)
    ensures multiset(ranges) == multiset(spans) && InOrder(ranges, 0, |text|)
    ensures Replaced(raw, edits).value == Marked(raw, Patched(text, 0, ranges))
  {
    text := TextOf(raw).value;
    spans := SpansOf(text, |edits|, edits).value;
    ranges := Ranges(spans);
    hide TextOf, Patched, InOrder, Ranges, Marked, EditsValid;
    SpansInside(text, |edits|, edits);
    RangesHold(spans);
  }

  lemma PlaceOf(a: seq<Span>, b: seq<Span>, k: nat) returns (j: nat)
    requires multiset(a) == multiset(b) && k < |b|
    ensures j < |a| && a[j] == b[k]
  {
    assert b[k] in multiset(a);
    j :| 0 <= j < |a| && a[j] == b[k];
  }

  /** Every new text stands where its old text was, shifted by the edits before it. */
  lemma NewTextStands(text: string, edits: seq<Replacement>, spans: seq<Span>, ranges: seq<Span>, k: nat)
    returns (i: nat, shift: int)
    requires Located(text, edits, spans) && multiset(ranges) == multiset(spans) && InOrder(ranges, 0, |text|)
    requires k < |edits|
    ensures OnlyAt(text, edits[k].oldText, i) && StandsAt(Patched(text, 0, ranges), i + shift, edits[k].newText)
  {
    hide InOrder, Patched, OnlyAt, StandsAt, SpanOf;
    LocatedIff(text, |edits|, edits[k]);
    var j := PlaceOf(ranges, spans, k);
    PatchedReplacement(text, 0, ranges, j);
    i, shift := spans[k].start, NetChange(ranges[..j]);
  }

  /** Every character outside the occurrences is kept, shifted by the edits before it. */
  lemma RestIsKept(text: string, edits: seq<Replacement>, spans: seq<Span>, ranges: seq<Span>, p: nat)
    requires Located(text, edits, spans) && multiset(ranges) == multiset(spans) && InOrder(ranges, 0, |text|)
    requires p < |text|
    requires forall k, i: nat :: 0 <= k < |edits| && OnlyAt(text, edits[k].oldText, i) ==>
      !(i <= p < i + |edits[k].oldText|)
    ensures var at := p + ShiftAt(ranges, p);
      0 <= at < |Patched(text, 0, ranges)| && Patched(text, 0, ranges)[at] == text[p]
  {
    hide InOrder, Patched, OnlyAt, SpanOf, ShiftAt;
    forall j | 0 <= j < |ranges| ensures !(ranges[j].start <= p < ranges[j].end) {
      var k := PlaceOf(spans, ranges, j);
      LocatedIff(text, |edits|, edits[k]);
    }
    PatchedOutside(text, 0, ranges, p);
  }
}
