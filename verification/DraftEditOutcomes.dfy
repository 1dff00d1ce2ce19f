/** Exact editing told from the candidate and the edits: which candidates are text, why an edit is refused, and when two
    edits overlap. */
module DraftEditOutcomes {
  import opened Wrappers
  import opened Utf8
  import opened LineEnds
  import opened Patching
  import opened Sorting
  import opened DraftEditing

  // --- Text -----------------------------------------------------------------------------

  /** Every CR is followed by an LF, and there are not both CR LF and bare LF. */
  ghost predicate OneLineEnd(text: string) {
    !Lone(text, '\r', '\n') && !(Pair(text, '\r', '\n') && Bare(text, '\r', '\n'))
  }

  lemma {:induction false} PairsLeft(text: string)
    ensures '\r' in WithoutPairs(text) <==> Lone(text, '\r', '\n')
    ensures '\n' in WithoutPairs(text) <==> Bare(text, '\r', '\n')
    ensures |WithoutPairs(text)| < |text| <==> Pair(text, '\r', '\n')
    ensures |WithoutPairs(text)| <= |text|
    decreases |text|
  {
    hide Lone, Bare, Pair;
    if text == [] {
      NoEnds();
    } else if |text| >= 2 && text[0] == '\r' && text[1] == '\n' {
      AfterPair(text, '\r', '\n');
      PairsLeft(text[2..]);
    } else {
      LoneInFront(text, '\r', '\n');
      BareInFront(text, '\r', '\n');
      PairInFront(text, '\r', '\n');
      PairsLeft(text[1..]);
    }
  }

  lemma NoEnds()
    ensures !Lone("", '\r', '\n') && !Bare("", '\r', '\n') && !Pair("", '\r', '\n')
  {
  }

  /** The mark in front of a candidate, and what stands behind it. */
  function Mark(raw: Bytes): Bytes {
    if |raw| >= 3 && raw[0] == 0xEF && raw[1] == 0xBB && raw[2] == 0xBF then raw[..3] else []
  }

  /** A candidate is text if and only if what follows its mark encodes a text with one kind of line end; it is then that
      text. */
  lemma TextExactly(raw: Bytes, text: string)
    ensures TextOf(raw) == Ok(text) <==> raw == Mark(raw) + Encode(text) && OneLineEnd(text)
    ensures TextOf(raw).Err? ==> TextOf(raw) == Err(EncodingUnsupported)
  {
    MarkIs(raw);
    hide Valid, WithoutPairs, OneLineEnd, Encode;
    var body := raw[|Mark(raw)|..];
    assert raw == raw[..|Mark(raw)|] + body;
    assert raw == Mark(raw) + Encode(text) <==> body == Encode(text);
    DecodeEncode(text);
    if Valid(body) {
      EncodeDecode(body);
      OneStyleIs(Decode(body));
    }
    OneStyleIs(text);
    hide Decode, OneStyle;
  }

  lemma OneStyleIs(text: string)
    ensures OneStyle(text) <==> OneLineEnd(text)
  {
    PairsLeft(text);
    hide Lone, Bare, Pair, WithoutPairs;
  }

  lemma MarkIs(raw: Bytes)
    ensures HasBom(raw) <==> |Mark(raw)| == 3
    ensures HasBom(raw) ==> Mark(raw) == BOM
    ensures !HasBom(raw) ==> Mark(raw) == []
    ensures raw[..|Mark(raw)|] == Mark(raw)
  {
    if |raw| >= 3 {
      assert raw[..3] == [raw[0], raw[1], raw[2]];
    }
  }

  // --- Places ---------------------------------------------------------------------------

  /** The needle stands at `i`, character by character. */
  ghost predicate Stands(text: string, needle: string, i: nat) {
    i + |needle| <= |text| && forall k :: 0 <= k < |needle| ==> text[i + k] == needle[k]
  }

  /** Why a single edit is refused, if it is. */
  ghost function RefusedFor(text: string, count: nat, e: Replacement): Option<Error> {
    if e.oldText == "" then if text == "" && count == 1 then None else Some(EditInvalid)
    else if !exists i: nat :: Stands(text, e.oldText, i) then Some(Mismatch)
    else if exists i: nat, j: nat :: i != j && Stands(text, e.oldText, i) && Stands(text, e.oldText, j)
      then Some(Ambiguous)
    else None
  }

  lemma StandsIs(text: string, needle: string, i: nat)
    ensures OccursAt(text, needle, i) <==> Stands(text, needle, i)
  {
    if i + |needle| <= |text| {
      var part := text[i..i + |needle|];
      if part == needle {
        forall k | 0 <= k < |needle| ensures text[i + k] == needle[k] {
          assert part[k] == text[i + k];
        }
      }
      if Stands(text, needle, i) {
        assert part == needle;
      }
    }
  }

  /** Each edit is refused for its own reason. */
  lemma RefusedExactly(text: string, count: nat, e: Replacement)
    ensures match RefusedFor(text, count, e)
      case Some(reason) => SpanOf(text, count, e) == Err(reason)
      case None => SpanOf(text, count, e).Ok?
  {
    forall i: nat ensures OccursAt(text, e.oldText, i) <==> Stands(text, e.oldText, i) {
      StandsIs(text, e.oldText, i);
    }
    hide OccursAt, Stands;
    var found := Find(text, e.oldText, 0);
    if found.Some? {
      var second := Find(text, e.oldText, found.value + 1);
    }
    if e.oldText == "" && text == "" {
      StandsIs(text, e.oldText, 0);
      EmptyStands();
    }
  }

  lemma EmptyStands()
    ensures Stands("", "", 0) && forall i: nat :: Stands("", "", i) ==> i == 0
  {
  }

  /** The places of two old texts have a character in common. */
  ghost predicate Overlapping(text: string, a: Replacement, b: Replacement) {
    exists i: nat, j: nat :: Stands(text, a.oldText, i) && Stands(text, b.oldText, j)
      && i < j + |b.oldText| && j < i + |a.oldText|
  }

  ghost predicate FirstRefused(text: string, edits: seq<Replacement>, k: nat) {
    && k < |edits| && RefusedFor(text, |edits|, edits[k]).Some?
    && forall j :: 0 <= j < k ==> RefusedFor(text, |edits|, edits[j]) == None
  }

  ghost predicate SomeOverlap(text: string, edits: seq<Replacement>) {
    exists i, j :: 0 <= i < j < |edits| && Overlapping(text, edits[i], edits[j])
  }

  ghost predicate Bounded(edits: seq<Replacement>) {
    && 1 <= |edits| <= 16
    && forall k :: 0 <= k < |edits| ==> |Encode(edits[k].oldText)| <= 8192 && |Encode(edits[k].newText)| <= 8192
  }

  /** Every outcome of an edit of a text: each refusal for its own reason, in this order, and success otherwise. */
  lemma ReplacedOutcome(raw: Bytes, text: string, edits: seq<Replacement>, k: nat)
    requires raw == Mark(raw) + Encode(text)
    ensures var r := Replaced(raw, edits);
      && (!Bounded(edits) ==> r == Err(EditInvalid))
      && (Bounded(edits) && !OneLineEnd(text) ==> r == Err(EncodingUnsupported))
      && (Bounded(edits) && OneLineEnd(text) ==>
        && (FirstRefused(text, edits, k) ==> r == Err(RefusedFor(text, |edits|, edits[k]).value))
        && ((forall j :: 0 <= j < |edits| ==> RefusedFor(text, |edits|, edits[j]) == None) ==>
             if SomeOverlap(text, edits) then r == Err(Overlap)
             else if |raw| + Sum(Gain, edits) > 1048576 then r == Err(LimitExceeded)
             else r.Ok?))
  {
    TextExactly(raw, text);
    BadText(raw, text);
    hide TextOf, OneLineEnd, Encode, RefusedFor, SomeOverlap, Replaced;
    EditsAre(edits);
    if Bounded(edits) && OneLineEnd(text) {
      if FirstRefused(text, edits, k) {
        FirstDecides(raw, text, edits, k);
      }
      if forall j :: 0 <= j < |edits| ==> RefusedFor(text, |edits|, edits[j]) == None {
        AllLocated(raw, text, edits);
      }
    } else {
      NotTried(raw, edits);
    }
  }

  lemma EditsAre(edits: seq<Replacement>)
    ensures EditsValid(edits) <==> Bounded(edits)
  {
    hide Encode;
  }

  lemma NotTried(raw: Bytes, edits: seq<Replacement>)
    ensures !EditsValid(edits) ==> Replaced(raw, edits) == Err(EditInvalid)
    ensures EditsValid(edits) && TextOf(raw).Err? ==> Replaced(raw, edits) == Err(EncodingUnsupported)
  {
    hide EditsValid, TextOf, SpansOf, Ranges, InOrder, Patched, Marked;
  }

  lemma BadText(raw: Bytes, text: string)
    requires raw == Mark(raw) + Encode(text)
    ensures TextOf(raw).Ok? ==> TextOf(raw) == Ok(text)
  {
    if TextOf(raw).Ok? {
      var other := TextOf(raw).value;
      TextExactly(raw, other);
      assert Encode(other) == raw[|Mark(raw)|..] == Encode(text);
      DecodeEncode(other);
      DecodeEncode(text);
    }
  }

  lemma FirstDecides(raw: Bytes, text: string, edits: seq<Replacement>, k: nat)
    requires EditsValid(edits) && TextOf(raw) == Ok(text) && FirstRefused(text, edits, k)
    ensures Replaced(raw, edits) == Err(RefusedFor(text, |edits|, edits[k]).value)
  {
    hide EditsValid, TextOf, RefusedFor, SpanOf, Ranges, InOrder, Patched, Marked;
    RefusedExactly(text, |edits|, edits[k]);
    forall j | 0 <= j < k ensures SpanOf(text, |edits|, edits[j]).Ok? {
      RefusedExactly(text, |edits|, edits[j]);
    }
    BeforeIsLocated(text, |edits|, edits, k);
    RefusalStays(text, |edits|, edits, k + 1);
  }

  lemma {:induction false} BeforeIsLocated(text: string, count: nat, edits: seq<Replacement>, k: nat)
    requires k < |edits| && SpanOf(text, count, edits[k]).Err?
    requires forall j :: 0 <= j < k ==> SpanOf(text, count, edits[j]).Ok?
    ensures SpansOf(text, count, edits[..k + 1]) == Err(SpanOf(text, count, edits[k]).error)
  {
    hide SpanOf;
    AllSpans(text, count, edits[..k]);
    assert edits[..k + 1][..k] == edits[..k];
  }

  lemma {:induction false} AllSpans(text: string, count: nat, edits: seq<Replacement>)
    requires forall j :: 0 <= j < |edits| ==> SpanOf(text, count, edits[j]).Ok?
    ensures SpansOf(text, count, edits).Ok?
  {
    hide SpanOf;
    if edits != [] {
      AllSpans(text, count, edits[..|edits| - 1]);
    }
  }

  lemma AllLocated(raw: Bytes, text: string, edits: seq<Replacement>)
    requires EditsValid(edits) && TextOf(raw) == Ok(text)
    requires forall j :: 0 <= j < |edits| ==> RefusedFor(text, |edits|, edits[j]) == None
    ensures var r := Replaced(raw, edits);
      if SomeOverlap(text, edits) then r == Err(Overlap)
      else if |raw| + Sum(Gain, edits) > 1048576 then r == Err(LimitExceeded)
      else r.Ok?
  {
    hide EditsValid, TextOf, RefusedFor, SpanOf, SpansOf, Ranges, InOrder, Patched, Marked, SomeOverlap, Sum, AllApart;
    forall j | 0 <= j < |edits| ensures SpanOf(text, |edits|, edits[j]).Ok? {
      RefusedExactly(text, |edits|, edits[j]);
    }
    AllSpans(text, |edits|, edits);
    RangesInOrderIff(text, edits);
    OverlapIff(text, edits);
    if InOrder(Ranges(SpansOf(text, |edits|, edits).value), 0, |text|) {
      ResultBytes(raw, edits);
    }
  }

  lemma OverlapIff(text: string, edits: seq<Replacement>)
    requires SpansOf(text, |edits|, edits).Ok?
    ensures AllApart(SpansOf(text, |edits|, edits).value) <==> !SomeOverlap(text, edits)
  {
    SpansInside(text, |edits|, edits);
    var spans := SpansOf(text, |edits|, edits).value;
    hide SpansOf, SpanOf;
    forall i, j | 0 <= i < j < |edits| ensures Apart(spans[i], spans[j]) <==> !Overlapping(text, edits[i], edits[j]) {
      PlaceOfSpan(text, |edits|, edits[i]);
      PlaceOfSpan(text, |edits|, edits[j]);
    }
    hide Overlapping, Apart;
  }

  /** A located old text stands only where its span begins. */
  lemma PlaceOfSpan(text: string, count: nat, e: Replacement)
    requires SpanOf(text, count, e).Ok?
    ensures var span := SpanOf(text, count, e).value;
      && span.start >= 0 && span.end == span.start + |e.oldText|
      && Stands(text, e.oldText, span.start) && forall i: nat :: Stands(text, e.oldText, i) ==> i == span.start
  {
    LocatedIff(text, count, e);
    forall i: nat ensures OccursAt(text, e.oldText, i) <==> Stands(text, e.oldText, i) {
      StandsIs(text, e.oldText, i);
    }
  }
}
