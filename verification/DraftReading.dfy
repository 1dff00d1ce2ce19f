/** Reading a saved candidate in bounded chunks: of bytes, or of whole UTF-8 characters. */
module DraftReading {
  import opened Wrappers
  import opened Utf8
  import opened DraftEditing

  datatype Mode = Base64 | Text

  /** The bytes of a chunk, and where the next one starts. */
  datatype Chunk = Chunk(part: Bytes, next: Option<nat>)

  predicate Boundary(raw: Bytes, p: nat)
    requires p <= |raw|
  {
    p == |raw| || !Continuation(raw[p])
  }

  /** The last boundary at or before `end`. */
  function Aligned(raw: Bytes, end: nat): (r: nat)
    requires end <= |raw|
    ensures r <= end && (r > 0 ==> Boundary(raw, r))
    ensures forall p: nat :: p <= end && Boundary(raw, p) ==> p <= r
  {
    if end < |raw| && Continuation(raw[end]) then if end == 0 then 0 else Aligned(raw, end - 1) else end
  }

  function ReadAt(raw: Bytes, offset: int, limit: int, mode: Mode): Result<Chunk> {
    if !(0 <= offset <= MAX_CANDIDATE_BYTES) || !(1 <= limit <= MAX_CHUNK_BYTES) || offset > |raw| then Err(ReadInvalid)
    else
      var end := if offset + limit < |raw| then offset + limit else |raw|;
      if mode.Base64? then Ok(Chunk(raw[offset..end], if end < |raw| then Some(end) else None))
      else if !Boundary(raw, offset) then Err(ReadInvalid)
      else
        var cut := Aligned(raw, end);
        if cut <= offset && offset < |raw| then Err(ReadInvalid)
        else if !Valid(raw[offset..cut]) then Err(ReadInvalid)
        else Ok(Chunk(raw[offset..cut], if cut < |raw| then Some(cut) else None))
  }

  method ReadDraft(raw: Bytes, offset: int, limit: int, mode: Mode) returns (r: Result<Chunk>)
    ensures r == ReadAt(raw, offset, limit, mode)
  {
    if !(0 <= offset <= MAX_CANDIDATE_BYTES) || !(1 <= limit <= MAX_CHUNK_BYTES) || offset > |raw| {
      return Err(ReadInvalid);
    }
    var end := if offset + limit < |raw| then offset + limit else |raw|;
    if mode.Text? {
      if offset < |raw| && Continuation(raw[offset]) {
        return Err(ReadInvalid);
      }
      ghost var start := end;
      while end < |raw| && Continuation(raw[end])
        invariant offset <= end <= start && Aligned(raw, end) == Aligned(raw, start)
        decreases end
      {
        end := end - 1;
      }
      if end == offset && offset < |raw| {
        return Err(ReadInvalid);
      }
      if !Valid(raw[offset..end]) {
        return Err(ReadInvalid);
      }
    }
    return Ok(Chunk(raw[offset..end], if end < |raw| then Some(end) else None));
  }

  // --- When a chunk can be read ---------------------------------------------------------

  /** The bytes of the next character. */
  function NextLength(raw: Bytes, offset: nat): nat
    requires offset <= |raw|
  {
    CharLength(raw[offset..])
  }

  /** The next character ends at a boundary, and no boundary stands inside it. */
  ghost predicate NextCharacter(raw: Bytes, offset: nat, n: nat)
    requires offset <= |raw|
  {
    && 0 < n && offset + n <= |raw| && Boundary(raw, offset + n)
    && forall p :: offset < p < offset + n ==> !Boundary(raw, p)
  }

  lemma BoundaryIsValid(raw: Bytes, offset: nat)
    requires Valid(raw) && offset <= |raw| && Boundary(raw, offset)
    ensures Valid(raw[offset..]) && Valid(raw[..offset])
    ensures offset < |raw| ==> NextCharacter(raw, offset, NextLength(raw, offset))
  {
    ValidSplit(raw, offset);
    if offset < |raw| {
      HeadIsCharacter(raw[offset..]);
      hide CharLength, Valid;
      FromTail(raw, offset, NextLength(raw, offset));
    }
  }

  lemma HeadIsCharacter(s: Bytes)
    requires Valid(s) && s != []
    ensures NextCharacter(s, 0, CharLength(s))
  {
    var n := CharLength(s);
    if n < |s| {
      ValidSplitConverse(s, n);
    }
  }

  lemma FromTail(raw: Bytes, offset: nat, n: nat)
    requires offset <= |raw| && NextCharacter(raw[offset..], 0, n)
    ensures NextCharacter(raw, offset, n)
  {
    var rest := raw[offset..];
    assert offset + n < |raw| ==> rest[n] == raw[offset + n];
    forall p | offset < p < offset + n ensures !Boundary(raw, p) {
      assert !Boundary(rest, p - offset) && rest[p - offset] == raw[p];
    }
  }

  /** As many whole characters as fit, from `offset` on. */
  ghost predicate FullChunk(raw: Bytes, offset: nat, limit: nat, c: Chunk)
    requires offset <= |raw|
  {
    var end := offset + |c.part|;
    && end <= |raw| && c.part == raw[offset..end] && Valid(c.part) && |c.part| <= limit
    && c.next == (if end < |raw| then Some(end) else None)
    && Boundary(raw, end) && (offset < |raw| ==> offset < end)
    && (end < |raw| ==> end + NextLength(raw, end) > offset + limit)
  }

  ghost predicate Readable(raw: Bytes, offset: nat, limit: nat)
    requires offset <= |raw|
  {
    Boundary(raw, offset) && (offset == |raw| || NextLength(raw, offset) <= limit)
  }

  function End(raw: Bytes, offset: nat, limit: nat): nat {
    if offset + limit < |raw| then offset + limit else |raw|
  }

  lemma ReadUnfolds(raw: Bytes, offset: nat, limit: nat)
    requires offset <= |raw| <= MAX_CANDIDATE_BYTES && 1 <= limit <= MAX_CHUNK_BYTES
    ensures End(raw, offset, limit) <= |raw|
    ensures var cut := Aligned(raw, End(raw, offset, limit));
      offset <= cut && Valid(raw[offset..cut]) ==>
        ReadAt(raw, offset, limit, Text) ==
          if !Boundary(raw, offset) || cut <= offset < |raw| then Err(ReadInvalid)
          else Ok(Chunk(raw[offset..cut], if cut < |raw| then Some(cut) else None))
    ensures !Boundary(raw, offset) ==> ReadAt(raw, offset, limit, Text).Err?
  {
    hide Valid, Boundary;
  }

  lemma FullFromCut(raw: Bytes, offset: nat, limit: nat, cut: nat)
    requires offset <= cut <= End(raw, offset, limit) <= |raw| && Boundary(raw, cut) && Valid(raw[offset..cut])
    requires !(cut <= offset < |raw|)
    requires cut < |raw| ==> cut + NextLength(raw, cut) > offset + limit
    ensures FullChunk(raw, offset, limit, Chunk(raw[offset..cut], if cut < |raw| then Some(cut) else None))
  {
    hide Valid, Boundary, NextLength;
  }

  /** In well-formed text a chunk can be read exactly from a character boundary from which the next character
      fits; it then holds as many whole characters as fit. */
  lemma ReadExactly(raw: Bytes, offset: nat, limit: nat)
    requires Valid(raw) && offset <= |raw| <= MAX_CANDIDATE_BYTES && 1 <= limit <= MAX_CHUNK_BYTES
    ensures ReadAt(raw, offset, limit, Text).Ok? <==> Readable(raw, offset, limit)
    ensures ReadAt(raw, offset, limit, Text).Ok? ==>
      FullChunk(raw, offset, limit, ReadAt(raw, offset, limit, Text).value)
  {
    hide NextLength, Valid, Boundary, Aligned, ReadAt, FullChunk;
    ReadUnfolds(raw, offset, limit);
    if Boundary(raw, offset) {
      var end := End(raw, offset, limit);
      CutExactly(raw, offset, limit, end);
      if Readable(raw, offset, limit) {
        FullFromCut(raw, offset, limit, Aligned(raw, end));
      }
    }
  }

  /** Where the cut falls. */
  lemma CutExactly(raw: Bytes, offset: nat, limit: nat, end: nat)
    requires Valid(raw) && offset <= |raw| && Boundary(raw, offset) && 1 <= limit
    requires end == End(raw, offset, limit)
    ensures var cut := Aligned(raw, end);
      && offset <= cut <= end && Boundary(raw, cut) && Valid(raw[offset..cut])
      && (cut <= offset < |raw| <==> !Readable(raw, offset, limit))
      && (cut < |raw| ==> cut + NextLength(raw, cut) > offset + limit)
  {
    var cut := Aligned(raw, end);
    assert offset <= cut;
    hide Valid, NextLength, Aligned;
    BoundaryIsValid(raw, offset);
    assert Boundary(raw, cut);
    CutIsValid(raw, offset, cut);
    BoundaryIsValid(raw, cut);
    if cut < |raw| {
      assert Boundary(raw, cut + NextLength(raw, cut));
    }
  }

  lemma CutIsValid(raw: Bytes, offset: nat, cut: nat)
    requires Valid(raw) && offset <= cut <= |raw| && Boundary(raw, offset) && Boundary(raw, cut)
    ensures Valid(raw[offset..cut])
  {
    hide Valid, Continuation;
    ValidSplit(raw, offset);
    assert cut < |raw| ==> raw[offset..][cut - offset] == raw[cut];
    ValidSplit(raw[offset..], cut - offset);
    assert raw[offset..][..cut - offset] == raw[offset..cut];
  }

  // --- Walking through a candidate ------------------------------------------------------

  /** The chunks found by following the next offsets, or nothing once one is refused. */
  ghost function Walk(raw: Bytes, offset: nat, limit: nat, mode: Mode): Option<seq<Bytes>>
    decreases |raw| - offset
  {
    var r := ReadAt(raw, offset, limit, mode);
    if r.Err? then None
    else if r.value.next == None || r.value.next.value <= offset || r.value.next.value > |raw| then Some([r.value.part])
    else
      var rest := Walk(raw, r.value.next.value, limit, mode);
      if rest == None then None else Some([r.value.part] + rest.value)
  }

  ghost function Joined(parts: seq<Bytes>): Bytes {
    if parts == [] then [] else parts[0] + Joined(parts[1..])
  }

  /** Every character of the text has at most `limit` bytes. */
  predicate CharactersFit(raw: Bytes, limit: nat) {
    var n := CharLength(raw);
    n == 0 || (n <= limit && CharactersFit(raw[n..], limit))
  }

  lemma {:induction false} FourAlwaysFit(raw: Bytes, limit: nat)
    requires limit >= 4
    ensures CharactersFit(raw, limit)
  {
    if CharLength(raw) > 0 {
      FourAlwaysFit(raw[CharLength(raw)..], limit);
    }
  }

  lemma FitStep(raw: Bytes, offset: nat, limit: nat)
    requires offset <= |raw| && NextCharacter(raw, offset, NextLength(raw, offset))
    ensures var n := NextLength(raw, offset);
      CharactersFit(raw[offset..], limit) <==> n <= limit && CharactersFit(raw[offset + n..], limit)
  {
    hide CharLength;
    assert raw[offset..][NextLength(raw, offset)..] == raw[offset + NextLength(raw, offset)..];
  }

  lemma NextBefore(raw: Bytes, offset: nat, n: nat, p: nat)
    requires offset < p <= |raw| && NextCharacter(raw, offset, n) && Boundary(raw, p)
    ensures offset < offset + n <= p && Boundary(raw, offset + n)
  {
  }

  /** Fitting characters fit from every boundary on, and characters that fit may be skipped. */
  lemma {:induction false} FitFrom(raw: Bytes, offset: nat, p: nat, limit: nat)
    requires Valid(raw) && offset <= p <= |raw| && Boundary(raw, offset) && Boundary(raw, p) && p - offset <= limit
    ensures CharactersFit(raw[offset..], limit) <==> CharactersFit(raw[p..], limit)
    decreases p - offset
  {
    if offset == p {
    } else {
      hide *;
      BoundaryIsValid(raw, offset);
      var n := NextLength(raw, offset);
      NextBefore(raw, offset, n, p);
      FitStep(raw, offset, limit);
      FitFrom(raw, offset + n, p, limit);
    }
  }

  ghost predicate WholeCharacters(parts: seq<Bytes>, limit: nat) {
    forall k :: 0 <= k < |parts| ==> Valid(parts[k]) && |parts[k]| <= limit
  }

  lemma FirstPart(part: Bytes, rest: seq<Bytes>, limit: nat)
    requires WholeCharacters(rest, limit) && Valid(part) && |part| <= limit
    ensures WholeCharacters([part] + rest, limit) && Joined([part] + rest) == part + Joined(rest)
  {
    assert ([part] + rest)[1..] == rest;
  }

  lemma WalkStep(raw: Bytes, offset: nat, limit: nat)
    ensures var (r, walk) := (ReadAt(raw, offset, limit, Text), Walk(raw, offset, limit, Text));
      && (r.Err? ==> walk == None)
      && (r.Ok? && r.value.next == None ==> walk == Some([r.value.part]))
      && (r.Ok? && r.value.next.Some? && offset < r.value.next.value <= |raw| ==>
            var rest := Walk(raw, r.value.next.value, limit, Text);
            walk == if rest == None then None else Some([r.value.part] + rest.value))
  {
    hide ReadAt;
  }

  lemma FullParts(raw: Bytes, offset: nat, limit: nat, c: Chunk)
    requires offset <= |raw| && FullChunk(raw, offset, limit, c)
    ensures var end := offset + |c.part|;
      && end <= |raw| && c.part == raw[offset..end] && Valid(c.part) && |c.part| <= limit && Boundary(raw, end)
      && (end == |raw| <==> c.next == None) && (end < |raw| ==> c.next == Some(end) && offset < end)
      && c.part + raw[end..] == raw[offset..]
  {
    hide Valid, Boundary, NextLength;
    assert raw[offset..] == raw[offset..offset + |c.part|] + raw[offset + |c.part|..];
  }

  ghost predicate WalkedAll(raw: Bytes, offset: nat, limit: nat, walk: Option<seq<Bytes>>)
    requires offset <= |raw|
  {
    && (walk.Some? <==> CharactersFit(raw[offset..], limit))
    && (walk.Some? ==> Joined(walk.value) == raw[offset..] && WholeCharacters(walk.value, limit))
  }

  lemma WalkedOn(raw: Bytes, offset: nat, limit: nat, part: Bytes, end: nat, rest: Option<seq<Bytes>>)
    requires offset <= end <= |raw| && Valid(part) && |part| <= limit && part + raw[end..] == raw[offset..]
    requires WalkedAll(raw, end, limit, rest)
    requires CharactersFit(raw[offset..], limit) <==> CharactersFit(raw[end..], limit)
    ensures WalkedAll(raw, offset, limit, if rest == None then None else Some([part] + rest.value))
  {
    hide CharactersFit, Valid, Joined, WholeCharacters;
    if rest.Some? {
      FirstPart(part, rest.value, limit);
    }
  }

  lemma WalkedLast(raw: Bytes, limit: nat)
    ensures WalkedAll(raw, |raw|, limit, Some([]))
  {
    assert raw[|raw|..] == [];
    NothingFits(limit);
  }

  /** Following the offsets from a boundary succeeds exactly when every character fits the limit; the chunks
      are whole characters and join to what was left. */
  lemma {:induction false} WalkExactly(raw: Bytes, offset: nat, limit: nat)
    requires Valid(raw) && offset <= |raw| <= MAX_CANDIDATE_BYTES && 1 <= limit <= MAX_CHUNK_BYTES
    requires Boundary(raw, offset)
    ensures WalkedAll(raw, offset, limit, Walk(raw, offset, limit, Text))
    decreases |raw| - offset
  {
    hide CharactersFit, ReadAt, NextLength, Valid, Boundary, Joined, WholeCharacters, CharLength, Walk, FullChunk;
    hide Readable;
    ReadExactly(raw, offset, limit);
    WalkStep(raw, offset, limit);
    var r := ReadAt(raw, offset, limit, Text);
    if r.Err? {
      FitFirst(raw, offset, limit);
    } else {
      hide WalkedAll;
      FullParts(raw, offset, limit, r.value);
      var end := offset + |r.value.part|;
      FitFrom(raw, offset, end, limit);
      if end == |raw| {
        WalkedLast(raw, limit);
        WalkedOn(raw, offset, limit, r.value.part, end, Some([]));
        assert [r.value.part] + [] == [r.value.part];
      } else {
        WalkExactly(raw, end, limit);
        WalkedOn(raw, offset, limit, r.value.part, end, Walk(raw, end, limit, Text));
      }
    }
  }

  /** A character that does not fit shows at its boundary. */
  lemma FitFirst(raw: Bytes, offset: nat, limit: nat)
    requires Valid(raw) && offset <= |raw| && Boundary(raw, offset) && !Readable(raw, offset, limit)
    ensures !CharactersFit(raw[offset..], limit)
  {
    BoundaryIsValid(raw, offset);
    hide CharLength, Valid;
  }

  lemma NothingFits(limit: nat)
    ensures CharactersFit([], limit)
  {
  }

  /** With a limit of at least four, walking any well-formed candidate from its start never refuses, ends, and
      gives back the candidate in whole characters. */
  lemma WalkReadsAll(raw: Bytes, limit: nat)
    requires Valid(raw) && |raw| <= MAX_CANDIDATE_BYTES && 4 <= limit <= MAX_CHUNK_BYTES
    ensures var parts := Walk(raw, 0, limit, Text);
      parts.Some? && Joined(parts.value) == raw && WholeCharacters(parts.value, limit)
  {
    assert raw[0..] == raw;
    FourAlwaysFit(raw, limit);
    assert Boundary(raw, 0) by {
      if raw != [] { assert CharLength(raw) > 0; }
    }
    hide Valid, CharactersFit, Walk, Joined, WholeCharacters, CharLength;
    WalkExactly(raw, 0, limit);
  }

  /** In bytes, any limit will do and nothing is asked of the candidate. */
  lemma {:induction false} WalkBytesReadsAll(raw: Bytes, offset: nat, limit: nat)
    requires offset <= |raw| <= MAX_CANDIDATE_BYTES && 1 <= limit <= MAX_CHUNK_BYTES
    ensures var parts := Walk(raw, offset, limit, Base64); parts.Some? && Joined(parts.value) == raw[offset..]
    decreases |raw| - offset
  {
    var end := if offset + limit < |raw| then offset + limit else |raw|;
    assert raw[offset..] == raw[offset..end] + raw[end..];
    if end < |raw| {
      WalkBytesReadsAll(raw, end, limit);
      var rest := Walk(raw, end, limit, Base64).value;
      assert ([raw[offset..end]] + rest)[1..] == rest;
    } else {
      assert Joined([raw[offset..end]]) == raw[offset..end] + Joined([]);
    }
  }
}
