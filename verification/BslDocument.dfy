/** A BSL source as the text merge sees it: an optional byte order mark, LF-delimited lines that keep
    their terminators, and one newline style. */
module BslDocument {
  import opened Utf8
  import opened LineEnds

  const LF: Byte := 10
  const CR: Byte := 13
  const NUL: Byte := 0
  const BOM: Bytes := [0xEF, 0xBB, 0xBF]
  const MAX_LINE_BYTES: nat := 1024 * 1024

  datatype Newline = NoNewline | Lf | CrLf | Mixed | Unsupported

  datatype Document = Document(lines: seq<Bytes>, bom: Bytes, newline: Newline)

  datatype Problem =
    | LineLimit(candidate: bool, lineCount: nat)
    | NulByte
    | InvalidUtf8
    | LineByteLimit(candidate: bool)

  datatype Parse = Parsed(document: Document) | Rejected(problem: Problem)

  function Count(body: Bytes, b: Byte): nat {
    if body == [] then 0 else (if body[0] == b then 1 else 0) + Count(body[1..], b)
  }

  /** Occurrences of CR LF. */
  function CountPairs(body: Bytes): nat {
    if |body| < 2 then 0 else (if body[0] == CR && body[1] == LF then 1 else 0) + CountPairs(body[1..])
  }

  function LineCount(body: Bytes): nat {
    Count(body, LF) + if body != [] && body[|body| - 1] != LF then 1 else 0
  }

  /** Index of the first LF, or the length. */
  function LineEnd(body: Bytes): (k: nat)
    ensures k <= |body| && (k < |body| ==> body[k] == LF) && forall j :: 0 <= j < k ==> body[j] != LF
  {
    if body == [] || body[0] == LF then 0 else 1 + LineEnd(body[1..])
  }

  /** The lines with their terminators; a final terminator opens no further line. */
  function Lines(body: Bytes): seq<Bytes> {
    if body == [] then []
    else
      var k := LineEnd(body);
      if k == |body| then [body] else [body[..k + 1]] + Lines(body[k + 1..])
  }

  function NewlineStyle(body: Bytes): Newline {
    var crlf, lf := CountPairs(body), Count(body, LF);
    if Count(body, CR) != crlf then Unsupported
    else if crlf > 0 && crlf != lf then Mixed
    else if crlf > 0 then CrLf
    else if lf > 0 then Lf
    else NoNewline
  }

  function BomOf(raw: Bytes): (bom: Bytes) {
    if BOM <= raw then BOM else []
  }

  function Parsing(raw: Bytes, maxLines: nat, candidate: bool): Parse {
    var bom := BomOf(raw);
    var body := raw[|bom|..];
    if LineCount(body) > maxLines then Rejected(LineLimit(candidate, LineCount(body)))
    else if NUL in body then Rejected(NulByte)
    else if !Valid(body) then Rejected(InvalidUtf8)
    else if exists line :: line in Lines(body) && |line| > MAX_LINE_BYTES then Rejected(LineByteLimit(candidate))
    else Parsed(Document(Lines(body), bom, NewlineStyle(body)))
  }

  // --- Splitting and joining ------------------------------------------------------------

  predicate Terminated(line: Bytes) {
    line != [] && line[|line| - 1] == LF
  }

  /** Not empty, and no LF before the last byte. */
  predicate IsLine(line: Bytes) {
    line != [] && LF !in line[..|line| - 1]
  }

  /** What a body splits into: lines, of which only the last may lack its terminator. */
  ghost predicate IsLineList(lines: seq<Bytes>) {
    lines == [] || (IsLine(lines[0]) && (Terminated(lines[0]) || |lines| == 1) && IsLineList(lines[1..]))
  }

  function Join(lines: seq<Bytes>): Bytes {
    if lines == [] then [] else lines[0] + Join(lines[1..])
  }

  lemma {:induction false} JoinOfLines(body: Bytes)
    ensures IsLineList(Lines(body)) && Join(Lines(body)) == body
  {
    if body != [] {
      var k := LineEnd(body);
      if k == |body| {
        assert Lines(body)[1..] == [];
      } else {
        var line, rest := body[..k + 1], body[k + 1..];
        JoinOfLines(rest);
        assert line[..|line| - 1] == body[..k];
        ConsLine(line, Lines(rest));
        assert line + rest == body;
      }
    }
  }

  lemma ConsLine(line: Bytes, lines: seq<Bytes>)
    requires IsLine(line) && (Terminated(line) || lines == []) && IsLineList(lines)
    ensures IsLineList([line] + lines) && Join([line] + lines) == line + Join(lines)
  {
    assert ([line] + lines)[1..] == lines;
  }

  lemma {:induction false} LineEndOf(line: Bytes, rest: Bytes)
    requires IsLine(line)
    ensures LineEnd(line + rest) >= |line| - 1
    ensures Terminated(line) ==> LineEnd(line + rest) == |line| - 1
    ensures !Terminated(line) && rest == [] ==> LineEnd(line + rest) == |line|
  {
    var all := line + rest;
    assert forall j :: 0 <= j < |line| - 1 ==> line[..|line| - 1][j] == all[j];
    assert Terminated(line) ==> all[|line| - 1] == LF;
  }

  /** Joining lines and splitting again gives the same lines: the candidate reparses to its parts. */
  lemma {:induction false} LinesOfJoin(lines: seq<Bytes>)
    requires IsLineList(lines)
    ensures Lines(Join(lines)) == lines
  {
    if lines != [] {
      LinesOfJoin(lines[1..]);
      var line, rest := lines[0], Join(lines[1..]);
      LineEndOf(line, rest);
      if Terminated(line) {
        assert (line + rest)[..|line|] == line && (line + rest)[|line|..] == rest;
      } else {
        assert lines[1..] == [];
        assert line + rest == line;
      }
    }
  }

  lemma {:induction false} CountConcat(x: Bytes, y: Bytes, b: Byte)
    ensures Count(x + y, b) == Count(x, b) + Count(y, b)
  {
    if x == [] {
      assert x + y == y;
    } else {
      CountConcat(x[1..], y, b);
      assert (x + y)[1..] == x[1..] + y;
    }
  }

  /** No pair straddles a cut that does not follow a CR or does not precede an LF. */
  lemma {:induction false} CountPairsConcat(x: Bytes, y: Bytes)
    requires x == [] || y == [] || x[|x| - 1] != CR || y[0] != LF
    ensures CountPairs(x + y) == CountPairs(x) + CountPairs(y)
  {
    if x == [] {
      assert x + y == y;
    } else if y == [] {
      assert x + y == x;
    } else {
      assert (x + y)[1..] == x[1..] + y;
      if |x| > 1 {
        CountPairsConcat(x[1..], y);
      } else {
        assert x[1..] + y == y;
      }
    }
  }

  lemma {:induction false} CountNone(body: Bytes, b: Byte)
    ensures Count(body, b) == 0 <==> b !in body
  {
    if body != [] {
      CountNone(body[1..], b);
      assert body == [body[0]] + body[1..];
    }
  }

  lemma LineLfs(line: Bytes)
    requires IsLine(line)
    ensures Count(line, LF) == if Terminated(line) then 1 else 0
  {
    var head, last := line[..|line| - 1], [line[|line| - 1]];
    assert line == head + last;
    CountConcat(head, last, LF);
    CountNone(head, LF);
  }

  /** The bound that is checked before splitting counts exactly the lines. */
  lemma {:induction false} LineCountIsLength(lines: seq<Bytes>)
    requires IsLineList(lines)
    ensures LineCount(Join(lines)) == |lines|
  {
    if lines != [] {
      LineCountIsLength(lines[1..]);
      var line, rest := lines[0], Join(lines[1..]);
      LineLfs(line);
      CountConcat(line, rest, LF);
      if lines[1..] == [] {
        assert line + rest == line;
      } else {
        assert lines[1..][0] != [];
      }
    }
  }

  // --- Newline style, line by line ------------------------------------------------------

  /** LFs and CRs that do not belong to a CR LF pair. */
  function Excess(body: Bytes): int {
    Count(body, LF) + Count(body, CR) - 2 * CountPairs(body)
  }

  /** Every CR precedes an LF and every LF follows a CR. */
  predicate CrLfLine(line: Bytes) {
    Excess(line) == 0
  }

  lemma {:induction false} PairsBound(body: Bytes)
    ensures CountPairs(body) <= Count(body, LF) && CountPairs(body) <= Count(body, CR)
    ensures body != [] && body[0] == LF ==> CountPairs(body) < Count(body, LF)
  {
    if body != [] {
      PairsBound(body[1..]);
    }
  }

  lemma {:induction false} CountsOfJoin(lines: seq<Bytes>)
    requires IsLineList(lines)
    ensures Count(Join(lines), CR) == 0 <==> forall line :: line in lines ==> CR !in line
    ensures Count(Join(lines), LF) > 0 <==> exists line :: line in lines && Terminated(line)
  {
    if lines != [] {
      CountsOfJoin(lines[1..]);
      var line, rest := lines[0], Join(lines[1..]);
      assert forall l :: l in lines <==> l == line || l in lines[1..];
      CountConcat(line, rest, LF);
      CountConcat(line, rest, CR);
      CountNone(line, CR);
      LineLfs(line);
    }
  }

  lemma {:induction false} ExcessOfJoin(lines: seq<Bytes>)
    requires IsLineList(lines)
    ensures Excess(Join(lines)) == 0 <==> forall line :: line in lines ==> CrLfLine(line)
  {
    if lines != [] {
      ExcessOfJoin(lines[1..]);
      var line, rest := lines[0], Join(lines[1..]);
      assert forall l :: l in lines <==> l == line || l in lines[1..];
      CountConcat(line, rest, LF);
      CountConcat(line, rest, CR);
      if lines[1..] == [] {
        assert rest == [];
      }
      CountPairsConcat(line, rest);
      PairsBound(line);
      PairsBound(rest);
      assert Excess(line + rest) == Excess(line) + Excess(rest) && Excess(line) >= 0 && Excess(rest) >= 0;
      assert CrLfLine(line) <==> Excess(line) == 0;
    }
  }

  /** The style of a body, read off its lines. */
  lemma StyleByLines(lines: seq<Bytes>)
    requires IsLineList(lines)
    ensures var style := NewlineStyle(Join(lines));
      && (style in {NoNewline, Lf} <==> forall line :: line in lines ==> CR !in line)
      && (style in {NoNewline, CrLf} <==> forall line :: line in lines ==> CrLfLine(line))
      && (style in {Lf, CrLf} ==> exists line :: line in lines && Terminated(line))
      && (style == NoNewline ==> forall line :: line in lines ==> !Terminated(line))
  {
    CountsOfJoin(lines);
    ExcessOfJoin(lines);
    PairsBound(Join(lines));
  }

  // --- Newline style, byte by byte ------------------------------------------------------

  ghost predicate LoneCr(body: Bytes) {
    Lone(body, CR, LF)
  }

  ghost predicate BareLf(body: Bytes) {
    Bare(body, CR, LF)
  }

  ghost predicate HasPair(body: Bytes) {
    Pair(body, CR, LF)
  }

  lemma NoEnds(body: Bytes)
    requires body == []
    ensures !LoneCr(body) && !BareLf(body) && !HasPair(body)
  {
  }

  lemma {:induction false} CountsExactly(body: Bytes)
    ensures Count(body, CR) == CountPairs(body) <==> !LoneCr(body)
    ensures Count(body, LF) == CountPairs(body) <==> !BareLf(body)
    ensures CountPairs(body) > 0 <==> HasPair(body)
  {
    hide Lone, Bare, Pair;
    if body == [] {
      NoEnds(body);
    } else {
      PairsBound(body[1..]);
      if |body| > 1 && body[0] == CR && body[1] == LF {
        assert body[1..][1..] == body[2..];
        assert Count(body[1..], LF) == 1 + Count(body[2..], LF) && Count(body[1..], CR) == Count(body[2..], CR);
        assert CountPairs(body[1..]) == CountPairs(body[2..]);
        PairsBound(body[2..]);
        AfterPair(body, CR, LF);
        CountsExactly(body[2..]);
      } else {
        LoneInFront(body, CR, LF);
        BareInFront(body, CR, LF);
        PairInFront(body, CR, LF);
        CountsExactly(body[1..]);
      }
    }
  }

  /** The style of any body, told from its bytes. */
  lemma StyleExactly(body: Bytes)
    ensures NewlineStyle(body) ==
      if LoneCr(body) then Unsupported
      else if HasPair(body) && BareLf(body) then Mixed
      else if HasPair(body) then CrLf
      else if BareLf(body) then Lf
      else NoNewline
  {
    CountsExactly(body);
    PairsBound(body);
    hide LoneCr, BareLf, HasPair, Count, CountPairs;
  }

  // --- Which documents are read ---------------------------------------------------------

  /** Any mark and any line list in front of which it is told apart, printed and read again: the four refusals, in
      order, and otherwise the same mark and lines. Every file is such a print. */
  lemma ParsedExactly(bom: Bytes, lines: seq<Bytes>, maxLines: nat, candidate: bool)
    requires IsLineList(lines) && (bom == BOM || (bom == [] && !(BOM <= Join(lines))))
    ensures Parsing(bom + Join(lines), maxLines, candidate) ==
      if |lines| > maxLines then Rejected(LineLimit(candidate, |lines|))
      else if exists line :: line in lines && NUL in line then Rejected(NulByte)
      else if exists line :: line in lines && !Valid(line) then Rejected(InvalidUtf8)
      else if exists line :: line in lines && |line| > MAX_LINE_BYTES then Rejected(LineByteLimit(candidate))
      else Parsed(Document(lines, bom, NewlineStyle(Join(lines))))
  {
    var raw := bom + Join(lines);
    assert raw[|bom|..] == Join(lines);
    assert bom == [] ==> raw == Join(lines);
    LinesOfJoin(lines);
    LineCountIsLength(lines);
    LinesValid(lines);
    JoinContains(lines, NUL);
    hide Valid, NewlineStyle, LineCount, Lines, Join, IsLineList;
  }

  /** Every file is a mark, or none, before the line list of its body. */
  lemma EveryFile(raw: Bytes) returns (bom: Bytes, lines: seq<Bytes>)
    ensures IsLineList(lines) && raw == bom + Join(lines)
    ensures bom == (if BOM <= raw then BOM else []) && (bom == [] ==> !(BOM <= Join(lines)))
  {
    bom := if BOM <= raw then BOM else [];
    var body := raw[|bom|..];
    lines := Lines(body);
    JoinOfLines(body);
    assert raw == raw[..|bom|] + body;
  }

  // --- Bytes that survive line surgery --------------------------------------------------

  /** Cutting valid text after each LF, or joining such lines in any order, keeps it valid. */
  lemma {:induction false} LinesValid(lines: seq<Bytes>)
    requires IsLineList(lines)
    ensures Valid(Join(lines)) <==> forall line :: line in lines ==> Valid(line)
  {
    if lines != [] {
      LinesValid(lines[1..]);
      var line, rest := lines[0], Join(lines[1..]);
      assert forall l :: l in lines <==> l == line || l in lines[1..];
      if Valid(line) && Valid(rest) {
        ValidConcat(line, rest);
      }
      if Valid(line + rest) {
        if lines[1..] == [] {
          assert rest == [];
        }
        CutAfterLine(line, rest);
      }
      assert Valid(line + rest) <==> Valid(line) && Valid(rest);
      assert line in lines && forall l :: l in lines[1..] ==> l in lines;
    }
  }

  lemma CutAfterLine(line: Bytes, rest: Bytes)
    requires Valid(line + rest) && line != [] && (rest == [] || Terminated(line))
    ensures Valid(line) && Valid(rest)
  {
    var all := line + rest;
    assert all[..|line|] == line && all[|line|..] == rest;
    if rest == [] {
      assert all == line;
    } else {
      AfterAscii(all, |line| - 1);
      ValidSplit(all, |line|);
    }
  }

  /** An ASCII byte of valid text is a whole character. */
  lemma {:induction false} AfterAscii(s: Bytes, p: nat)
    requires Valid(s) && p + 1 < |s| && s[p] <= 0x7F
    ensures !Continuation(s[p + 1])
  {
    var n := CharLength(s);
    if p == 0 {
      assert Valid(s[1..]) && s[1..][0] == s[1];
    } else {
      assert s[n..][p - n] == s[p] && s[n..][p + 1 - n] == s[p + 1];
      AfterAscii(s[n..], p - n);
    }
  }

  lemma {:induction false} JoinContains(lines: seq<Bytes>, b: Byte)
    ensures b in Join(lines) <==> exists line :: line in lines && b in line
  {
    if lines != [] {
      JoinContains(lines[1..], b);
      assert forall l :: l in lines <==> l == lines[0] || l in lines[1..];
    }
  }

  /** A body starts with the byte order mark exactly when its first line does. */
  lemma BomInFirstLine(lines: seq<Bytes>)
    requires IsLineList(lines)
    ensures BOM <= Join(lines) <==> lines != [] && BOM <= lines[0]
  {
    if lines != [] {
      var line, rest := lines[0], Join(lines[1..]);
      if BOM <= line + rest && |line| < 3 {
        assert (line + rest)[|line| - 1] == line[|line| - 1];
        assert lines[1..] == [] ==> line + rest == line;
      }
    }
  }
}
