/** The edit script from the base lines to one branch: equal margins trimmed first, then the non-equal
    opcodes of the longest-block matcher. A script records, beside each replacement, the lines of the
    branch that it copies. */
module BslEdits {
  import opened Sequences
  import opened Patching
  import opened Matching

  /** Half-open interval of line numbers. */
  datatype Range = Range(start: nat, end: nat)

  datatype Source = Current | Upstream

  /** Where a merged hunk comes from, with its lines there; a shared hunk keeps both. */
  datatype Origin = From(source: Source, range: Range) | Both(current: Range, upstream: Range)

  type LineEdit<L> = Edit<L, Origin>

  const MAX_DIFF_CELLS: nat := 4_000_000

  datatype ScriptResult<L> =
    | Script(edits: seq<LineEdit<L>>)
    | WorkLimit(source: Source, base: Range, branch: Range)

  // --- Specification --------------------------------------------------------------------

  function CommonPrefix<L(==)>(a: seq<L>, b: seq<L>, k: nat): (n: nat)
    requires k <= |a| && k <= |b|
    ensures k <= n <= |a| && n <= |b|
    decreases |a| - k
  {
    if k < |a| && k < |b| && a[k] == b[k] then CommonPrefix(a, b, k + 1) else k
  }

  /** The two ends `(x, y)` after trimming the equal suffixes of `a[start..x]` and `b[start..y]`. */
  function TrimSuffix<L(==)>(a: seq<L>, b: seq<L>, start: nat, x: nat, y: nat): (r: (nat, nat))
    requires start <= x <= |a| && start <= y <= |b|
    ensures start <= r.0 <= x && start <= r.1 <= y
  {
    if x > start && y > start && a[x - 1] == b[y - 1] then TrimSuffix(a, b, start, x - 1, y - 1) else (x, y)
  }

  /** What lies between the equal margins. */
  function Core<L(==)>(base: seq<L>, branch: seq<L>): (w: Window)
    ensures w.Fits(base, branch)
  {
    var start := CommonPrefix(base, branch, 0);
    var ends := TrimSuffix(base, branch, start, |base|, |branch|);
    Window(start, ends.0, start, ends.1)
  }

  /** `s[x..y]`; the opcodes never leave the bounds. */
  function Slice<L>(s: seq<L>, x: nat, y: nat): seq<L> {
    if x <= y <= |s| then s[x..y] else []
  }

  function EditOf<L>(branch: seq<L>, op: Opcode, source: Source): LineEdit<L> {
    Edit(op.i, op.ai, Slice(branch, op.j, op.bj), From(source, Range(op.j, op.bj)))
  }

  /** The non-equal opcodes as edits. */
  function EditsOf<L>(branch: seq<L>, ops: seq<Opcode>, source: Source): seq<LineEdit<L>> {
    if ops == [] then []
    else (if ops[0].equal then [] else [EditOf(branch, ops[0], source)]) + EditsOf(branch, ops[1..], source)
  }

  function EditScript<L(==)>(base: seq<L>, branch: seq<L>, source: Source): ScriptResult<L> {
    var w := Core(base, branch);
    if (w.ahi - w.alo) * (w.bhi - w.blo) > MAX_DIFF_CELLS then
      WorkLimit(source, Range(w.alo, w.ahi), Range(w.blo, w.bhi))
    else
      Script(EditsOf(branch, Opcodes(Blocks(base, branch, w), w), source))
  }

  // --- The loops ------------------------------------------------------------------------

  method TrimMargins<L(==)>(base: seq<L>, branch: seq<L>) returns (w: Window)
    ensures w == Core(base, branch)
    ensures w.alo == w.blo && base[..w.alo] == branch[..w.blo] && base[w.ahi..] == branch[w.bhi..]
    ensures w.alo < w.ahi && w.blo < w.bhi ==>
      base[w.alo] != branch[w.blo] && base[w.ahi - 1] != branch[w.bhi - 1]
  {
    var start: nat := 0;
    while start < |base| && start < |branch| && base[start] == branch[start]
      invariant start <= |base| && start <= |branch|
      invariant base[..start] == branch[..start]
      invariant CommonPrefix(base, branch, start) == CommonPrefix(base, branch, 0)
    {
      start := start + 1;
    }
    var x: nat, y: nat := |base|, |branch|;
    while x > start && y > start && base[x - 1] == branch[y - 1]
      invariant start <= x <= |base| && start <= y <= |branch|
      invariant base[x..] == branch[y..]
      invariant TrimSuffix(base, branch, start, x, y) == TrimSuffix(base, branch, start, |base|, |branch|)
      decreases x
    {
      x, y := x - 1, y - 1;
    }
    w := Window(start, x, start, y);
  }

  method ComputeEdits<L(==)>(base: seq<L>, branch: seq<L>, source: Source) returns (r: ScriptResult<L>)
    ensures r == EditScript(base, branch, source)
  {
    var w := TrimMargins(base, branch);
    if (w.ahi - w.alo) * (w.bhi - w.blo) > MAX_DIFF_CELLS {
      return WorkLimit(source, Range(w.alo, w.ahi), Range(w.blo, w.bhi));
    }
    var edits := CollectEdits(branch, Opcodes(Blocks(base, branch, w), w), source);
    r := Script(edits);
  }

  lemma EditsOfStep<L>(branch: seq<L>, ops: seq<Opcode>, k: nat, source: Source)
    requires k < |ops|
    ensures EditsOf(branch, ops[k..], source) ==
      if ops[k].equal then EditsOf(branch, ops[k + 1..], source)
      else [EditOf(branch, ops[k], source)] + EditsOf(branch, ops[k + 1..], source)
  {
    assert ops[k..][1..] == ops[k + 1..];
  }

  method CollectEdits<L>(branch: seq<L>, ops: seq<Opcode>, source: Source) returns (edits: seq<LineEdit<L>>)
    ensures edits == EditsOf(branch, ops, source)
  {
    edits := [];
    assert ops[0..] == ops && EditsOf(branch, ops[|ops|..], source) == [];
    hide EditOf, EditsOf;
    for k := 0 to |ops|
      invariant edits + EditsOf(branch, ops[k..], source) == EditsOf(branch, ops, source)
    {
      EditsOfStep(branch, ops, k, source);
      if !ops[k].equal {
        Associates(edits, [EditOf(branch, ops[k], source)], EditsOf(branch, ops[k + 1..], source));
        edits := edits + [EditOf(branch, ops[k], source)];
      }
    }
  }

  // --- What a script means --------------------------------------------------------------

  /** From position `i` of `base` and `j` of `branch` on, the two sequences agree except that each edit
      turns its base interval into exactly the branch interval that it records; no edit is empty. */
  ghost predicate Tiles<L>(base: seq<L>, branch: seq<L>, edits: seq<LineEdit<L>>, i: nat, j: nat) {
    i <= |base| && j <= |branch| &&
    if edits == [] then base[i..] == branch[j..]
    else
      var e := edits[0];
      e.mark.From? &&
      i <= e.start <= e.end <= |base| && j <= e.mark.range.start <= e.mark.range.end <= |branch| &&
      base[i..e.start] == branch[j..e.mark.range.start] &&
      e.replacement == branch[e.mark.range.start..e.mark.range.end] &&
      (e.start < e.end || e.replacement != []) &&
      Tiles(base, branch, edits[1..], e.end, e.mark.range.end)
  }

  ghost predicate ScriptFor<L>(base: seq<L>, branch: seq<L>, edits: seq<LineEdit<L>>) {
    Separated(edits, 0, |base|) && Tiles(base, branch, edits, 0, 0)
  }

  lemma MarginsEqual<L>(base: seq<L>, branch: seq<L>)
    ensures var w := Core(base, branch);
      w.alo == w.blo && base[..w.alo] == branch[..w.blo] && base[w.ahi..] == branch[w.bhi..]
  {
    var start := CommonPrefix(base, branch, 0);
    PrefixEqual(base, branch, 0);
    SuffixEqual(base, branch, start, |base|, |branch|);
  }

  lemma {:induction false} PrefixEqual<L>(a: seq<L>, b: seq<L>, k: nat)
    requires k <= |a| && k <= |b| && a[..k] == b[..k]
    ensures var n := CommonPrefix(a, b, k); a[..n] == b[..n]
    decreases |a| - k
  {
    if k < |a| && k < |b| && a[k] == b[k] {
      assert a[..k + 1] == a[..k] + [a[k]] && b[..k + 1] == b[..k] + [b[k]];
      PrefixEqual(a, b, k + 1);
    }
  }

  lemma {:induction false} SuffixEqual<L>(a: seq<L>, b: seq<L>, start: nat, x: nat, y: nat)
    requires start <= x <= |a| && start <= y <= |b| && a[x..] == b[y..]
    ensures var r := TrimSuffix(a, b, start, x, y); a[r.0..] == b[r.1..]
    decreases x
  {
    if x > start && y > start && a[x - 1] == b[y - 1] {
      assert a[x - 1..] == [a[x - 1]] + a[x..] && b[y - 1..] == [b[y - 1]] + b[y..];
      SuffixEqual(a, b, start, x - 1, y - 1);
    }
  }

  /** The edit for the stretch before `(ai, bj)`, when there is one. */
  ghost function GapEdit<L>(branch: seq<L>, w: Window, ai: nat, bj: nat, source: Source): seq<LineEdit<L>>
    requires w.blo <= bj <= |branch|
  {
    if w.alo < ai || w.blo < bj then [EditOf(branch, Opcode(false, w.alo, ai, w.blo, bj), source)] else []
  }

  /** The edits between the blocks of a window. */
  ghost function GapEdits<L>(base: seq<L>, branch: seq<L>, w: Window, blocks: seq<Block>,
                             source: Source): seq<LineEdit<L>>
    requires w.Fits(base, branch) && Aligned(base, branch, w, blocks)
    decreases |blocks|
  {
    if blocks == [] then GapEdit(branch, w, w.ahi, w.bhi, source)
    else
      var m := blocks[0];
      GapEdit(branch, w, m.i, m.j, source) +
      GapEdits(base, branch, w.(alo := m.i + m.size, blo := m.j + m.size), blocks[1..], source)
  }

  lemma {:induction false} OpcodesGiveGapEdits<L>(base: seq<L>, branch: seq<L>, w: Window, blocks: seq<Block>,
                                                  source: Source)
    requires w.Fits(base, branch) && Aligned(base, branch, w, blocks)
    ensures EditsOf(branch, Opcodes(blocks, w), source) == GapEdits(base, branch, w, blocks, source)
    decreases |blocks|
  {
    hide *;
    FirstGap(base, branch, w, blocks, source);
    if blocks == [] {
      OnlyOpcode(branch, w, source);
    } else {
      AlignedUnfold(base, branch, w, blocks);
      FirstOpcodes(branch, w, blocks, source);
      OpcodesGiveGapEdits(base, branch, w.(alo := blocks[0].i + blocks[0].size, blo := blocks[0].j + blocks[0].size),
        blocks[1..], source);
    }
  }

  lemma FirstGap<L>(base: seq<L>, branch: seq<L>, w: Window, blocks: seq<Block>, source: Source)
    requires w.Fits(base, branch) && Aligned(base, branch, w, blocks)
    ensures w.blo <= w.bhi <= |branch|
    ensures blocks == [] ==> GapEdits(base, branch, w, blocks, source) == GapEdit(branch, w, w.ahi, w.bhi, source)
    ensures blocks != [] ==>
      var m := blocks[0];
      && w.blo <= m.j <= |branch|
      && GapEdits(base, branch, w, blocks, source) == GapEdit(branch, w, m.i, m.j, source) +
        GapEdits(base, branch, w.(alo := m.i + m.size, blo := m.j + m.size), blocks[1..], source)
  {
  }

  lemma OnlyOpcode<L>(branch: seq<L>, w: Window, source: Source)
    requires w.blo <= w.bhi <= |branch|
    ensures EditsOf(branch, Opcodes([], w), source) == GapEdit(branch, w, w.ahi, w.bhi, source)
  {
    var gap := Gap(w.alo, w.ahi, w.blo, w.bhi);
    assert gap != [] ==> gap[1..] == [];
  }

  lemma FirstOpcodes<L>(branch: seq<L>, w: Window, blocks: seq<Block>, source: Source)
    requires blocks != [] && w.blo <= blocks[0].j <= |branch|
    ensures var m := blocks[0];
      EditsOf(branch, Opcodes(blocks, w), source) == GapEdit(branch, w, m.i, m.j, source) +
        EditsOf(branch, Opcodes(blocks[1..], w.(alo := m.i + m.size, blo := m.j + m.size)), source)
  {
    var m := blocks[0];
    var gap, ops := Gap(w.alo, m.i, w.blo, m.j), Opcodes(blocks, w);
    var rest := Opcodes(blocks[1..], w.(alo := m.i + m.size, blo := m.j + m.size));
    if gap == [] {
      assert ops[0].equal && ops[1..] == rest;
    } else {
      assert ops[0] == gap[0] && ops[1..][0].equal && ops[1..][1..] == rest;
    }
  }

  /** The gaps between aligned blocks tile both sides. The stretch from `(p, q)` to the window is already
      known to be equal, and the next edit may start no earlier than `lo`. */
  lemma {:induction false} GapEditsTile<L>(base: seq<L>, branch: seq<L>, w: Window, blocks: seq<Block>, source: Source,
                                           p: nat, q: nat, lo: nat)
    requires w.Fits(base, branch) && Aligned(base, branch, w, blocks) && base[w.ahi..] == branch[w.bhi..]
    requires p <= w.alo && q <= w.blo && base[p..w.alo] == branch[q..w.blo] && lo <= w.alo
    ensures Tiles(base, branch, GapEdits(base, branch, w, blocks, source), p, q)
    ensures Separated(GapEdits(base, branch, w, blocks, source), lo, |base|)
    decreases |blocks|
  {
    hide Aligned, Matches, GapEdit, GapEdits, Tiles, Separated;
    FirstGap(base, branch, w, blocks, source);
    if blocks == [] {
      LastGapTiles(base, branch, w, source, p, q, lo);
    } else {
      AlignedUnfold(base, branch, w, blocks);
      var m := blocks[0];
      var next := w.(alo := m.i + m.size, blo := m.j + m.size);
      var rest := GapEdits(base, branch, next, blocks[1..], source);
      GapBefore(base, branch, w, m, source);
      if w.alo == m.i && w.blo == m.j {
        EqualRuns(base, branch, p, w.alo, next.alo, q, w.blo, next.blo);
        GapEditsTile(base, branch, next, blocks[1..], source, p, q, lo);
        assert [] + rest == rest;
      } else {
        GapEditsTile(base, branch, next, blocks[1..], source, m.i, m.j, m.i + 1);
        TilesCons(base, branch, EditOf(branch, Opcode(false, w.alo, m.i, w.blo, m.j), source), rest, p, q, lo);
      }
    }
  }

  lemma GapBefore<L>(base: seq<L>, branch: seq<L>, w: Window, m: Block, source: Source)
    requires w.Fits(base, branch) && Matches(base, branch, w, m)
    ensures w.alo <= m.i && m.i + m.size <= w.ahi <= |base| && w.blo <= m.j && m.j + m.size <= w.bhi <= |branch|
    ensures base[m.i..m.i + m.size] == branch[m.j..m.j + m.size]
    ensures GapEdit(branch, w, m.i, m.j, source) ==
      if w.alo == m.i && w.blo == m.j then [] else [EditOf(branch, Opcode(false, w.alo, m.i, w.blo, m.j), source)]
  {
  }

  lemma LastGapTiles<L>(base: seq<L>, branch: seq<L>, w: Window, source: Source, p: nat, q: nat, lo: nat)
    requires w.Fits(base, branch) && base[w.ahi..] == branch[w.bhi..]
    requires p <= w.alo && q <= w.blo && base[p..w.alo] == branch[q..w.blo] && lo <= w.alo
    ensures Tiles(base, branch, GapEdit(branch, w, w.ahi, w.bhi, source), p, q)
    ensures Separated(GapEdit(branch, w, w.ahi, w.bhi, source), lo, |base|)
  {
    if w.alo == w.ahi && w.blo == w.bhi {
      EqualRuns(base, branch, p, w.alo, |base|, q, w.blo, |branch|);
    } else {
      var head := EditOf(branch, Opcode(false, w.alo, w.ahi, w.blo, w.bhi), source);
      TilesCons(base, branch, head, [], p, q, lo);
      assert [head] + [] == [head];
    }
  }

  lemma EqualRuns<L>(base: seq<L>, branch: seq<L>, p: nat, i: nat, x: nat, q: nat, j: nat, y: nat)
    requires p <= i <= x <= |base| && q <= j <= y <= |branch|
    requires base[p..i] == branch[q..j] && base[i..x] == branch[j..y]
    ensures base[p..x] == branch[q..y]
  {
    assert base[p..x] == base[p..i] + base[i..x];
    assert branch[q..y] == branch[q..j] + branch[j..y];
  }

  lemma TilesCons<L>(base: seq<L>, branch: seq<L>, e: LineEdit<L>, rest: seq<LineEdit<L>>, p: nat, q: nat, lo: nat)
    requires e.mark.From? && p <= e.start <= e.end <= |base| && q <= e.mark.range.start <= e.mark.range.end <= |branch|
    requires base[p..e.start] == branch[q..e.mark.range.start]
    requires e.replacement == branch[e.mark.range.start..e.mark.range.end]
    requires e.start < e.end || e.replacement != []
    requires Tiles(base, branch, rest, e.end, e.mark.range.end) && lo <= e.start && Separated(rest, e.end + 1, |base|)
    ensures Tiles(base, branch, [e] + rest, p, q)
    ensures Separated([e] + rest, lo, |base|)
  {
    assert ([e] + rest)[1..] == rest;
  }

  /** Every script that is produced satisfies its contract. */
  lemma EditScriptTiles<L>(base: seq<L>, branch: seq<L>, source: Source)
    requires EditScript(base, branch, source).Script?
    ensures ScriptFor(base, branch, EditScript(base, branch, source).edits)
  {
    var w := Core(base, branch);
    MarginsEqual(base, branch);
    var blocks := Blocks(base, branch, w);
    BlocksAligned(base, branch, w);
    assert base[0..w.alo] == base[..w.alo] && branch[0..w.blo] == branch[..w.blo];
    OpcodesGiveGapEdits(base, branch, w, blocks, source);
    GapEditsTile(base, branch, w, blocks, source, 0, 0, 0);
  }

  // --- Edits share nothing --------------------------------------------------------------

  lemma {:induction false} GapEditsShareNothing<L>(base: seq<L>, branch: seq<L>, w: Window, blocks: seq<Block>,
                                                   source: Source, e: LineEdit<L>)
    requires w.Fits(base, branch) && Aligned(base, branch, w, blocks) && Exhausted(base, branch, w, blocks)
    requires e in GapEdits(base, branch, w, blocks, source)
    ensures e.mark.From? && 0 <= e.start <= e.end <= |base| && e.mark.range.start <= e.mark.range.end <= |branch|
    ensures forall x, y :: e.start <= x < e.end && e.mark.range.start <= y < e.mark.range.end ==> base[x] != branch[y]
    decreases |blocks|
  {
    if blocks != [] {
      var m := blocks[0];
      var next := w.(alo := m.i + m.size, blo := m.j + m.size);
      if e !in GapEdit(branch, w, m.i, m.j, source) {
        GapEditsShareNothing(base, branch, next, blocks[1..], source, e);
      }
    }
  }

  /** No line that an edit takes out is one that it puts in. */
  lemma EditsShareNothing<L>(base: seq<L>, branch: seq<L>, source: Source, e: LineEdit<L>)
    requires EditScript(base, branch, source).Script? && e in EditScript(base, branch, source).edits
    ensures e.mark.From? && 0 <= e.start <= e.end <= |base| && e.mark.range.start <= e.mark.range.end <= |branch|
    ensures forall x, y :: e.start <= x < e.end && e.mark.range.start <= y < e.mark.range.end ==> base[x] != branch[y]
  {
    var w := Core(base, branch);
    var blocks := Blocks(base, branch, w);
    BlocksExhaust(base, branch, w);
    OpcodesGiveGapEdits(base, branch, w, blocks, source);
    GapEditsShareNothing(base, branch, w, blocks, source, e);
  }

  lemma {:induction false} TilesPatch<L>(base: seq<L>, branch: seq<L>, edits: seq<LineEdit<L>>, i: nat, j: nat)
    requires Tiles(base, branch, edits, i, j) && InOrder(edits, i, |base|)
    ensures Patched(base, i, edits) == branch[j..]
    decreases |edits|
  {
    if edits != [] {
      var e := edits[0];
      var r := e.mark.range;
      TilesPatch(base, branch, edits[1..], e.end, r.end);
      assert branch[j..] == branch[j..r.start] + (branch[r.start..r.end] + branch[r.end..]);
    }
  }

  /** The same script read backwards: the branch intervals are replaced by the base lines. */
  ghost function Inverse<L>(base: seq<L>, edits: seq<LineEdit<L>>): seq<LineEdit<L>>
    requires forall e :: e in edits ==> 0 <= e.start <= e.end <= |base| && e.mark.From?
  {
    if edits == [] then []
    else
      var e := edits[0];
      [Edit(e.mark.range.start, e.mark.range.end, base[e.start..e.end], From(e.mark.source, Range(e.start, e.end)))] +
      Inverse(base, edits[1..])
  }

  lemma {:induction false} TilesBounds<L>(base: seq<L>, branch: seq<L>, edits: seq<LineEdit<L>>, i: nat, j: nat)
    requires Tiles(base, branch, edits, i, j)
    ensures forall e :: e in edits ==> 0 <= e.start <= e.end <= |base| && e.mark.From?
    decreases |edits|
  {
    if edits != [] {
      TilesBounds(base, branch, edits[1..], edits[0].end, edits[0].mark.range.end);
    }
  }

  /** Reading a script backwards gives a script from the branch to the base, separated on that side too. */
  lemma {:induction false} InverseTiles<L>(base: seq<L>, branch: seq<L>, edits: seq<LineEdit<L>>, i: nat, j: nat,
                                           slack: nat)
    requires Tiles(base, branch, edits, i, j) && Separated(edits, i + slack, |base|)
    requires forall e :: e in edits ==> 0 <= e.start <= e.end <= |base| && e.mark.From?
    ensures Tiles(branch, base, Inverse(base, edits), j, i) && Separated(Inverse(base, edits), j + slack, |branch|)
    decreases |edits|
  {
    if edits != [] {
      var e := edits[0];
      var r := e.mark.range;
      assert e.start - i == |base[i..e.start]| == |branch[j..r.start]| == r.start - j;
      InverseTiles(base, branch, edits[1..], e.end, r.end, 1);
      assert e.start < e.end ==> base[e.start..e.end] != [];
    }
  }

  /** Applying a script to the base yields the branch, and applying it backwards through the recorded
      branch ranges yields the base again. */
  lemma ScriptRoundTrip<L>(base: seq<L>, branch: seq<L>, source: Source)
    requires EditScript(base, branch, source).Script?
    ensures var edits := EditScript(base, branch, source).edits;
      && InOrder(edits, 0, |base|) && Patched(base, 0, edits) == branch
      && (forall e :: e in edits ==> 0 <= e.start <= e.end <= |base| && e.mark.From?)
      && InOrder(Inverse(base, edits), 0, |branch|) && Patched(branch, 0, Inverse(base, edits)) == base
  {
    var edits := EditScript(base, branch, source).edits;
    EditScriptTiles(base, branch, source);
    SeparatedIsInOrder(edits, 0, 0, |base|);
    TilesPatch(base, branch, edits, 0, 0);
    TilesBounds(base, branch, edits, 0, 0);
    InverseTiles(base, branch, edits, 0, 0, 0);
    SeparatedIsInOrder(Inverse(base, edits), 0, 0, |branch|);
    TilesPatch(branch, base, Inverse(base, edits), 0, 0);
  }
}
