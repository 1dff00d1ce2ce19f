/** Longest-common-block matching without junk, as `difflib.SequenceMatcher(None, a, b, autojunk=False)`
    documents it, and the opcodes it yields. Windows `[alo, ahi)` and `[blo, bhi)` stand for the slices
    that the caller passes. */
module Matching {
  /** `a[i..i + size] == b[j..j + size]`. */
  datatype Block = Block(i: nat, j: nat, size: nat)

  datatype Window = Window(alo: nat, ahi: nat, blo: nat, bhi: nat) {
    ghost predicate Fits<T>(a: seq<T>, b: seq<T>) {
      alo <= ahi <= |a| && blo <= bhi <= |b|
    }

    predicate Inside(m: Block) {
      alo <= m.i && m.i + m.size <= ahi && blo <= m.j && m.j + m.size <= bhi
    }
  }

  ghost predicate Matches<T>(a: seq<T>, b: seq<T>, w: Window, m: Block)
    requires w.Fits(a, b)
  {
    w.Inside(m) && a[m.i..m.i + m.size] == b[m.j..m.j + m.size]
  }

  /** The length of the common run starting at `i` and `j`. */
  function RunLength<T(==)>(a: seq<T>, b: seq<T>, w: Window, i: nat, j: nat): (n: nat)
    requires w.Fits(a, b) && w.alo <= i <= w.ahi && w.blo <= j <= w.bhi
    ensures Matches(a, b, w, Block(i, j, n))
    decreases w.ahi - i
  {
    if i < w.ahi && j < w.bhi && a[i] == b[j] then
      var rest := RunLength(a, b, w, i + 1, j + 1);
      assert a[i..i + 1 + rest] == [a[i]] + a[i + 1..i + 1 + rest];
      assert b[j..j + 1 + rest] == [b[j]] + b[j + 1..j + 1 + rest];
      1 + rest
    else 0
  }

  lemma {:induction false} RunLengthIsMaximal<T>(a: seq<T>, b: seq<T>, w: Window, m: Block)
    requires w.Fits(a, b) && Matches(a, b, w, m)
    ensures m.size <= RunLength(a, b, w, m.i, m.j)
    decreases m.size
  {
    if m.size > 0 {
      assert a[m.i] == a[m.i..m.i + m.size][0] == b[m.j..m.j + m.size][0] == b[m.j];
      assert a[m.i + 1..m.i + m.size] == a[m.i..m.i + m.size][1..];
      assert b[m.j + 1..m.j + m.size] == b[m.j..m.j + m.size][1..];
      RunLengthIsMaximal(a, b, w, Block(m.i + 1, m.j + 1, m.size - 1));
    }
  }

  /** Scan the remaining starting points in order, keeping the first of the longest runs. */
  function BestFrom<T(==)>(a: seq<T>, b: seq<T>, w: Window, i: nat, j: nat, best: Block): (m: Block)
    requires w.Fits(a, b) && w.alo <= i <= w.ahi && w.blo <= j <= w.bhi
    requires Matches(a, b, w, best)
    ensures Matches(a, b, w, m) && m.size >= best.size
    decreases w.ahi - i, w.bhi - j
  {
    if i == w.ahi then best
    else if j == w.bhi then BestFrom(a, b, w, i + 1, w.blo, best)
    else
      var n := RunLength(a, b, w, i, j);
      BestFrom(a, b, w, i, j + 1, if n > best.size then Block(i, j, n) else best)
  }

  function LongestMatch<T(==)>(a: seq<T>, b: seq<T>, w: Window): (m: Block)
    requires w.Fits(a, b)
    ensures Matches(a, b, w, m)
  {
    BestFrom(a, b, w, w.alo, w.blo, Block(w.alo, w.blo, 0))
  }

  /** Starting point `(i, j)` comes no later than that of `m` in the scan. */
  predicate NotAfter(i: nat, j: nat, m: Block) {
    i < m.i || (i == m.i && j <= m.j)
  }

  /** The scan from `(i, j)` on keeps `best` or replaces it by a longer run that it meets later. */
  lemma {:induction false} BestFromImproves<T>(a: seq<T>, b: seq<T>, w: Window, i: nat, j: nat, best: Block)
    requires w.Fits(a, b) && w.alo <= i <= w.ahi && w.blo <= j <= w.bhi && Matches(a, b, w, best)
    ensures var m := BestFrom(a, b, w, i, j, best); m == best || (m.size > best.size && NotAfter(i, j, m))
    decreases w.ahi - i, w.bhi - j
  {
    hide RunLength, Matches;
    if i == w.ahi {
    } else if j == w.bhi {
      BestFromImproves(a, b, w, i + 1, w.blo, best);
    } else {
      var n := RunLength(a, b, w, i, j);
      BestFromImproves(a, b, w, i, j + 1, if n > best.size then Block(i, j, n) else best);
    }
  }

  /** No run that starts at `(i, j)` or later beats the outcome of the scan. */
  lemma {:induction false} BestFromIsBest<T>(a: seq<T>, b: seq<T>, w: Window, i: nat, j: nat, best: Block, other: Block)
    requires w.Fits(a, b) && w.alo <= i <= w.ahi && w.blo <= j <= w.bhi && Matches(a, b, w, best)
    requires Matches(a, b, w, other) && other.size > 0 && NotAfter(i, j, other)
    ensures var m := BestFrom(a, b, w, i, j, best);
            other.size < m.size || (other.size == m.size && (m == best || NotAfter(m.i, m.j, other)))
    decreases w.ahi - i, w.bhi - j
  {
    assert w.Inside(other);
    var m := BestFrom(a, b, w, i, j, best);
    if j == w.bhi {
      assert m == BestFrom(a, b, w, i + 1, w.blo, best);
      hide *;
      BestFromIsBest(a, b, w, i + 1, w.blo, best, other);
    } else {
      var n := RunLength(a, b, w, i, j);
      var next := if n > best.size then Block(i, j, n) else best;
      assert m == BestFrom(a, b, w, i, j + 1, next);
      if other.i == i && other.j == j {
        RunLengthIsMaximal(a, b, w, other);
        BestFromImproves(a, b, w, i, j + 1, next);
      } else {
        hide BestFrom, RunLength, Matches;
        BestFromIsBest(a, b, w, i, j + 1, next, other);
      }
    }
  }

  /** The documented choice: no common block of the window is longer, and equal ones start no earlier. */
  lemma LongestMatchIsPreferred<T>(a: seq<T>, b: seq<T>, w: Window, other: Block)
    requires w.Fits(a, b) && Matches(a, b, w, other) && other.size > 0
    ensures var m := LongestMatch(a, b, w);
            other.size < m.size || (other.size == m.size && NotAfter(m.i, m.j, other))
  {
    BestFromIsBest(a, b, w, w.alo, w.blo, Block(w.alo, w.blo, 0), other);
  }

  /** Matching blocks: the longest one, with the blocks found on its left and on its right. */
  function Blocks<T(==)>(a: seq<T>, b: seq<T>, w: Window): seq<Block>
    requires w.Fits(a, b)
    decreases w.ahi - w.alo
  {
    var m := LongestMatch(a, b, w);
    if m.size == 0 then []
    else Blocks(a, b, w.(ahi := m.i, bhi := m.j)) + ([m] + Blocks(a, b, w.(alo := m.i + m.size, blo := m.j + m.size)))
  }

  /** Non-empty equal blocks, in order on both sides. */
  ghost predicate Aligned<T>(a: seq<T>, b: seq<T>, w: Window, blocks: seq<Block>)
    requires w.Fits(a, b)
    decreases |blocks|
  {
    blocks == [] ||
    (var m := blocks[0];
     m.size > 0 && Matches(a, b, w, m) && Aligned(a, b, w.(alo := m.i + m.size, blo := m.j + m.size), blocks[1..]))
  }

  lemma {:induction false} BlocksAligned<T>(a: seq<T>, b: seq<T>, w: Window)
    requires w.Fits(a, b)
    ensures Aligned(a, b, w, Blocks(a, b, w))
    decreases w.ahi - w.alo
  {
    hide *;
    BlocksUnfold(a, b, w);
    var m := LongestMatch(a, b, w);
    if m.size > 0 {
      var left, right := w.(ahi := m.i, bhi := m.j), w.(alo := m.i + m.size, blo := m.j + m.size);
      BlocksAligned(a, b, left);
      BlocksAligned(a, b, right);
      AlignedConcat(a, b, w, m, Blocks(a, b, left), Blocks(a, b, right));
    }
  }

  lemma BlocksUnfold<T>(a: seq<T>, b: seq<T>, w: Window)
    requires w.Fits(a, b)
    ensures var m := LongestMatch(a, b, w);
      if m.size == 0 then Aligned(a, b, w, Blocks(a, b, w))
      else
        var left, right := w.(ahi := m.i, bhi := m.j), w.(alo := m.i + m.size, blo := m.j + m.size);
        && Matches(a, b, w, m) && left.Fits(a, b) && right.Fits(a, b)
        && 0 <= left.ahi - left.alo < w.ahi - w.alo && 0 <= right.ahi - right.alo < w.ahi - w.alo
        && Blocks(a, b, w) == Blocks(a, b, left) + ([m] + Blocks(a, b, right))
  {
    hide LongestMatch;
  }

  lemma AlignedUnfold<T>(a: seq<T>, b: seq<T>, w: Window, blocks: seq<Block>)
    requires w.Fits(a, b) && blocks != [] && Aligned(a, b, w, blocks)
    ensures blocks[0].size > 0 && Matches(a, b, w, blocks[0])
    ensures var w' := w.(alo := blocks[0].i + blocks[0].size, blo := blocks[0].j + blocks[0].size);
      w'.Fits(a, b) && Aligned(a, b, w', blocks[1..])
  {
  }

  lemma SubwindowsFit<T>(a: seq<T>, b: seq<T>, w: Window, m: Block)
    requires w.Fits(a, b) && Matches(a, b, w, m)
    ensures w.(ahi := m.i, bhi := m.j).Fits(a, b) && w.(alo := m.i + m.size, blo := m.j + m.size).Fits(a, b)
  {
  }

  lemma AlignedHead<T>(a: seq<T>, b: seq<T>, w: Window, h: Block, m: Block)
    requires w.Fits(a, b) && Matches(a, b, w, m) && h.size > 0
    requires Matches(a, b, w.(ahi := m.i, bhi := m.j), h)
    ensures var w' := w.(alo := h.i + h.size, blo := h.j + h.size);
      w'.Fits(a, b) && Matches(a, b, w, h) && Matches(a, b, w', m)
  {
  }

  lemma {:induction false} AlignedConcat<T>(a: seq<T>, b: seq<T>, w: Window, m: Block, left: seq<Block>,
                                            right: seq<Block>)
    requires w.Fits(a, b) && m.size > 0 && Matches(a, b, w, m)
    requires Aligned(a, b, w.(ahi := m.i, bhi := m.j), left)
    requires Aligned(a, b, w.(alo := m.i + m.size, blo := m.j + m.size), right)
    ensures Aligned(a, b, w, left + ([m] + right))
    decreases |left|
  {
    hide *;
    SubwindowsFit(a, b, w, m);
    if left == [] {
      assert left + ([m] + right) == [m] + right;
      AlignedCons(a, b, w, m, right);
    } else {
      var h := left[0];
      AlignedUnfold(a, b, w.(ahi := m.i, bhi := m.j), left);
      AlignedHead(a, b, w, h, m);
      AlignedConcat(a, b, w.(alo := h.i + h.size, blo := h.j + h.size), m, left[1..], right);
      AlignedCons(a, b, w, h, left[1..] + ([m] + right));
      assert left + ([m] + right) == [h] + (left[1..] + ([m] + right));
    }
  }

  lemma AlignedCons<T>(a: seq<T>, b: seq<T>, w: Window, h: Block, rest: seq<Block>)
    requires w.Fits(a, b) && h.size > 0 && Matches(a, b, w, h)
    requires Aligned(a, b, w.(alo := h.i + h.size, blo := h.j + h.size), rest)
    ensures Aligned(a, b, w, [h] + rest)
  {
    hide Matches;
    assert ([h] + rest)[1..] == rest;
  }

  // --- The matching leaves nothing out --------------------------------------------------

  /** No element of one side of the window equals one of the other side. */
  ghost predicate NothingCommon<T>(a: seq<T>, b: seq<T>, w: Window)
    requires w.Fits(a, b)
  {
    forall i, j :: w.alo <= i < w.ahi && w.blo <= j < w.bhi ==> a[i] != b[j]
  }

  lemma NoMatchLeft<T>(a: seq<T>, b: seq<T>, w: Window)
    requires w.Fits(a, b) && LongestMatch(a, b, w).size == 0
    ensures NothingCommon(a, b, w)
  {
    hide LongestMatch;
    forall i, j | w.alo <= i < w.ahi && w.blo <= j < w.bhi ensures a[i] != b[j] {
      if a[i] == b[j] {
        assert a[i..i + 1] == [a[i]] && b[j..j + 1] == [b[j]];
        LongestMatchIsPreferred(a, b, w, Block(i, j, 1));
        assert false;
      }
    }
  }

  /** The stretches between the blocks share nothing. */
  ghost predicate Exhausted<T>(a: seq<T>, b: seq<T>, w: Window, blocks: seq<Block>)
    requires w.Fits(a, b) && Aligned(a, b, w, blocks)
    decreases |blocks|
  {
    if blocks == [] then NothingCommon(a, b, w)
    else
      var m := blocks[0];
      && NothingCommon(a, b, w.(ahi := m.i, bhi := m.j))
      && Exhausted(a, b, w.(alo := m.i + m.size, blo := m.j + m.size), blocks[1..])
  }

  lemma {:induction false} ExhaustedConcat<T>(a: seq<T>, b: seq<T>, w: Window, m: Block, left: seq<Block>,
                                              right: seq<Block>)
    requires w.Fits(a, b) && m.size > 0 && Matches(a, b, w, m)
    requires Aligned(a, b, w.(ahi := m.i, bhi := m.j), left) && Exhausted(a, b, w.(ahi := m.i, bhi := m.j), left)
    requires Aligned(a, b, w.(alo := m.i + m.size, blo := m.j + m.size), right)
    requires Exhausted(a, b, w.(alo := m.i + m.size, blo := m.j + m.size), right)
    ensures Aligned(a, b, w, left + ([m] + right)) && Exhausted(a, b, w, left + ([m] + right))
    decreases |left|
  {
    hide *;
    AlignedConcat(a, b, w, m, left, right);
    SubwindowsFit(a, b, w, m);
    if left == [] {
      ExhaustedEmpty(a, b, w.(ahi := m.i, bhi := m.j));
      assert left + ([m] + right) == [m] + right;
      ExhaustedCons(a, b, w, m, right);
    } else {
      var h := left[0];
      AlignedUnfold(a, b, w.(ahi := m.i, bhi := m.j), left);
      ExhaustedUnfold(a, b, w.(ahi := m.i, bhi := m.j), left);
      AlignedHead(a, b, w, h, m);
      ExhaustedConcat(a, b, w.(alo := h.i + h.size, blo := h.j + h.size), m, left[1..], right);
      assert left + ([m] + right) == [h] + (left[1..] + ([m] + right));
      ExhaustedCons(a, b, w, h, left[1..] + ([m] + right));
    }
  }

  lemma ExhaustedEmpty<T>(a: seq<T>, b: seq<T>, w: Window)
    requires w.Fits(a, b) && Aligned(a, b, w, []) && Exhausted(a, b, w, [])
    ensures NothingCommon(a, b, w)
  {
  }

  lemma ExhaustedCons<T>(a: seq<T>, b: seq<T>, w: Window, h: Block, rest: seq<Block>)
    requires w.Fits(a, b) && Matches(a, b, w, h) && Aligned(a, b, w, [h] + rest)
    requires w.(ahi := h.i, bhi := h.j).Fits(a, b) && NothingCommon(a, b, w.(ahi := h.i, bhi := h.j))
    requires var w' := w.(alo := h.i + h.size, blo := h.j + h.size);
      w'.Fits(a, b) && Aligned(a, b, w', rest) && Exhausted(a, b, w', rest)
    ensures Exhausted(a, b, w, [h] + rest)
  {
    hide NothingCommon, Matches, Aligned;
    assert ([h] + rest)[0] == h && ([h] + rest)[1..] == rest;
  }

  lemma ExhaustedUnfold<T>(a: seq<T>, b: seq<T>, w: Window, blocks: seq<Block>)
    requires w.Fits(a, b) && blocks != [] && Aligned(a, b, w, blocks) && Exhausted(a, b, w, blocks)
    ensures var m := blocks[0]; var w' := w.(alo := m.i + m.size, blo := m.j + m.size);
      && w.(ahi := m.i, bhi := m.j).Fits(a, b) && NothingCommon(a, b, w.(ahi := m.i, bhi := m.j))
      && w'.Fits(a, b) && Aligned(a, b, w', blocks[1..]) && Exhausted(a, b, w', blocks[1..])
  {
    hide NothingCommon;
  }

  /** The recursion goes on until nothing is left to match: two equal elements never stand in the same gap. */
  lemma {:induction false} BlocksExhaust<T>(a: seq<T>, b: seq<T>, w: Window)
    requires w.Fits(a, b)
    ensures Aligned(a, b, w, Blocks(a, b, w)) && Exhausted(a, b, w, Blocks(a, b, w))
    decreases w.ahi - w.alo
  {
    hide LongestMatch, NothingCommon, Aligned;
    BlocksAligned(a, b, w);
    BlocksUnfold(a, b, w);
    var m := LongestMatch(a, b, w);
    if m.size == 0 {
      NoMatchLeft(a, b, w);
    } else {
      var left, right := w.(ahi := m.i, bhi := m.j), w.(alo := m.i + m.size, blo := m.j + m.size);
      BlocksExhaust(a, b, left);
      BlocksExhaust(a, b, right);
      ExhaustedConcat(a, b, w, m, Blocks(a, b, left), Blocks(a, b, right));
    }
  }

  /** The longest common run of the window is one of the blocks. */
  lemma LongestIsBlock<T>(a: seq<T>, b: seq<T>, w: Window)
    requires w.Fits(a, b) && LongestMatch(a, b, w).size > 0
    ensures LongestMatch(a, b, w) in Blocks(a, b, w)
  {
    hide LongestMatch;
  }

  /** One opcode: `a[i..ai]` against `b[j..bj]`. */
  datatype Opcode = Opcode(equal: bool, i: nat, ai: nat, j: nat, bj: nat)

  function Gap(i: nat, ai: nat, j: nat, bj: nat): seq<Opcode> {
    if i < ai || j < bj then [Opcode(false, i, ai, j, bj)] else []
  }

  function Opcodes(blocks: seq<Block>, w: Window): seq<Opcode>
    decreases |blocks|
  {
    if blocks == [] then Gap(w.alo, w.ahi, w.blo, w.bhi)
    else
      var m := blocks[0];
      Gap(w.alo, m.i, w.blo, m.j) + [Opcode(true, m.i, m.i + m.size, m.j, m.j + m.size)] +
      Opcodes(blocks[1..], w.(alo := m.i + m.size, blo := m.j + m.size))
  }
}
