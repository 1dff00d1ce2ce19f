/** The last revision of a draft: enough saves lead to a head that no further revision can follow, and the
    refusal then reads as corruption. */
module DraftLimit {
  import opened Wrappers
  import M = Membership
  import opened Drafts
  import opened DraftHistory

  // --- Operation identifiers ------------------------------------------------------------

  function Power16(count: nat): nat {
    if count == 0 then 1 else 16 * Power16(count - 1)
  }

  function HexDigit(d: nat): char
    requires d < 16
  {
    "0123456789abcdef"[d]
  }

  /** The last `count` hexadecimal digits of `n`. */
  function Hex(n: nat, count: nat): string {
    if count == 0 then [] else Hex(n / 16, count - 1) + [HexDigit(n % 16)]
  }

  lemma {:induction false} HexDigits(n: nat, count: nat)
    ensures |Hex(n, count)| == count
    ensures forall k :: 0 <= k < count ==> '0' <= Hex(n, count)[k] <= '9' || 'a' <= Hex(n, count)[k] <= 'f'
  {
    if count > 0 {
      HexDigits(n / 16, count - 1);
    }
  }

  lemma {:induction false} HexUnique(n: nat, m: nat, count: nat)
    requires n < Power16(count) && m < Power16(count) && Hex(n, count) == Hex(m, count)
    ensures n == m
  {
    if count > 0 {
      LastDigit(n, count);
      LastDigit(m, count);
      HexUnique(n / 16, m / 16, count - 1);
    }
  }

  lemma LastDigit(n: nat, count: nat)
    requires count > 0
    ensures Hex(n, count)[..|Hex(n, count)| - 1] == Hex(n / 16, count - 1)
    ensures Hex(n, count)[|Hex(n, count)| - 1] == HexDigit(n % 16)
  {
  }

  /** The operation identifier with the number `n`. */
  function Numbered(n: nat): string {
    HexDigits(n, 16);
    var h := Hex(n, 16);
    "00000000-0000-0000-" + h[..4] + "-" + h[4..]
  }

  lemma NumberedIsCanonical(n: nat)
    ensures M.CanonicalUuid(Numbered(n))
  {
    HexDigits(n, 16);
    hide Hex;
  }

  lemma NumberedUnique(n: nat, m: nat)
    requires n < MAX_REVISION && m < MAX_REVISION && Numbered(n) == Numbered(m)
    ensures n == m
  {
    HexDigits(n, 16);
    HexDigits(m, 16);
    Power16Values();
    hide HexDigit, Hex, Power16;
    assert Numbered(n)[19..23] == Hex(n, 16)[..4] && Numbered(m)[19..23] == Hex(m, 16)[..4];
    assert Numbered(n)[24..] == Hex(n, 16)[4..] && Numbered(m)[24..] == Hex(m, 16)[4..];
    assert Hex(n, 16) == Hex(n, 16)[..4] + Hex(n, 16)[4..] && Hex(m, 16) == Hex(m, 16)[..4] + Hex(m, 16)[4..];
    HexUnique(n, m, 16);
  }

  lemma Power16Values()
    ensures Power16(16) == 0x1_0000_0000_0000_0000
  {
    assert Power16(4) == 0x1_0000;
    assert Power16(8) == 0x1_0000_0000;
    assert Power16(12) == 0x1_0000_0000_0000;
  }

  // --- One save after another -----------------------------------------------------------

  /** The same save, as the operation that writes revision `n + 1`. */
  function At(c: Command, n: nat): Command {
    c.(expected := n, operation := Numbered(n))
  }

  /** The receipt of the save that writes revision `n + 1` is within its size limit. */
  predicate SaveFits(rules: Rules, c: Command, n: nat) {
    var q := RequestFor(Saved, c.actor, c.draft, n, c.title, rules.digest(c.proposal));
    rules.fits(q, ResultFor(Numbered(n), c.recorded, q, c.title, rules.digest(c.proposal), c.proposal.source))
  }

  /** A save that the given rules accept, at every revision. */
  ghost predicate Savable(rules: Rules, s: State, c: Command) {
    && c.allowed && c.action == Saved && rules.validTitle(c.title) && M.CanonicalUuid(c.draft)
    && LayerKnown(s, c) && forall n: nat :: n < MAX_REVISION ==> SaveFits(rules, c, n)
  }

  function Saves(c: Command, n: nat): seq<Step> {
    if n == 0 then [] else Saves(c, n - 1) + [Attempt(At(c, n - 1))]
  }

  /** After `n` saves: the draft is active at head `n`, and only the first `n` operations are known. */
  ghost predicate SavedTimes(rules: Rules, s: State, c: Command, n: nat) {
    && History(rules, s) && Savable(rules, s, c) && NoCollision(rules, s, c)
    && (n == 0 <==> c.draft !in s.heads)
    && (n > 0 ==> s.heads[c.draft] == n && HeadOutcome(rules, s, c.draft).value.status == Active
                  && HeadOutcome(rules, s, c.draft).value.source == c.proposal.source)
    && forall op :: op in s.receipts ==> exists k: nat :: k < n && op == Numbered(k)
  }

  /** The rows of a successful save. */
  lemma SaveWrites(rules: Rules, s: State, c: Command)
    requires c.action == Saved && c.operation !in s.receipts && Committed(rules, s, c).0.Ok?
    ensures WellFormed(rules, c)
    ensures var (r, t) := Committed(rules, s, c);
      var q := RequestOf(rules, c);
      var o := ResultFor(c.operation, c.recorded, q, c.title, rules.digest(c.proposal), c.proposal.source);
      && r == Ok(o) && t == Insert(s.(proposals := s.proposals[rules.digest(c.proposal) := c.proposal]), q, o)
      && Readable(rules, t, Key(c.draft, c.expected + 1)) && OutcomeAt(rules, t, Key(c.draft, c.expected + 1)) == o
  {
    hide M.CanonicalUuid, IsHead;
  }

  lemma SaveFollows(rules: Rules, s: State, c: Command, n: nat)
    requires SavedTimes(rules, s, c, n) && n < MAX_REVISION
    ensures WellFormed(rules, At(c, n)) && At(c, n).operation !in s.receipts && Acceptable(rules, s, At(c, n))
    ensures NoCollision(rules, s, At(c, n))
  {
    hide History, M.CanonicalUuid, Numbered;
    NumberedIsCanonical(n);
    assert SaveFits(rules, c, n);
    if Numbered(n) in s.receipts {
      var k: nat :| k < n && Numbered(n) == Numbered(k);
      NumberedUnique(n, k);
      assert false;
    }
  }

  lemma SavedOnce(rules: Rules, s: State, c: Command, n: nat)
    requires SavedTimes(rules, s, c, n) && n + 1 < MAX_REVISION
    ensures SavedTimes(rules, Committed(rules, s, At(c, n)).1, c, n + 1)
  {
    hide History, M.CanonicalUuid, Numbered, Committed, Acceptable, FindOperation, Readable, OutcomeAt, HeadOutcome;
    var next := At(c, n);
    SaveFollows(rules, s, c, n);
    CommittedExactly(rules, s, next);
    CommitKeepsHistory(rules, s, next);
    SaveWrites(rules, s, next);
    var t := Committed(rules, s, next).1;
    HeadOutcomeIs(rules, t, c.draft);
    forall op | op in t.receipts ensures exists k: nat :: k < n + 1 && op == Numbered(k) {
      if op == Numbered(n) {
        assert n < n + 1 && op == Numbered(n);
      } else {
        assert op in s.receipts;
        var k: nat :| k < n && op == Numbered(k);
        assert k < n + 1 && op == Numbered(k);
      }
    }
  }

  lemma HeadOutcomeIs(rules: Rules, s: State, draft: string)
    requires History(rules, s) && draft in s.heads && Readable(rules, s, Key(draft, s.heads[draft]))
    ensures HeadOutcome(rules, s, draft) == Some(OutcomeAt(rules, s, Key(draft, s.heads[draft])))
  {
    hide History, Readable, OutcomeAt;
  }

  lemma {:induction false} RunAppended(rules: Rules, s: State, steps: seq<Step>, last: Step)
    ensures Run(rules, s, steps + [last]) == After(rules, Run(rules, s, steps), last)
    decreases |steps|
  {
    hide After;
    if steps == [] {
      assert [last][1..] == [];
    } else {
      assert (steps + [last])[1..] == steps[1..] + [last];
      RunAppended(rules, After(rules, s, steps[0]), steps[1..], last);
    }
  }

  lemma {:induction false} SavesLead(rules: Rules, layers: map<string, set<string>>, c: Command, n: nat)
    requires Savable(rules, Empty(layers), c) && n < MAX_REVISION
    ensures SavedTimes(rules, Run(rules, Empty(layers), Saves(c, n)), c, n)
  {
    if n == 0 {
      EmptyHistory(rules, layers);
    } else {
      SavesLead(rules, layers, c, n - 1);
      var s := Run(rules, Empty(layers), Saves(c, n - 1));
      hide SavedTimes, Committed, Run, At;
      SavedOnce(rules, s, c, n - 1);
      RunAppended(rules, Empty(layers), Saves(c, n - 1), Attempt(At(c, n - 1)));
    }
  }

  // --- The limit ------------------------------------------------------------------------

  /** At the last possible head every acceptable attempt is refused as corruption, and changes nothing. */
  lemma LastRevisionRefused(rules: Rules, s: State, c: Command)
    requires History(rules, s) && c.allowed && WellFormed(rules, c) && c.operation !in s.receipts
    requires c.draft in s.heads && s.heads[c.draft] == MAX_REVISION - 1 && Acceptable(rules, s, c)
    ensures Committed(rules, s, c) == (Err(Corrupt), s)
  {
    CommittedExactly(rules, s, c);
    CommitKeepsHistory(rules, s, c);
    hide History, WellFormed, Committed;
  }

  /** Saving alone leads there: the save after the last one is refused as corruption. */
  lemma LimitIsReached(rules: Rules, layers: map<string, set<string>>, c: Command)
    requires Savable(rules, Empty(layers), c)
    ensures var s := Run(rules, Empty(layers), Saves(c, MAX_REVISION - 1));
      && History(rules, s) && c.draft in s.heads && s.heads[c.draft] == MAX_REVISION - 1
      && Committed(rules, s, At(c, MAX_REVISION - 1)) == (Err(Corrupt), s)
  {
    var last := MAX_REVISION - 1;
    SavesLead(rules, layers, c, last);
    var s := Run(rules, Empty(layers), Saves(c, last));
    hide History, Committed, Run, Saves, Numbered, Acceptable;
    SaveFollows(rules, s, c, last);
    LastRevisionRefused(rules, s, At(c, last));
  }
}
