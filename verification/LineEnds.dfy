/** Line ends in bytes or characters: a CR that no LF follows, an LF that no CR precedes, and the two together. */
module LineEnds {
  /** A CR that no LF follows. */
  ghost predicate Lone<T>(s: seq<T>, cr: T, lf: T) {
    exists k :: 0 <= k < |s| && s[k] == cr && !(k + 1 < |s| && s[k + 1] == lf)
  }

  /** An LF that no CR precedes. */
  ghost predicate Bare<T>(s: seq<T>, cr: T, lf: T) {
    exists k :: 0 <= k < |s| && s[k] == lf && !(k > 0 && s[k - 1] == cr)
  }

  /** A CR with an LF behind it. */
  ghost predicate Pair<T>(s: seq<T>, cr: T, lf: T) {
    exists k :: 0 <= k < |s| - 1 && s[k] == cr && s[k + 1] == lf
  }

  lemma LoneInFront<T>(s: seq<T>, cr: T, lf: T)
    requires s != [] && !(|s| > 1 && s[0] == cr && s[1] == lf)
    ensures Lone(s, cr, lf) <==> s[0] == cr || Lone(s[1..], cr, lf)
  {
    var rest := s[1..];
    if k :| 0 <= k < |rest| && rest[k] == cr && !(k + 1 < |rest| && rest[k + 1] == lf) {
      assert s[k + 1] == cr && !(k + 2 < |s| && s[k + 2] == lf);
    }
    if k :| 0 <= k < |s| && s[k] == cr && !(k + 1 < |s| && s[k + 1] == lf) {
      assert k > 0 ==> rest[k - 1] == cr && !(k < |rest| && rest[k] == lf);
    }
  }

  lemma BareInFront<T>(s: seq<T>, cr: T, lf: T)
    requires s != [] && !(|s| > 1 && s[0] == cr && s[1] == lf)
    ensures Bare(s, cr, lf) <==> s[0] == lf || Bare(s[1..], cr, lf)
  {
    var rest := s[1..];
    if k :| 0 <= k < |rest| && rest[k] == lf && !(k > 0 && rest[k - 1] == cr) {
      assert s[k + 1] == lf && !(k + 1 > 0 && s[k] == cr);
    }
    if k :| 0 <= k < |s| && s[k] == lf && !(k > 0 && s[k - 1] == cr) {
      assert k > 0 ==> rest[k - 1] == lf && !(k > 1 && rest[k - 2] == cr);
    }
  }

  lemma PairInFront<T>(s: seq<T>, cr: T, lf: T)
    requires s != [] && !(|s| > 1 && s[0] == cr && s[1] == lf)
    ensures Pair(s, cr, lf) <==> Pair(s[1..], cr, lf)
  {
    var rest := s[1..];
    if k :| 0 <= k < |rest| - 1 && rest[k] == cr && rest[k + 1] == lf {
      assert s[k + 1] == cr && s[k + 2] == lf;
    }
    if k :| 0 <= k < |s| - 1 && s[k] == cr && s[k + 1] == lf {
      assert k > 0 && rest[k - 1] == cr && rest[k] == lf;
    }
  }

  /** Behind a pair everything is as it was. */
  lemma AfterPair<T>(s: seq<T>, cr: T, lf: T)
    requires cr != lf && |s| > 1 && s[0] == cr && s[1] == lf
    ensures Pair(s, cr, lf)
    ensures Lone(s, cr, lf) <==> Lone(s[2..], cr, lf)
    ensures Bare(s, cr, lf) <==> Bare(s[2..], cr, lf)
  {
    var rest := s[2..];
    if k :| 0 <= k < |rest| && rest[k] == cr && !(k + 1 < |rest| && rest[k + 1] == lf) {
      assert s[k + 2] == cr && !(k + 3 < |s| && s[k + 3] == lf);
    }
    if k :| 0 <= k < |rest| && rest[k] == lf && !(k > 0 && rest[k - 1] == cr) {
      assert s[k + 2] == lf && !(k + 2 > 0 && s[k + 1] == cr);
    }
    if k :| 0 <= k < |s| && s[k] == cr && !(k + 1 < |s| && s[k + 1] == lf) {
      assert rest[k - 2] == cr && !(k - 1 < |rest| && rest[k - 1] == lf);
    }
    if k :| 0 <= k < |s| && s[k] == lf && !(k > 0 && s[k - 1] == cr) {
      assert rest[k - 2] == lf && !(k > 2 && rest[k - 3] == cr);
    }
  }
}
