/**
 * The positional line-diff estimator `Document.calculate_diff`: both texts are
 * cut into lines and compared index by index, with no alignment.
 */
module LineDiff {
  import opened Options
  import opened Text

  /**
   * The separator the estimator cuts on. The source writes the Python literal
   * `'\\n'`: a backslash followed by the letter n, not a newline character.
   */
  const LineSeparator: string := ['\\', 'n']

  /** `(text or '').split('\\n')`: an absent text counts as the empty text. */
  function Lines(text: Option<string>): (r: seq<string>)
    ensures |r| >= 1
  {
    Split(text.GetOr(""), LineSeparator)
  }

  datatype Diff = Diff(added: nat, removed: nat, modified: nat, totalLines: nat)

  function Max(a: int, b: int): int { if a >= b then a else b }
  function Min(a: int, b: int): int { if a <= b then a else b }

  /** The number of indices below `k` at which the two line sequences differ. */
  function ModifiedCount(o: seq<string>, n: seq<string>, k: nat): (c: nat)
    requires k <= |o| && k <= |n|
    ensures c <= k
  {
    if k == 0 then 0
    else ModifiedCount(o, n, k - 1) + (if o[k - 1] != n[k - 1] then 1 else 0)
  }

  /**
   * What the estimator computes: the lines past the end of the old text are
   * added, the lines past the end of the new text are removed, the lines at a
   * common index that differ are modified, and the total is the new line count.
   */
  function Estimate(oldText: Option<string>, newText: Option<string>): Diff {
    var o, n := Lines(oldText), Lines(newText);
    Diff(Max(0, |n| - |o|), Max(0, |o| - |n|), ModifiedCount(o, n, Min(|o|, |n|)), |n|)
  }

  /** `calculate_diff`: one pass over the indices below the longer line count. */
  method CalculateDiff(oldText: Option<string>, newText: Option<string>) returns (d: Diff)
    ensures d == Estimate(oldText, newText)
  {
    var oldLines := Lines(oldText);
    var newLines := Lines(newText);
    var added: nat, removed: nat, modified: nat := 0, 0, 0;
    var maxLen := Max(|oldLines|, |newLines|);
    for i := 0 to maxLen
      invariant added == Max(0, i - |oldLines|)
      invariant removed == Max(0, Min(i, |oldLines|) - |newLines|)
      invariant modified == ModifiedCount(oldLines, newLines, Min(i, Min(|oldLines|, |newLines|)))
    {
      if i >= |oldLines| {
        added := added + 1;
      } else if i >= |newLines| {
        removed := removed + 1;
      } else if oldLines[i] != newLines[i] {
        modified := modified + 1;
      }
    }
    d := Diff(added, removed, modified, |newLines|);
  }

  // ---------------------------------------------------------------- lemmas

  lemma {:induction false} ModifiedCountOfSelf(o: seq<string>, k: nat)
    requires k <= |o|
    ensures ModifiedCount(o, o, k) == 0
  {
    if k > 0 {
      ModifiedCountOfSelf(o, k - 1);
    }
  }

  /** No modified line below `k` exactly when the first `k` lines agree. */
  lemma {:induction false} ModifiedCountZero(o: seq<string>, n: seq<string>, k: nat)
    requires k <= |o| && k <= |n|
    ensures ModifiedCount(o, n, k) == 0 <==> o[..k] == n[..k]
  {
    if k > 0 {
      ModifiedCountZero(o, n, k - 1);
      assert o[..k] == o[..k - 1] + [o[k - 1]];
      assert n[..k] == n[..k - 1] + [n[k - 1]];
      if o[..k] == n[..k] {
        assert o[..k - 1] == o[..k][..k - 1];
        assert n[..k - 1] == n[..k][..k - 1];
        assert o[k - 1] == o[..k][k - 1];
      }
    }
  }

  /**
   * The shape of every estimate: lines are either added or removed, never
   * both; at most the common lines are modified; the total is the number of
   * pieces of the new text.
   */
  lemma EstimateShape(a: Option<string>, b: Option<string>)
    ensures var d := Estimate(a, b);
      && (d.added == 0 || d.removed == 0)
      && d.added - d.removed == |Lines(b)| - |Lines(a)|
      && d.modified <= Min(|Lines(a)|, |Lines(b)|)
      && d.totalLines == |Split(b.GetOr(""), LineSeparator)|
  {
  }

  /** A text compared with itself has no added, removed or modified line. */
  lemma EstimateOfSelf(a: Option<string>)
    ensures Estimate(a, a) == Diff(0, 0, 0, |Lines(a)|)
  {
    ModifiedCountOfSelf(Lines(a), |Lines(a)|);
  }

  /** An estimate reports no change exactly when the two texts have the same lines. */
  lemma EstimateNoChange(a: Option<string>, b: Option<string>)
    ensures var d := Estimate(a, b);
      d.added == 0 && d.removed == 0 && d.modified == 0 <==> Lines(a) == Lines(b)
  {
    var o, n := Lines(a), Lines(b);
    ModifiedCountZero(o, n, Min(|o|, |n|));
    if |o| == |n| {
      assert o[..|o|] == o && n[..|n|] == n;
    }
  }

  /** The lines of a text joined back with the separator give the text. */
  lemma LinesRejoin(text: Option<string>)
    ensures Join(Lines(text), LineSeparator) == text.GetOr("")
  {
    JoinSplit(text.GetOr(""), LineSeparator);
  }

  /** Text without a backslash, real newline characters included, is a single line. */
  lemma NoBackslashIsOneLine(t: string)
    requires '\\' !in t
    ensures Lines(Some(t)) == [t]
  {
    SplitFromNoSeparator(t, LineSeparator, []);
    assert [] + t == t;
  }

  /**
   * Against the empty text (one empty line) every line past the first is
   * added, nothing is removed, and the first line counts as modified unless
   * it is empty too.
   */
  lemma EstimateFromEmpty(b: Option<string>)
    ensures var d := Estimate(Some(""), b);
      && d.added == |Lines(b)| - 1 && d.removed == 0
      && d.modified == (if Lines(b)[0] == "" then 0 else 1)
      && d.totalLines == |Lines(b)|
  {
    NoBackslashIsOneLine("");
  }
}
