/** The string tests the services use: ASCII case folding, prefixes and substrings. */
module Text {

  function LowerChar(c: char): char {
    if 'A' <= c <= 'Z' then c + 32 as char else c
  }

  function Lower(s: string): (r: string)
    ensures |r| == |s|
  {
    seq(|s|, i requires 0 <= i < |s| => LowerChar(s[i]))
  }

  predicate StartsWith(s: string, t: string) {
    |t| <= |s| && s[..|t|] == t
  }

  predicate EndsWith(s: string, t: string) {
    |t| <= |s| && s[|s| - |t|..] == t
  }

  /** `t` occurs in `s` at index `i`. */
  predicate OccursAt(s: string, t: string, i: int) {
    0 <= i <= |s| - |t| && s[i..i + |t|] == t
  }

  predicate Contains(s: string, t: string) {
    exists i | 0 <= i <= |s| :: OccursAt(s, t, i)
  }

  /** `is_not_found_error`: the wordings taken as proof that a channel is gone. */
  predicate IsNotFoundError(err: string) {
    var lower := Lower(err);
    || Contains(lower, "channel does not exist")
    || Contains(lower, "this channel was terminated")
    || Contains(lower, "http error 404")
    || Contains(lower, " 404 ")
    || Contains(lower, "status 404")
    || Contains(lower, "returned 404")
  }

  // ---------------------------------------------------------------------
  // The same text up to ASCII case
  // ---------------------------------------------------------------------

  predicate IsUpper(c: char) {
    65 <= c as int <= 90
  }

  /** Equal, or one the ASCII capital of the other. */
  predicate SameLetter(a: char, b: char) {
    a == b || (IsUpper(a) && b as int == a as int + 32) || (IsUpper(b) && a as int == b as int + 32)
  }

  ghost predicate SameText(s: string, t: string) {
    |s| == |t| && forall i {:trigger SameLetter(s[i], t[i])} | 0 <= i < |s| :: SameLetter(s[i], t[i])
  }

  ghost predicate SameTextAt(s: string, t: string, i: int) {
    0 <= i <= |s| - |t| && SameText(s[i..i + |t|], t)
  }

  ghost predicate OccursUpToCase(s: string, t: string) {
    exists i :: SameTextAt(s, t, i)
  }

  lemma LettersFold(a: char, b: char)
    ensures LowerChar(a) == LowerChar(b) <==> SameLetter(a, b)
  {}

  /** Folding decides sameness up to case. */
  lemma FoldDecides(s: string, t: string)
    ensures Lower(s) == Lower(t) <==> SameText(s, t)
  {
    if Lower(s) == Lower(t) {
      forall i | 0 <= i < |s| ensures SameLetter(s[i], t[i]) {
        assert Lower(s)[i] == Lower(t)[i];
        LettersFold(s[i], t[i]);
      }
    }
    if SameText(s, t) {
      forall i | 0 <= i < |s| ensures Lower(s)[i] == Lower(t)[i] {
        assert SameLetter(s[i], t[i]);
        LettersFold(s[i], t[i]);
      }
    }
  }

  lemma FoldedOccursAt(s: string, t: string, i: int)
    ensures OccursAt(Lower(s), Lower(t), i) <==> SameTextAt(s, t, i)
  {
    if 0 <= i <= |s| - |t| {
      assert Lower(s)[i..i + |t|] == Lower(s[i..i + |t|]);
      FoldDecides(s[i..i + |t|], t);
    }
  }

  /** Folding both and looking for one in the other finds it exactly where it occurs up to case. */
  lemma FoldedContains(s: string, t: string)
    ensures Contains(Lower(s), Lower(t)) <==> OccursUpToCase(s, t)
  {
    if i :| 0 <= i <= |Lower(s)| && OccursAt(Lower(s), Lower(t), i) {
      FoldedOccursAt(s, t, i);
    }
    if i :| SameTextAt(s, t, i) {
      FoldedOccursAt(s, t, i);
    }
  }

  ghost predicate NoUpper(s: string) {
    forall i | 0 <= i < |s| :: !IsUpper(s[i])
  }

  lemma LowerIsItself(s: string)
    requires NoUpper(s)
    ensures Lower(s) == s
  {
    forall i | 0 <= i < |s| ensures Lower(s)[i] == s[i] { LettersFold(Lower(s)[i], s[i]); }
  }

  /** The message holds one of the six wordings, in any letter case. */
  ghost predicate ReportsGone(err: string) {
    || OccursUpToCase(err, "channel does not exist")
    || OccursUpToCase(err, "this channel was terminated")
    || OccursUpToCase(err, "http error 404")
    || OccursUpToCase(err, " 404 ")
    || OccursUpToCase(err, "status 404")
    || OccursUpToCase(err, "returned 404")
  }

  lemma WordingFolds(err: string, w: string)
    requires NoUpper(w)
    ensures Contains(Lower(err), w) <==> OccursUpToCase(err, w)
  {
    LowerIsItself(w);
    FoldedContains(err, w);
  }

  /** The classification is exactly the presence of a wording, in any letter case. */
  lemma NotFoundExactly(err: string)
    ensures IsNotFoundError(err) <==> ReportsGone(err)
  {
    WordingFolds(err, "channel does not exist");
    WordingFolds(err, "this channel was terminated");
    WordingFolds(err, "http error 404");
    WordingFolds(err, " 404 ");
    WordingFolds(err, "status 404");
    WordingFolds(err, "returned 404");
  }
}
