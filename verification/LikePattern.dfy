/** The LIKE pattern a search builds from the child's query. */
module LikePattern {
  import opened Prelude
  import Text

  /** SQLite's LIKE folds ASCII letters only. */
  predicate SameChar(a: char, b: char) {
    Text.LowerChar(a) == Text.LowerChar(b)
  }

  /** `s LIKE p ESCAPE '\'`: `%` is any run, `_` any character, an escaped character is itself. */
  predicate Like(p: string, s: string)
    decreases |p|
  {
    if p == [] then s == []
    else if p[0] == '%' then exists k: nat | k <= |s| :: Like(p[1..], s[k..])
    else if p[0] == '\\' then |p| > 1 && s != [] && SameChar(p[1], s[0]) && Like(p[2..], s[1..])
    else s != [] && (p[0] == '_' || SameChar(p[0], s[0])) && Like(p[1..], s[1..])
  }

  /** Rust's `str::replace` of a character. */
  function Replace(s: string, c: char, sub: string): string {
    if s == [] then [] else (if s[0] == c then sub else [s[0]]) + Replace(s[1..], c, sub)
  }

  /** The code's escape: three successive replaces, the escape character first. */
  function EscapeLikePattern(q: string): string {
    Replace(Replace(Replace(q, '\\', "\\\\"), '%', "\\%"), '_', "\\_")
  }

  function ChildSearchPattern(q: string): string {
    "%" + EscapeLikePattern(q) + "%"
  }

  // ---------------------------------------------------------------------
  // The replaces are one pass
  // ---------------------------------------------------------------------

  function EscapeChar(c: char): string {
    if c == '\\' || c == '%' || c == '_' then ['\\', c] else [c]
  }

  function EscapeOnePass(q: string): string {
    FlatMap(EscapeChar, q)
  }

  lemma JoinIsAssociative(a: string, b: string, c: string)
    ensures a + (b + c) == (a + b) + c
  {}

  lemma {:induction false} ReplaceJoin(a: string, b: string, c: char, sub: string)
    ensures Replace(a + b, c, sub) == Replace(a, c, sub) + Replace(b, c, sub)
    decreases |a|
  {
    if a == [] {
      assert a + b == b;
    } else {
      ReplaceJoin(a[1..], b, c, sub);
      assert (a + b)[1..] == a[1..] + b;
      var head := if a[0] == c then sub else [a[0]];
      JoinIsAssociative(head, Replace(a[1..], c, sub), Replace(b, c, sub));
    }
  }

  lemma ReplaceShort(x: char, y: char, c: char, sub: string)
    ensures Replace([x], c, sub) == if x == c then sub else [x]
    ensures Replace([x, y], c, sub) == (if x == c then sub else [x]) + (if y == c then sub else [y])
  {
    assert [x][1..] == [] && [x, y][1..] == [y] && [y][1..] == [];
  }

  /** Escaping the escape character first makes the three replaces one pass over the characters. */
  lemma {:induction false} ThreeReplacesAreOnePass(q: string)
    ensures EscapeLikePattern(q) == EscapeOnePass(q)
    decreases |q|
  {
    if q != [] {
      var x, rest := q[0], q[1..];
      ThreeReplacesAreOnePass(rest);
      var first := if x == '\\' then "\\\\" else [x];
      var r1 := Replace(rest, '\\', "\\\\");
      assert Replace(q, '\\', "\\\\") == first + r1;
      ReplaceJoin(first, r1, '%', "\\%");
      var second := Replace(first, '%', "\\%");
      ReplaceJoin(second, Replace(r1, '%', "\\%"), '_', "\\_");
      ReplaceShort(x, x, '%', "\\%");
      ReplaceShort('\\', '\\', '%', "\\%");
      ReplaceShort(x, x, '_', "\\_");
      ReplaceShort('\\', '%', '_', "\\_");
      ReplaceShort('\\', '\\', '_', "\\_");
      assert Replace(second, '_', "\\_") == EscapeChar(x);
    }
  }

  // ---------------------------------------------------------------------
  // The pattern means "contains"
  // ---------------------------------------------------------------------

  /** `s` begins with `q`, up to ASCII case. */
  predicate BeginsWith(s: string, q: string) {
    |q| <= |s| && forall j | 0 <= j < |q| :: SameChar(q[j], s[j])
  }

  lemma LikeAnything(s: string)
    ensures Like("%", s)
  {
    assert s[|s|..] == [];
    assert Like("%"[1..], s[|s|..]);
  }

  /** An escaped query followed by `%` matches exactly what begins with the query. */
  lemma {:induction false} EscapedIsLiteral(q: string, s: string)
    ensures Like(EscapeOnePass(q) + "%", s) <==> BeginsWith(s, q)
    decreases |q|
  {
    if q == [] {
      assert EscapeOnePass(q) + "%" == "%";
      LikeAnything(s);
    } else {
      var p, tail := EscapeOnePass(q) + "%", EscapeOnePass(q[1..]) + "%";
      if q[0] == '\\' || q[0] == '%' || q[0] == '_' {
        assert p == ['\\', q[0]] + tail;
        assert p[2..] == tail;
      } else {
        assert p == [q[0]] + tail;
        assert p[1..] == tail;
      }
      if s != [] {
        EscapedIsLiteral(q[1..], s[1..]);
        BeginsTail(s, q);
      }
    }
  }

  lemma BeginsTail(s: string, q: string)
    requires q != [] && s != []
    ensures BeginsWith(s, q) <==> SameChar(q[0], s[0]) && BeginsWith(s[1..], q[1..])
  {
    if SameChar(q[0], s[0]) && BeginsWith(s[1..], q[1..]) {
      forall j | 0 <= j < |q| ensures SameChar(q[j], s[j]) {
        if j > 0 { assert SameChar(q[1..][j - 1], s[1..][j - 1]); }
      }
    }
    if BeginsWith(s, q) {
      forall j | 0 <= j < |q[1..]| ensures SameChar(q[1..][j], s[1..][j]) {
        assert SameChar(q[j + 1], s[j + 1]);
      }
    }
  }

  lemma BeginsIsSame(s: string, q: string, i: nat)
    requires i <= |s|
    ensures BeginsWith(s[i..], q) <==> Text.SameTextAt(s, q, i)
  {
    forall j | 0 <= j < |q| && i + j < |s| ensures SameChar(q[j], s[i..][j]) <==> Text.SameLetter(s[i + j], q[j]) {
      Text.LettersFold(s[i + j], q[j]);
    }
    if Text.SameTextAt(s, q, i) {
      forall j | 0 <= j < |q| ensures SameChar(q[j], s[i..][j]) { assert Text.SameLetter(s[i..i + |q|][j], q[j]); }
    }
  }

  /** A title matches the search pattern exactly when it contains the query, literally and up to ASCII case. */
  lemma SearchIsContains(q: string, s: string)
    ensures Like(ChildSearchPattern(q), s) <==> Text.OccursUpToCase(s, q)
  {
    ThreeReplacesAreOnePass(q);
    var tail := EscapeOnePass(q) + "%";
    assert ChildSearchPattern(q) == "%" + tail;
    assert ChildSearchPattern(q)[1..] == tail;
    forall k: nat | k <= |s| ensures Like(tail, s[k..]) <==> Text.SameTextAt(s, q, k) {
      EscapedIsLiteral(q, s[k..]);
      BeginsIsSame(s, q, k);
    }
    if i :| Text.SameTextAt(s, q, i) {
      assert Like(tail, s[i..]);
    }
  }

  // ---------------------------------------------------------------------
  // The order of the replaces
  // ---------------------------------------------------------------------

  /** The same three replaces with the escape character last. */
  function EscapeBackslashLast(q: string): string {
    Replace(Replace(Replace(q, '%', "\\%"), '_', "\\_"), '\\', "\\\\")
  }

  function EscapeCharLast(c: char): string {
    if c == '%' || c == '_' then ['\\', '\\', c] else EscapeChar(c)
  }

  predicate HasWildcard(q: string) {
    '%' in q || '_' in q
  }

  function Count(s: string, c: char): nat {
    if s == [] then 0 else (if s[0] == c then 1 else 0) + Count(s[1..], c)
  }

  lemma {:induction false} CountIsPresence(s: string, c: char)
    ensures Count(s, c) > 0 <==> c in s
    decreases |s|
  {
    if s != [] {
      CountIsPresence(s[1..], c);
    }
  }

  lemma {:induction false} LastIsOnePass(q: string)
    ensures EscapeBackslashLast(q) == FlatMap(EscapeCharLast, q)
    decreases |q|
  {
    if q != [] {
      var x, rest := q[0], q[1..];
      LastIsOnePass(rest);
      var first := if x == '%' then "\\%" else [x];
      var r1 := Replace(rest, '%', "\\%");
      assert Replace(q, '%', "\\%") == first + r1;
      ReplaceJoin(first, r1, '_', "\\_");
      var second := Replace(first, '_', "\\_");
      ReplaceJoin(second, Replace(r1, '_', "\\_"), '\\', "\\\\");
      ReplaceShort(x, x, '_', "\\_");
      ReplaceShort('\\', '%', '_', "\\_");
      ReplaceShort(x, x, '\\', "\\\\");
      ReplaceShort('\\', '%', '\\', "\\\\");
      ReplaceShort('\\', '_', '\\', "\\\\");
      assert Replace(second, '\\', "\\\\") == EscapeCharLast(x);
    }
  }

  /** Every wildcard costs the wrong order one more character. */
  lemma {:induction false} LastIsLonger(q: string)
    ensures |FlatMap(EscapeCharLast, q)| == |EscapeOnePass(q)| + Count(q, '%') + Count(q, '_')
    ensures !HasWildcard(q) ==> FlatMap(EscapeCharLast, q) == EscapeOnePass(q)
    decreases |q|
  {
    if q != [] {
      LastIsLonger(q[1..]);
      assert q[0] in q && (HasWildcard(q[1..]) ==> HasWildcard(q));
    }
  }

  /** A title that matches the wrong pattern has a backslash for every backslash and every wildcard of the query. */
  lemma {:induction false} MatchNeedsBackslashes(q: string, s: string)
    requires Like(FlatMap(EscapeCharLast, q) + "%", s)
    ensures Count(s, '\\') >= Count(q, '\\') + Count(q, '%') + Count(q, '_')
    decreases |q|
  {
    if q != [] {
      var c, tail := q[0], FlatMap(EscapeCharLast, q[1..]) + "%";
      var p := FlatMap(EscapeCharLast, q) + "%";
      assert p == EscapeCharLast(c) + tail;
      if c == '\\' {
        assert p[2..] == tail;
        MatchNeedsBackslashes(q[1..], s[1..]);
      } else if c == '%' {
        assert p[2..] == ['%'] + tail && (['%'] + tail)[1..] == tail;
        var k: nat :| k <= |s[1..]| && Like(tail, s[1..][k..]);
        MatchNeedsBackslashes(q[1..], s[1..][k..]);
        CountOfSuffix(s[1..], '\\', k);
      } else if c == '_' {
        assert p[2..] == ['_'] + tail && (['_'] + tail)[1..] == tail;
        MatchNeedsBackslashes(q[1..], s[1..][1..]);
        CountOfSuffix(s[1..], '\\', 1);
      } else {
        assert p[1..] == tail;
        MatchNeedsBackslashes(q[1..], s[1..]);
      }
    }
  }

  lemma {:induction false} CountOfSuffix(s: string, c: char, k: nat)
    requires k <= |s|
    ensures Count(s[k..], c) <= Count(s, c)
    decreases k
  {
    if k > 0 {
      CountOfSuffix(s[1..], c, k - 1);
      assert s[1..][k - 1..] == s[k..];
    }
  }

  /**
   * Escaping the backslash last gives another pattern exactly when the query
   * holds a wildcard, and then the query does not even find itself.
   */
  lemma EscapeOrderMatters(q: string)
    ensures EscapeBackslashLast(q) == EscapeLikePattern(q) <==> !HasWildcard(q)
    ensures Like("%" + (EscapeBackslashLast(q) + "%"), q) <==> !HasWildcard(q)
  {
    ThreeReplacesAreOnePass(q);
    LastIsOnePass(q);
    LastIsLonger(q);
    CountIsPresence(q, '%');
    CountIsPresence(q, '_');
    var tail := EscapeBackslashLast(q) + "%";
    assert ("%" + tail)[1..] == tail;
    if HasWildcard(q) {
      forall k: nat | k <= |q| ensures !Like(tail, q[k..]) {
        if Like(tail, q[k..]) {
          MatchNeedsBackslashes(q, q[k..]);
          CountOfSuffix(q, '\\', k);
          assert false;
        }
      }
    } else {
      assert "%" + tail == ChildSearchPattern(q);
      SearchIsContains(q, q);
      assert q[0..0 + |q|] == q && Text.SameTextAt(q, q, 0);
    }
  }
}
