/** Exactly which texts the relative-time parser reads, and what it makes of them. */
module RelativeLanguage {
  import opened Prelude
  import opened Text
  import opened RelativeTime

  /** White space is the 25 code points with Unicode's White_Space property. */
  lemma WhiteExactly(c: char)
    ensures IsWhite(c) <==> c as int in {9, 10, 11, 12, 13, 32, 133, 160, 5760, 8192, 8193, 8194, 8195, 8196, 8197,
                                         8198, 8199, 8200, 8201, 8202, 8232, 8233, 8239, 8287, 12288}
  {}

  // ---------------------------------------------------------------------
  // Counts
  // ---------------------------------------------------------------------

  /** A non-empty string of digits with that value, within 32 bits. */
  ghost predicate AreDigits(s: string, n: nat) {
    s != [] && All(IsDigit, s) && Value(s) == n && n < 4_294_967_296
  }

  /** The token is a number, with at most a plus sign before its digits. */
  ghost predicate IsNumber(tok: string, n: nat) {
    AreDigits(tok, n) || (tok != [] && tok[0] == '+' && AreDigits(tok[1..], n))
  }

  ghost predicate SaysCount(tok: string, n: nat) {
    || ((tok == "a" || tok == "an") && n == 1)
    || (tok == "few" && n == 3)
    || (tok == "couple" && n == 2)
    || IsNumber(tok, n)
  }

  lemma NumberExactly(tok: string, n: nat)
    ensures ParseU32(tok) == Some(n) <==> IsNumber(tok, n)
  {
    var digits := if tok != [] && tok[0] == '+' then tok[1..] else tok;
    RunIsAll(IsDigit, digits);
    if AreDigits(tok, n) { assert IsDigit(tok[0]); }
  }

  lemma WordIsNoNumber(tok: string, n: nat)
    requires tok != [] && !IsDigit(tok[0]) && tok[0] != '+'
    ensures !IsNumber(tok, n)
  {}

  lemma CountExactly(tok: string, n: nat)
    ensures CountOf(tok) == Some(n) <==> SaysCount(tok, n)
  {
    NumberExactly(tok, n);
    if tok == "a" || tok == "an" || tok == "few" || tok == "couple" {
      WordIsNoNumber(tok, n);
    }
  }

  // ---------------------------------------------------------------------
  // Units
  // ---------------------------------------------------------------------

  /** The token is the unit's name and any number of letters s. */
  ghost predicate SaysUnit(tok: string, u: Unit) {
    u.Name() <= tok && All(IsLetterS, tok[|u.Name()|..])
  }

  lemma {:induction false} TrimmedIsPrefix(p: char -> bool, s: string)
    ensures All(p, s[|TrimEnd(p, s)|..])
    decreases |s|
  {
    if s != [] && p(s[|s| - 1]) {
      var init := s[..|s| - 1];
      TrimmedIsPrefix(p, init);
      var k := |TrimEnd(p, s)|;
      forall i | 0 <= i < |s| - k ensures p(s[k..][i]) {
        if i < |s| - 1 - k { assert init[k..][i] == s[k..][i]; }
      }
    }
  }

  lemma NameEnds(u: Unit)
    ensures u.Name() != [] && !IsLetterS(u.Name()[|u.Name()| - 1])
  {}

  lemma NameIsOfUnit(name: string, u: Unit)
    ensures UnitOfName(name) == Some(u) <==> name == u.Name()
  {}

  lemma UnitExactly(tok: string, u: Unit)
    ensures UnitOfName(TrimEnd(IsLetterS, tok)) == Some(u) <==> SaysUnit(tok, u)
  {
    var name := u.Name();
    NameIsOfUnit(TrimEnd(IsLetterS, tok), u);
    TrimmedIsPrefix(IsLetterS, tok);
    if SaysUnit(tok, u) {
      NameEnds(u);
      TrimEndStops(IsLetterS, name, tok[|name|..]);
      assert tok == name + tok[|name|..];
    }
  }

  // ---------------------------------------------------------------------
  // Shapes
  // ---------------------------------------------------------------------

  /** The token is digits with the unit's suffix glued on. */
  ghost predicate IsCompact(tok: string, n: nat, u: Unit) {
    |tok| > |u.Suffix()| && tok[|tok| - |u.Suffix()|..] == u.Suffix() && AreDigits(tok[..|tok| - |u.Suffix()|], n)
  }

  /** The tokens say `n` of the unit, in one of the five shapes. */
  ghost predicate Says(toks: seq<string>, n: nat, u: Unit) {
    || (|toks| == 1 && IsCompact(toks[0], n, u))
    || (|toks| == 2 && SaysCount(toks[0], n) && SaysUnit(toks[1], u))
    || (|toks| == 3 && toks[0] == "a" && toks[1] == "few" && n == 3 && SaysUnit(toks[2], u))
    || (|toks| == 3 && toks[0] == "a" && toks[1] == "couple" && n == 2 && SaysUnit(toks[2], u))
    || (|toks| == 4 && toks[0] == "a" && toks[1] == "couple" && toks[2] == "of" && n == 2 && SaysUnit(toks[3], u))
  }

  /** Count and unit tokens that say so. */
  ghost predicate PairSays(pair: Option<(string, string)>, n: nat, u: Unit) {
    pair.Some? && SaysCount(pair.value.0, n) && SaysUnit(pair.value.1, u)
  }

  lemma PluralSays(u: Unit, other: Unit)
    ensures SaysUnit(other.Name() + "s", u) <==> u == other
  {
    var tok := other.Name() + "s";
    UnitExactly(tok, u);
    UnitIsRead(other, true);
  }

  lemma SuffixIsOfUnit(suffix: string)
    ensures LongForm(suffix).None? ==> forall u: Unit :: suffix != u.Suffix()
    ensures LongForm(suffix).Some? ==> exists u: Unit :: suffix == u.Suffix()
  {
    if suffix == "s" { assert suffix == Second.Suffix(); }
    if suffix == "m" { assert suffix == Minute.Suffix(); }
    if suffix == "h" { assert suffix == Hour.Suffix(); }
    if suffix == "d" { assert suffix == Day.Suffix(); }
    if suffix == "w" { assert suffix == Week.Suffix(); }
    if suffix == "mo" { assert suffix == Month.Suffix(); }
    if suffix == "y" { assert suffix == Year.Suffix(); }
  }

  lemma SuffixesDiffer(u: Unit, other: Unit)
    ensures u.Suffix() == other.Suffix() <==> u == other
  {}

  lemma DigitsCount(digits: string, n: nat)
    requires digits != [] && All(IsDigit, digits)
    ensures SaysCount(digits, n) <==> AreDigits(digits, n)
  {
    assert IsDigit(digits[0]);
    assert digits != "a" && digits != "an" && digits != "few" && digits != "couple";
  }

  /** A glued token splits where its digits end. */
  lemma CompactSplits(tok: string, n: nat, u: Unit)
    requires IsCompact(tok, n, u)
    ensures PairSays(SplitCompactToken(tok), n, u)
  {
    var k := |tok| - |u.Suffix()|;
    LongFormOf(u);
    RunStops(IsDigit, tok[..k], tok[k..]);
    assert tok == tok[..k] + tok[k..];
    DigitsCount(tok[..k], n);
    PluralSays(u, u);
  }

  lemma SplitIsCompact(tok: string, n: nat, u: Unit)
    requires PairSays(SplitCompactToken(tok), n, u)
    ensures IsCompact(tok, n, u)
  {
    var k := Run(IsDigit, tok);
    RunPrefix(IsDigit, tok);
    SuffixIsOfUnit(tok[k..]);
    var v: Unit :| tok[k..] == v.Suffix();
    LongFormOf(v);
    PluralSays(u, v);
    DigitsCount(tok[..k], n);
  }

  lemma {:induction false} RunPrefix(p: char -> bool, s: string)
    ensures All(p, s[..Run(p, s)])
    decreases |s|
  {
    if s != [] && p(s[0]) {
      RunPrefix(p, s[1..]);
      var n := Run(p, s);
      forall i | 0 <= i < n ensures p(s[..n][i]) {
        if i > 0 { assert s[1..][..n - 1][i - 1] == s[..n][i]; }
      }
    }
  }

  lemma WordCounts(n: nat)
    ensures SaysCount("few", n) <==> n == 3
    ensures SaysCount("couple", n) <==> n == 2
  {
    WordIsNoNumber("few", n);
    WordIsNoNumber("couple", n);
  }

  lemma ShapesExactly(toks: seq<string>, n: nat, u: Unit)
    ensures PairSays(CountAndUnit(toks), n, u) <==> Says(toks, n, u)
  {
    WordCounts(n);
    if |toks| == 1 {
      if IsCompact(toks[0], n, u) { CompactSplits(toks[0], n, u); }
      if PairSays(SplitCompactToken(toks[0]), n, u) { SplitIsCompact(toks[0], n, u); }
    }
  }

  // ---------------------------------------------------------------------
  // The whole
  // ---------------------------------------------------------------------

  lemma PairOffset(toks: seq<string>, n: nat, u: Unit)
    requires PairSays(CountAndUnit(toks), n, u)
    ensures Offset(toks) == Some(n * u.Seconds())
  {
    var (count, unit) := CountAndUnit(toks).value;
    CountExactly(count, n);
    UnitExactly(unit, u);
    NoSaturation(n, u);
  }

  lemma OffsetPair(toks: seq<string>) returns (n: nat, u: Unit)
    requires Offset(toks).Some?
    ensures PairSays(CountAndUnit(toks), n, u)
  {
    var (count, unit) := CountAndUnit(toks).value;
    n, u := CountOf(count).value, UnitOfName(TrimEnd(IsLetterS, unit)).value;
    CountExactly(count, n);
    UnitExactly(unit, u);
  }

  /** The tokens say a number of a unit that makes `x` seconds. */
  ghost predicate SaysSeconds(toks: seq<string>, x: int) {
    exists n: nat, u: Unit :: Says(toks, n, u) && x == n * u.Seconds()
  }

  lemma OffsetExactly(toks: seq<string>, x: nat)
    ensures Offset(toks) == Some(x) <==> SaysSeconds(toks, x)
  {
    if Offset(toks) == Some(x) {
      var n, u := OffsetPair(toks);
      ShapesExactly(toks, n, u);
      PairOffset(toks, n, u);
    }
    if SaysSeconds(toks, x) {
      var n: nat, u: Unit :| Says(toks, n, u) && x == n * u.Seconds();
      ShapesExactly(toks, n, u);
      PairOffset(toks, n, u);
    }
  }

  lemma AnswerExactly(body: string, offset: Option<nat>, now: Time, t: Time)
    requires !IsShorthand(body)
    ensures Answer(body, offset, now) == Some(t) <==> t >= 0 && t <= now && offset == Some(now - t)
  {}

  lemma ParseBodyIs(body: string, now: Time)
    ensures ParseBody(body, now) == Answer(body, Offset(Words(body)), now)
  {}

  lemma BodyExactly(body: string, now: Time, t: Time)
    requires !IsShorthand(body)
    ensures ParseBody(body, now) == Some(t) <==> t >= 0 && t <= now && SaysSeconds(Words(body), now - t)
  {
    var toks := Words(body);
    var offset := Offset(toks);
    ParseBodyIs(body, now);
    AnswerExactly(body, offset, now, t);
    if t <= now { OffsetExactly(toks, now - t); }
  }

  /**
   * A text parses to `t` exactly when, with white space, lead-in and "ago" gone
   * and letters folded, it is one of the words for now or yesterday and `t` is
   * that, or its words say a number of a unit that leads from `now` back to `t`,
   * which is not before the epoch.
   */
  lemma ParsesExactly(raw: string, now: Time, t: Time)
    ensures Parse(raw, now) == Some(t) <==>
      if IsShorthand(Body(raw)) then t == if Body(raw) == "yesterday" then Max(now - 24 * 3600, I64_MIN) else now
      else t >= 0 && t <= now && SaysSeconds(Words(Body(raw)), now - t)
  {
    ParseIsOfBody(raw, Body(raw), now);
    if IsShorthand(Body(raw)) {
      ShorthandAnswers(Body(raw), now);
    } else {
      BodyExactly(Body(raw), now, t);
    }
  }
}
