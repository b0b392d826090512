/** The parser for relative upload times such as "3 days ago" or "Streamed 2mo ago". */
module RelativeTime {
  import opened Prelude
  import opened Text

  const I64_MIN := -0x8000_0000_0000_0000
  const I64_MAX := 0x7fff_ffff_ffff_ffff
  const U32_END := 0x1_0000_0000

  type Time = t: int | I64_MIN <= t <= I64_MAX

  // ---------------------------------------------------------------------
  // The string operations of the parser
  // ---------------------------------------------------------------------

  /** Unicode's White_Space property. */
  predicate IsWhite(c: char) {
    || '\U{9}' <= c <= '\U{D}' || c == ' ' || c == '\U{85}' || c == '\U{A0}' || c == '\U{1680}'
    || '\U{2000}' <= c <= '\U{200A}' || c == '\U{2028}' || c == '\U{2029}' || c == '\U{202F}'
    || c == '\U{205F}' || c == '\U{3000}'
  }

  predicate IsInk(c: char) {
    !IsWhite(c)
  }

  predicate IsDigit(c: char) {
    '0' <= c <= '9'
  }

  predicate IsLetterS(c: char) {
    c == 's'
  }

  ghost predicate All(p: char -> bool, s: string) {
    forall i | 0 <= i < |s| :: p(s[i])
  }

  /** The length of the longest prefix in which every character satisfies `p`. */
  function Run(p: char -> bool, s: string): (n: nat)
    ensures n <= |s| && (n < |s| ==> !p(s[n]))
  {
    if s == [] || !p(s[0]) then 0 else Run(p, s[1..]) + 1
  }

  /** `s` without its trailing characters that satisfy `p`. */
  function TrimEnd(p: char -> bool, s: string): (r: string)
    ensures r <= s && (r == [] || !p(r[|r| - 1]))
  {
    if s == [] || !p(s[|s| - 1]) then s else TrimEnd(p, s[..|s| - 1])
  }

  function Trim(s: string): string {
    TrimEnd(IsWhite, SkipWhite(s))
  }

  function StripPrefix(s: string, p: string): Option<string> {
    if StartsWith(s, p) then Some(s[|p|..]) else None
  }

  function StripSuffix(s: string, p: string): Option<string> {
    if EndsWith(s, p) then Some(s[..|s| - |p|]) else None
  }

  function SkipWhite(s: string): (t: string)
    ensures |t| <= |s| && (t == [] || IsInk(t[0]))
  {
    s[Run(IsWhite, s)..]
  }

  /** The length of the word `t` starts with. */
  function WordLength(t: string): (n: nat)
    requires t != [] && IsInk(t[0])
    ensures 0 < n <= |t|
  {
    Run(IsInk, t)
  }

  /** `split_whitespace`. */
  function Words(s: string): seq<string>
    decreases |s|
  {
    var t := SkipWhite(s);
    if t == [] then [] else [t[..WordLength(t)]] + Words(t[WordLength(t)..])
  }

  function DigitValue(c: char): nat
    requires IsDigit(c)
  {
    c as int - '0' as int
  }

  /** The value of a digit string. */
  function Value(s: string): nat
    requires All(IsDigit, s)
  {
    if s == [] then 0 else Value(s[..|s| - 1]) * 10 + DigitValue(s[|s| - 1])
  }

  /** `str::parse::<u32>`: digits with an optional plus sign, within 32 bits. */
  function ParseU32(s: string): (r: Option<nat>)
    ensures r.Some? ==> r.value < U32_END
  {
    var digits := if s != [] && s[0] == '+' then s[1..] else s;
    if digits == [] || Run(IsDigit, digits) < |digits| then None
    else
      RunIsAll(IsDigit, digits);
      if Value(digits) < U32_END then Some(Value(digits)) else None
  }

  // ---------------------------------------------------------------------
  // The parser
  // ---------------------------------------------------------------------

  datatype Unit = Second | Minute | Hour | Day | Week | Month | Year {

    function Seconds(): (s: nat)
      ensures 0 < s <= 365 * 86400
    {
      match this
      case Second => 1
      case Minute => 60
      case Hour => 3600
      case Day => 86400
      case Week => 7 * 86400
      case Month => 30 * 86400
      case Year => 365 * 86400
    }

    function Name(): string {
      match this
      case Second => "second"
      case Minute => "minute"
      case Hour => "hour"
      case Day => "day"
      case Week => "week"
      case Month => "month"
      case Year => "year"
    }

    function Suffix(): string {
      match this
      case Second => "s"
      case Minute => "m"
      case Hour => "h"
      case Day => "d"
      case Week => "w"
      case Month => "mo"
      case Year => "y"
    }
  }

  function UnitOfName(name: string): Option<Unit> {
    if name == "second" then Some(Second)
    else if name == "minute" then Some(Minute)
    else if name == "hour" then Some(Hour)
    else if name == "day" then Some(Day)
    else if name == "week" then Some(Week)
    else if name == "month" then Some(Month)
    else if name == "year" then Some(Year)
    else None
  }

  /** The long form a compact suffix stands for. */
  function LongForm(suffix: string): Option<string> {
    if suffix == "s" then Some("seconds")
    else if suffix == "m" then Some("minutes")
    else if suffix == "h" then Some("hours")
    else if suffix == "d" then Some("days")
    else if suffix == "w" then Some("weeks")
    else if suffix == "mo" then Some("months")
    else if suffix == "y" then Some("years")
    else None
  }

  /** `split_compact_token`: "3d" is "3" and "days". */
  function SplitCompactToken(token: string): Option<(string, string)> {
    var n := Run(IsDigit, token);
    if n == 0 || n == |token| then None
    else
      match LongForm(token[n..])
      case None => None
      case Some(unit) => Some((token[..n], unit))
  }

  /** The accepted token shapes, as a count token and a unit token. */
  function CountAndUnit(toks: seq<string>): Option<(string, string)> {
    if |toks| == 1 then SplitCompactToken(toks[0])
    else if |toks| == 2 then Some((toks[0], toks[1]))
    else if |toks| == 3 && toks[0] == "a" && toks[1] == "few" then Some(("few", toks[2]))
    else if |toks| == 3 && toks[0] == "a" && toks[1] == "couple" then Some(("couple", toks[2]))
    else if |toks| == 4 && toks[0] == "a" && toks[1] == "couple" && toks[2] == "of" then Some(("couple", toks[3]))
    else None
  }

  function CountOf(tok: string): Option<nat> {
    if tok == "a" || tok == "an" then Some(1)
    else if tok == "few" then Some(3)
    else if tok == "couple" then Some(2)
    else ParseU32(tok)
  }

  function StripLead(lower: string): string {
    StripPrefix(lower, "streamed live ")
      .OrElse(StripPrefix(lower, "streamed "))
      .OrElse(StripPrefix(lower, "premiered "))
      .GetOr(lower)
  }

  function DropAgo(s: string): string {
    Trim(StripSuffix(s, " ago").GetOr(s))
  }

  function Body(raw: string): string {
    DropAgo(StripLead(Lower(Trim(raw))))
  }

  function SaturatingMul(a: nat, b: nat): nat {
    Min(a * b, I64_MAX)
  }

  /** The seconds a tokenised body stands for. */
  function Offset(toks: seq<string>): Option<nat> {
    match CountAndUnit(toks)
    case None => None
    case Some((count, unit)) =>
      match CountOf(count)
      case None => None
      case Some(n) =>
        match UnitOfName(TrimEnd(IsLetterS, unit))
        case None => None
        case Some(u) => Some(SaturatingMul(n, u.Seconds()))
  }

  predicate MeansNow(body: string) {
    body == "just now" || body == "moments" || body == "a moment"
  }

  /** That many seconds before now, unless that is before the epoch. */
  function Before(now: Time, offset: Option<nat>): Option<Time> {
    match offset
    case None => None
    case Some(offset) => if offset > now then None else Some(now - offset)
  }

  /** The answer for a body and the seconds its tokens stand for. */
  function Answer(body: string, offset: Option<nat>, now: Time): Option<Time> {
    if MeansNow(body) then Some(now)
    else if body == "yesterday" then Some(Max(now - 86400, I64_MIN))
    else Before(now, offset)
  }

  function ParseBody(body: string, now: Time): Option<Time> {
    Answer(body, Offset(Words(body)), now)
  }

  /** `parse_relative_to_unix`. */
  function Parse(raw: string, now: Time): Option<Time> {
    ParseBody(Body(raw), now)
  }

  // ---------------------------------------------------------------------
  // The phrases the parser is for
  // ---------------------------------------------------------------------

  datatype Count = Number(n: nat) | Article(an: bool) | Few | Couple(with: bool)

  datatype Phrase = Long(count: Count, unit: Unit, plural: bool) | Compact(n: nat, unit: Unit) {

    ghost predicate Fits() {
      if Compact? then n < U32_END else count.Number? ==> count.n < U32_END
    }

    function Number(): nat {
      if Compact? then n
      else match count
        case Number(n) => n
        case Article(_) => 1
        case Few => 3
        case Couple(_) => 2
    }

    /** How many seconds ago the phrase says. */
    function Age(): nat {
      Number() * unit.Seconds()
    }

    function UnitWord(): string {
      if Compact? || plural then unit.Name() + "s" else unit.Name()
    }

    /** The words the phrase is written in. */
    function Tokens(): seq<string> {
      if Compact? then [Decimal(n) + unit.Suffix()]
      else
        var name := UnitWord();
        match count
        case Number(n) => [Decimal(n), name]
        case Article(an) => [if an then "an" else "a", name]
        case Few => ["a", "few", name]
        case Couple(with) => if with then ["a", "couple", "of", name] else ["a", "couple", name]
    }
  }

  function Digit(d: nat): (c: char)
    requires d < 10
    ensures IsDigit(c) && DigitValue(c) == d
  {
    ('0' as int + d) as char
  }

  /** Decimal notation. */
  function Decimal(n: nat): (s: string)
    ensures s != [] && All(IsDigit, s)
  {
    if n < 10 then [Digit(n)] else Decimal(n / 10) + [Digit(n % 10)]
  }

  datatype Lead = Plain | Streamed | StreamedLive | Premiered {
    function Text(): string {
      match this
      case Plain => ""
      case Streamed => "streamed "
      case StreamedLive => "streamed live "
      case Premiered => "premiered "
    }
  }

  function Tail(ago: bool): string {
    if ago then " ago" else ""
  }

  /** A relative time as the site prints it, in lower case, with or without its "ago". */
  function Print(lead: Lead, phrase: Phrase, ago: bool): string {
    lead.Text() + Join(' ', phrase.Tokens()) + Tail(ago)
  }

  // ---------------------------------------------------------------------
  // Strings
  // ---------------------------------------------------------------------

  lemma {:induction false} RunIsAll(p: char -> bool, s: string)
    ensures Run(p, s) == |s| <==> All(p, s)
    decreases |s|
  {
    if s != [] {
      RunIsAll(p, s[1..]);
      if p(s[0]) && All(p, s[1..]) {
        forall i | 0 <= i < |s| ensures p(s[i]) {
          if i > 0 {
            assert s[i] == s[1..][i - 1];
          }
        }
      }
    }
  }

  lemma {:induction false} RunStops(p: char -> bool, a: string, b: string)
    requires All(p, a) && (b == [] || !p(b[0]))
    ensures Run(p, a + b) == |a|
    decreases |a|
  {
    if a == [] {
      assert a + b == b;
    } else {
      RunStops(p, a[1..], b);
      assert (a + b)[1..] == a[1..] + b;
    }
  }

  lemma {:induction false} TrimEndStops(p: char -> bool, a: string, b: string)
    requires All(p, b) && (a == [] || !p(a[|a| - 1]))
    ensures TrimEnd(p, a + b) == a
    decreases |b|
  {
    if b == [] {
      assert a + b == a;
    } else {
      TrimEndStops(p, a, b[..|b| - 1]);
      assert (a + b)[..|a + b| - 1] == a + b[..|b| - 1];
    }
  }

  /** White space around a text that starts and ends in ink is trimmed, and nothing else. */
  lemma TrimPadded(before: string, s: string, after: string)
    requires All(IsWhite, before) && All(IsWhite, after)
    requires s != [] && IsInk(s[0]) && IsInk(s[|s| - 1])
    ensures Trim(before + s + after) == s
  {
    assert before + s + after == before + (s + after);
    RunStops(IsWhite, before, s + after);
    assert (before + s + after)[|before|..] == s + after;
    TrimEndStops(IsWhite, s, after);
  }

  lemma TrimNothing(s: string)
    requires s != [] && IsInk(s[0]) && IsInk(s[|s| - 1])
    ensures Trim(s) == s
  {
    TrimPadded("", s, "");
    assert "" + s + "" == s;
  }

  ghost predicate AreWords(words: seq<string>) {
    forall i | 0 <= i < |words| :: words[i] != [] && All(IsInk, words[i])
  }

  lemma SkipSpace(s: string)
    ensures SkipWhite([' '] + s) == SkipWhite(s)
  {
    var t := [' '] + s;
    assert t[1..] == s;
    assert Run(IsWhite, t) == Run(IsWhite, s) + 1;
  }

  lemma WordsSkipSpace(s: string)
    ensures Words([' '] + s) == Words(s)
  {
    SkipSpace(s);
  }

  /** A word at the front is split off where white space follows. */
  lemma FirstWord(word: string, rest: string)
    requires word != [] && All(IsInk, word) && (rest == [] || IsWhite(rest[0]))
    ensures Words(word + rest) == [word] + Words(rest)
  {
    var s := word + rest;
    assert SkipWhite(s) == s by {
      RunStops(IsWhite, [], s);
      assert [] + s == s;
    }
    RunStops(IsInk, word, rest);
    assert s[..|word|] == word && s[|word|..] == rest;
  }

  lemma LastWord(word: string)
    requires word != [] && All(IsInk, word)
    ensures Words(word) == [word]
  {
    FirstWord(word, "");
    assert word + "" == word;
  }

  lemma JoinMore(words: seq<string>)
    requires |words| > 1
    ensures Join(' ', words) == words[0] + ([' '] + Join(' ', words[1..]))
  {}

  lemma FirstOfMany(word: string, rest: string)
    requires word != [] && All(IsInk, word)
    ensures Words(word + ([' '] + rest)) == [word] + Words(rest)
  {
    WordsSkipSpace(rest);
    FirstWord(word, [' '] + rest);
  }

  /** Splitting at white space undoes joining with spaces. */
  lemma {:induction false} WordsOfJoin(words: seq<string>)
    requires AreWords(words)
    ensures Words(Join(' ', words)) == words
    decreases |words|
  {
    if |words| == 1 {
      LastWord(words[0]);
    } else if |words| > 1 {
      var others := words[1..];
      assert AreWords(others);
      WordsOfJoin(others);
      FirstOfMany(words[0], Join(' ', others));
      JoinMore(words);
      assert words == [words[0]] + others;
    }
  }

  lemma {:induction false} JoinEnds(words: seq<string>)
    requires AreWords(words) && words != []
    ensures Join(' ', words) != [] && Join(' ', words)[0] == words[0][0]
    ensures Join(' ', words)[|Join(' ', words)| - 1] == words[|words| - 1][|words[|words| - 1]| - 1]
    decreases |words|
  {
    if |words| > 1 {
      JoinEnds(words[1..]);
    }
  }

  // ---------------------------------------------------------------------
  // Numbers and units
  // ---------------------------------------------------------------------

  lemma {:induction false} ValueOfDecimal(n: nat)
    ensures Value(Decimal(n)) == n
    decreases n
  {
    if n >= 10 {
      ValueOfDecimal(n / 10);
      assert Decimal(n)[..|Decimal(n)| - 1] == Decimal(n / 10);
    }
  }

  lemma ParseDecimal(n: nat)
    requires n < U32_END
    ensures CountOf(Decimal(n)) == Some(n)
  {
    var s := Decimal(n);
    assert IsDigit(s[0]);
    RunIsAll(IsDigit, s);
    ValueOfDecimal(n);
  }

  lemma UnitIsRead(u: Unit, plural: bool)
    ensures UnitOfName(TrimEnd(IsLetterS, if plural then u.Name() + "s" else u.Name())) == Some(u)
  {
    var name := u.Name();
    TrimEndStops(IsLetterS, name, if plural then "s" else "");
    assert name + "" == name;
  }

  lemma LongFormOf(u: Unit)
    ensures LongForm(u.Suffix()) == Some(u.Name() + "s")
    ensures u.Suffix() != [] && !IsDigit(u.Suffix()[0])
  {
    match u
    case Second => assert u.Name() + "s" == "seconds";
    case Minute => assert u.Name() + "s" == "minutes";
    case Hour => assert u.Name() + "s" == "hours";
    case Day => assert u.Name() + "s" == "days";
    case Week => assert u.Name() + "s" == "weeks";
    case Month => assert u.Name() + "s" == "months";
    case Year => assert u.Name() + "s" == "years";
  }

  lemma CompactIsRead(n: nat, u: Unit)
    ensures SplitCompactToken(Decimal(n) + u.Suffix()) == Some((Decimal(n), u.Name() + "s"))
  {
    var token, digits, suffix := Decimal(n) + u.Suffix(), Decimal(n), u.Suffix();
    LongFormOf(u);
    RunStops(IsDigit, digits, suffix);
    assert token[..|digits|] == digits && token[|digits|..] == suffix;
  }

  lemma NoSaturation(n: nat, u: Unit)
    requires n < U32_END
    ensures SaturatingMul(n, u.Seconds()) == n * u.Seconds()
  {
    var s := u.Seconds();
    assert n * s <= U32_END * s;
  }

  /** The word of a phrase that carries its count. */
  function CountWord(phrase: Phrase): string {
    if phrase.Compact? then Decimal(phrase.n)
    else match phrase.count
      case Number(n) => Decimal(n)
      case Article(an) => if an then "an" else "a"
      case Few => "few"
      case Couple(_) => "couple"
  }

  lemma TokensAreSplit(phrase: Phrase)
    ensures CountAndUnit(phrase.Tokens()) == Some((CountWord(phrase), phrase.UnitWord()))
  {
    if phrase.Compact? {
      CompactIsRead(phrase.n, phrase.unit);
    }
  }

  lemma CountIsRead(phrase: Phrase)
    requires phrase.Fits()
    ensures CountOf(CountWord(phrase)) == Some(phrase.Number())
  {
    if phrase.Compact? {
      ParseDecimal(phrase.n);
    } else if phrase.count.Number? {
      ParseDecimal(phrase.count.n);
    }
  }

  /** The tokens of a phrase stand for its number of its unit. */
  lemma TokensAreRead(phrase: Phrase)
    requires phrase.Fits()
    ensures Offset(phrase.Tokens()) == Some(phrase.Age())
  {
    TokensAreSplit(phrase);
    CountIsRead(phrase);
    UnitIsRead(phrase.unit, phrase.Compact? || phrase.plural);
    NoSaturation(phrase.Number(), phrase.unit);
  }

  lemma InkOfDecimal(n: nat)
    ensures All(IsInk, Decimal(n))
  {
    forall i | 0 <= i < |Decimal(n)| ensures IsInk(Decimal(n)[i]) {
      assert IsDigit(Decimal(n)[i]);
    }
  }

  lemma InkOfName(u: Unit)
    ensures u.Name() != [] && All(IsInk, u.Name()) && All(IsInk, u.Name() + "s")
    ensures u.Suffix() != [] && All(IsInk, u.Suffix())
  {}

  lemma InkOfBoth(a: string, b: string)
    requires All(IsInk, a) && All(IsInk, b)
    ensures All(IsInk, a + b)
  {}

  ghost predicate StartsPhrase(word: string) {
    word != [] && (IsDigit(word[0]) || word[0] == 'a')
  }

  lemma TokensAreWords(phrase: Phrase)
    ensures AreWords(phrase.Tokens()) && phrase.Tokens() != [] && StartsPhrase(phrase.Tokens()[0])
  {
    var u := phrase.unit;
    InkOfName(u);
    if phrase.Compact? {
      InkOfDecimal(phrase.n);
      InkOfBoth(Decimal(phrase.n), u.Suffix());
      assert (Decimal(phrase.n) + u.Suffix())[0] == Decimal(phrase.n)[0];
    } else if phrase.count.Number? {
      InkOfDecimal(phrase.count.n);
    } else {
      assert All(IsInk, "a") && All(IsInk, "an") && All(IsInk, "few") && All(IsInk, "couple") && All(IsInk, "of");
    }
  }

  // ---------------------------------------------------------------------
  // Round trip
  // ---------------------------------------------------------------------

  lemma NoPrefix(s: string, p: string, i: nat)
    requires i < |s| && i < |p| && s[i] != p[i]
    ensures StripPrefix(s, p) == None
  {
    assert |p| <= |s| ==> s[..|p|][i] == s[i];
  }

  lemma HasPrefix(p: string, rest: string)
    ensures StripPrefix(p + rest, p) == Some(rest)
  {
    assert (p + rest)[..|p|] == p && (p + rest)[|p|..] == rest;
  }

  lemma LeadIsStripped(lead: Lead, rest: string)
    requires StartsPhrase(rest)
    ensures StripLead(lead.Text() + rest) == rest
  {
    var s, text := lead.Text() + rest, lead.Text();
    HasPrefix(text, rest);
    assert s[|text|] == rest[0];
    match lead
    case Plain =>
      assert s == rest;
      NoPrefix(s, "streamed live ", 0);
      NoPrefix(s, "streamed ", 0);
      NoPrefix(s, "premiered ", 0);
    case Streamed =>
      NoPrefix(s, "streamed live ", 9);
    case StreamedLive =>
    case Premiered =>
      NoPrefix(s, "streamed live ", 0);
      NoPrefix(s, "streamed ", 0);
  }

  lemma AgoIsDropped(core: string, ago: bool)
    requires core != [] && IsInk(core[0]) && IsInk(core[|core| - 1]) && !EndsWith(core, " ago")
    ensures DropAgo(core + Tail(ago)) == core
  {
    if ago {
      assert (core + " ago")[..|core|] == core && (core + " ago")[|core|..] == " ago";
    } else {
      assert core + "" == core;
    }
    TrimNothing(core);
  }

  lemma NoAgo(core: string)
    requires core != [] && (core[|core| - 1] != 'o' || All(IsInk, core))
    ensures !EndsWith(core, " ago")
  {
    assert |core| >= 4 ==> core[|core| - 4..][0] == core[|core| - 4] && core[|core| - 4..][3] == core[|core| - 1];
  }

  lemma LongEnds(phrase: Phrase)
    requires phrase.Long?
    ensures var w := phrase.Tokens()[|phrase.Tokens()| - 1]; w != [] && w[|w| - 1] != 'o'
  {
    assert phrase.Tokens()[|phrase.Tokens()| - 1] == phrase.UnitWord();
  }

  /** A phrase has no "ago" of its own: long forms do not end in "o", and compact ones have no space. */
  lemma PhraseHasNoAgo(phrase: Phrase)
    ensures !EndsWith(Join(' ', phrase.Tokens()), " ago")
  {
    TokensAreWords(phrase);
    JoinEnds(phrase.Tokens());
    if phrase.Long? {
      LongEnds(phrase);
    }
    NoAgo(Join(' ', phrase.Tokens()));
  }

  lemma BodyIsPhrase(raw: string, lead: Lead, phrase: Phrase, ago: bool)
    requires Lower(Trim(raw)) == Print(lead, phrase, ago)
    ensures Body(raw) == Join(' ', phrase.Tokens())
  {
    var toks := phrase.Tokens();
    TokensAreWords(phrase);
    JoinEnds(toks);
    PhraseHasNoAgo(phrase);
    CoreIsBody(raw, lead, Join(' ', toks), ago);
  }

  lemma CoreIsBody(raw: string, lead: Lead, core: string, ago: bool)
    requires Lower(Trim(raw)) == lead.Text() + core + Tail(ago)
    requires StartsPhrase(core) && IsInk(core[|core| - 1]) && !EndsWith(core, " ago")
    ensures Body(raw) == core
  {
    TextAndRest(lead.Text(), core, Tail(ago));
    LeadIsStripped(lead, core + Tail(ago));
    AgoIsDropped(core, ago);
  }

  lemma TextAndRest(text: string, core: string, tail: string)
    requires StartsPhrase(core)
    ensures text + core + tail == text + (core + tail) && StartsPhrase(core + tail)
  {
    assert (core + tail)[0] == core[0];
  }

  lemma TwoWords(first: string, second: string)
    requires AreWords([first, second])
    ensures Words(first + (" " + second)) == [first, second]
  {
    assert [first, second][0] == first && [first, second][1] == second;
    LastWord(second);
    WordsSkipSpace(second);
    FirstWord(first, " " + second);
  }

  lemma SplitMoment(body: string)
    requires body == "a moment"
    ensures Words(body) == [body[..1], body[2..]]
  {
    var first, second := body[..1], body[2..];
    assert All(IsInk, first) && All(IsInk, second);
    assert body == first + (" " + second);
    TwoWords(first, second);
  }

  lemma MomentIsNoUnit(first: string, second: string)
    requires second == "moment"
    ensures Offset([first, second]) == None
  {
    TrimEndStops(IsLetterS, second, "");
    assert second + "" == second;
  }

  lemma NotAShorthand(body: string)
    requires StartsPhrase(body) && Offset(Words(body)).Some?
    ensures !MeansNow(body) && body != "yesterday"
  {
    if body == "a moment" {
      SplitMoment(body);
      MomentIsNoUnit(body[..1], body[2..]);
    }
  }

  lemma PhraseIsRead(phrase: Phrase)
    requires phrase.Fits()
    ensures var body := Join(' ', phrase.Tokens());
      Offset(Words(body)) == Some(phrase.Age()) && !MeansNow(body) && body != "yesterday"
  {
    TokensAreWords(phrase);
    JoinEnds(phrase.Tokens());
    WordsOfJoin(phrase.Tokens());
    TokensAreRead(phrase);
    NotAShorthand(Join(' ', phrase.Tokens()));
  }

  lemma ReadBodyParses(body: string, age: nat, now: Time)
    requires Offset(Words(body)) == Some(age) && !MeansNow(body) && body != "yesterday"
    ensures ParseBody(body, now) == Before(now, Some(age))
  {}

  lemma PhraseParses(phrase: Phrase, now: Time)
    requires phrase.Fits()
    ensures ParseBody(Join(' ', phrase.Tokens()), now) == Before(now, Some(phrase.Age()))
  {
    PhraseIsRead(phrase);
    ReadBodyParses(Join(' ', phrase.Tokens()), phrase.Age(), now);
  }

  predicate IsNotUpper(c: char) {
    !IsUpper(c)
  }

  lemma {:induction false} JoinAll(p: char -> bool, words: seq<string>)
    requires p(' ') && forall i | 0 <= i < |words| :: All(p, words[i])
    ensures All(p, Join(' ', words))
    decreases |words|
  {
    if |words| > 1 {
      JoinAll(p, words[1..]);
    }
  }

  lemma DecimalIsLower(n: nat)
    ensures All(IsNotUpper, Decimal(n))
  {
    forall i | 0 <= i < |Decimal(n)| ensures IsNotUpper(Decimal(n)[i]) {
      assert IsDigit(Decimal(n)[i]);
    }
  }

  lemma NamesAreLower(u: Unit)
    ensures All(IsNotUpper, u.Name()) && All(IsNotUpper, u.Name() + "s") && All(IsNotUpper, u.Suffix())
  {}

  lemma BothAreLower(a: string, b: string)
    requires All(IsNotUpper, a) && All(IsNotUpper, b)
    ensures All(IsNotUpper, a + b)
  {}

  lemma TokensAreLower(phrase: Phrase)
    ensures forall i | 0 <= i < |phrase.Tokens()| :: All(IsNotUpper, phrase.Tokens()[i])
  {
    NamesAreLower(phrase.unit);
    if phrase.Compact? {
      DecimalIsLower(phrase.n);
      BothAreLower(Decimal(phrase.n), phrase.unit.Suffix());
    } else if phrase.count.Number? {
      DecimalIsLower(phrase.count.n);
    } else {
      assert All(IsNotUpper, "a") && All(IsNotUpper, "an") && All(IsNotUpper, "few");
      assert All(IsNotUpper, "couple") && All(IsNotUpper, "of");
    }
  }

  /** Folding a text that is the printed one in any letter case gives the printed one. */
  lemma PrintIsFolded(text: string, lead: Lead, phrase: Phrase, ago: bool)
    requires SameText(text, Print(lead, phrase, ago))
    ensures Lower(text) == Print(lead, phrase, ago)
  {
    var body := Join(' ', phrase.Tokens());
    TokensAreLower(phrase);
    JoinAll(IsNotUpper, phrase.Tokens());
    assert All(IsNotUpper, lead.Text()) && All(IsNotUpper, Tail(ago));
    BothAreLower(lead.Text(), body);
    BothAreLower(lead.Text() + body, Tail(ago));
    FoldDecides(text, Print(lead, phrase, ago));
    LowerIsItself(Print(lead, phrase, ago));
  }

  lemma ParseIsOfBody(raw: string, body: string, now: Time)
    requires Body(raw) == body
    ensures Parse(raw, now) == ParseBody(body, now)
  {}

  /** `age` seconds before now, or nothing when that is before the epoch. */
  predicate IsAgo(answer: Option<Time>, age: nat, now: Time) {
    if age > now then answer.None? else answer.Some? && answer.value + age == now
  }

  lemma BeforeIsAgo(age: nat, now: Time)
    ensures IsAgo(Before(now, Some(age)), age, now)
  {}

  lemma FoldedPhraseParses(
      raw: string, before: string, text: string, after: string, lead: Lead, phrase: Phrase, ago: bool, now: Time)
    requires All(IsWhite, before) && All(IsWhite, after) && raw == before + text + after
    requires phrase.Fits() && Lower(text) == Print(lead, phrase, ago)
    ensures IsAgo(Parse(raw, now), phrase.Age(), now)
  {
    TrimPrinted(before, text, after, lead, phrase, ago);
    BodyIsPhrase(raw, lead, phrase, ago);
    PhraseParses(phrase, now);
    ParseIsOfBody(raw, Join(' ', phrase.Tokens()), now);
    BeforeIsAgo(phrase.Age(), now);
  }

  /**
   * Whatever its letter case and the white space around it, a printed phrase
   * parses to that many units before now, or to nothing when that would be
   * before the epoch.
   */
  lemma PrintedPhrasesParse(
      before: string, text: string, after: string, lead: Lead, phrase: Phrase, ago: bool, now: Time)
    requires All(IsWhite, before) && All(IsWhite, after)
    requires phrase.Fits() && SameText(text, Print(lead, phrase, ago))
    ensures IsAgo(Parse(before + text + after, now), phrase.Age(), now)
  {
    PrintIsFolded(text, lead, phrase, ago);
    FoldedPhraseParses(before + text + after, before, text, after, lead, phrase, ago, now);
  }

  /** The units in terms of one another. */
  lemma UnitsAreCalendar()
    ensures Second.Seconds() == 1 && Minute.Seconds() == 60 * Second.Seconds()
    ensures Hour.Seconds() == 60 * Minute.Seconds() && Day.Seconds() == 24 * Hour.Seconds()
    ensures Week.Seconds() == 7 * Day.Seconds() && Month.Seconds() == 30 * Day.Seconds()
    ensures Year.Seconds() == 365 * Day.Seconds()
  {}

  lemma ShorthandIsBody(raw: string, word: string)
    requires word != [] && IsInk(word[0]) && IsInk(word[|word| - 1]) && !EndsWith(word, " ago")
    requires word[0] != 's' && word[0] != 'p' && Lower(Trim(raw)) == word
    ensures Body(raw) == word
  {
    NoPrefix(word, "streamed live ", 0);
    NoPrefix(word, "streamed ", 0);
    NoPrefix(word, "premiered ", 0);
    AgoIsDropped(word, false);
    assert word + Tail(false) == word;
  }

  lemma TrimWord(before: string, text: string, after: string, word: string)
    requires All(IsWhite, before) && All(IsWhite, after) && NoUpper(word) && SameText(text, word)
    requires word != [] && IsInk(word[0]) && IsInk(word[|word| - 1])
    ensures Lower(Trim(before + text + after)) == word
  {
    FoldDecides(text, word);
    LowerIsItself(word);
    assert Lower(text)[0] == LowerChar(text[0]) && Lower(text)[|text| - 1] == LowerChar(text[|text| - 1]);
    TrimPadded(before, text, after);
  }

  predicate IsShorthand(word: string) {
    word == "just now" || word == "moments" || word == "a moment" || word == "yesterday"
  }

  lemma ShorthandEnds(word: string)
    requires IsShorthand(word)
    ensures word != [] && IsInk(word[0]) && IsInk(word[|word| - 1]) && !EndsWith(word, " ago")
    ensures word[0] != 's' && word[0] != 'p' && NoUpper(word)
  {
    assert word[|word| - 1] != 'o';
    NoAgo(word);
  }

  lemma ShorthandAnswers(body: string, now: Time)
    requires IsShorthand(body)
    ensures ParseBody(body, now) == Some(if body == "yesterday" then Max(now - 24 * 3600, I64_MIN) else now)
  {}

  /** The words for now mean now, and "yesterday" the same time a day earlier. */
  lemma ShorthandsParse(before: string, text: string, after: string, word: string, now: Time)
    requires All(IsWhite, before) && All(IsWhite, after) && SameText(text, word) && IsShorthand(word)
    ensures Parse(before + text + after, now)
         == Some(if word == "yesterday" then Max(now - 24 * 3600, I64_MIN) else now)
  {
    var raw := before + text + after;
    ShorthandEnds(word);
    TrimWord(before, text, after, word);
    ShorthandIsBody(raw, word);
    ShorthandAnswers(word, now);
  }

  lemma PrintEnds(lead: Lead, phrase: Phrase, ago: bool)
    ensures var s := Print(lead, phrase, ago); s != [] && IsInk(s[0]) && IsInk(s[|s| - 1])
  {
    TokensAreWords(phrase);
    JoinEnds(phrase.Tokens());
  }

  lemma TrimPrinted(before: string, text: string, after: string, lead: Lead, phrase: Phrase, ago: bool)
    requires All(IsWhite, before) && All(IsWhite, after) && Lower(text) == Print(lead, phrase, ago)
    ensures Trim(before + text + after) == text
  {
    PrintEnds(lead, phrase, ago);
    assert Lower(text)[0] == LowerChar(text[0]);
    assert Lower(text)[|text| - 1] == LowerChar(text[|text| - 1]);
    TrimPadded(before, text, after);
  }

  ghost predicate IsWholeUnits(t: Time, now: Time, n: nat, u: Unit) {
    n < U32_END && t == now - n * u.Seconds()
  }

  lemma OffsetIsWholeUnits(toks: seq<string>, now: Time, t: Time)
    requires Before(now, Offset(toks)) == Some(t)
    ensures t <= now && exists n, u :: IsWholeUnits(t, now, n, u)
  {
    var (count, unit) := CountAndUnit(toks).value;
    var n, u := CountOf(count).value, UnitOfName(TrimEnd(IsLetterS, unit)).value;
    assert n < U32_END;
    NoSaturation(n, u);
    assert IsWholeUnits(t, now, n, u);
  }

  /** Nothing parses to a time after now: the answer is now, the day before, or a whole count of a unit earlier. */
  lemma NeverInTheFuture(raw: string, now: Time)
    requires Parse(raw, now).Some?
    ensures var t := Parse(raw, now).value;
      && t <= now
      && (t == Max(now - 86400, I64_MIN) || exists n, u :: IsWholeUnits(t, now, n, u))
  {
    var t, body := Parse(raw, now).value, Body(raw);
    if MeansNow(body) {
      assert IsWholeUnits(t, now, 0, Second);
    } else if body != "yesterday" {
      OffsetIsWholeUnits(Words(body), now, t);
    }
  }
}
