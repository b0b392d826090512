/** From the extracted formats to the adaptation sets of the manifest. */
module DashManifest {
  import opened Prelude
  import opened Dash
  import Text

  /** The usable formats, in order. */
  function Usable(fs: seq<Format>): seq<Format> {
    if fs == [] then []
    else Usable(fs[..|fs| - 1]) + if IsDashUsable(fs[|fs| - 1]) then [fs[|fs| - 1]] else []
  }

  /** The formats of one family, in order. */
  function OfFamily(fs: seq<Format>, family: Family): seq<Format> {
    if fs == [] then []
    else OfFamily(fs[..|fs| - 1], family) + if InFamily(fs[|fs| - 1], family) then [fs[|fs| - 1]] else []
  }

  /** The formats with box ranges, in order. */
  function WithRanges(fs: seq<Format>, ranged: set<string>): seq<Format> {
    if fs == [] then []
    else WithRanges(fs[..|fs| - 1], ranged) + if fs[|fs| - 1].id in ranged then [fs[|fs| - 1]] else []
  }

  lemma {:induction false} FiltersKeep(fs: seq<Format>, ranged: set<string>, family: Family)
    ensures forall f :: f in Usable(fs) <==> f in fs && IsDashUsable(f)
    ensures forall f :: f in OfFamily(fs, family) <==> f in fs && InFamily(f, family)
    ensures forall f :: f in WithRanges(fs, ranged) <==> f in fs && f.id in ranged
    decreases |fs|
  {
    if fs != [] {
      FiltersKeep(fs[..|fs| - 1], ranged, family);
      assert fs == fs[..|fs| - 1] + [fs[|fs| - 1]];
    }
  }

  /** A format the manifest can offer in `family`: usable, with box ranges, of that family. */
  predicate Offerable(f: Format, ranged: set<string>, family: Family) {
    IsDashUsable(f) && f.id in ranged && InFamily(f, family)
  }

  /** The chosen representations of the four families. */
  datatype Ladders = Ladders(vp9: seq<Format>, avc1: seq<Format>, opus: seq<Format>, mp4a: seq<Format>) {
    function Of(family: Family): seq<Format> {
      match family
      case Vp9 => vp9
      case Avc1 => avc1
      case Opus => opus
      case Mp4a => mp4a
    }
  }

  predicate IsVideo(family: Family) { family.Vp9? || family.Avc1? }

  /** Each representation is an offerable format that survived deduplication. */
  ghost predicate Sound(formats: seq<Format>, ranged: set<string>, family: Family, reps: seq<Format>) {
    forall f | f in reps ::
      && f in formats && Offerable(f, ranged, family)
      && StandsForKey(Usable(formats), ranged, f)
  }

  ghost predicate OffersHeight(formats: seq<Format>, ranged: set<string>, family: Family, h: int) {
    exists f :: f in formats && Offerable(f, ranged, family) && f.height == Some(h)
  }

  ghost predicate OffersLanguage(formats: seq<Format>, ranged: set<string>, family: Family, lang: string) {
    exists f :: f in formats && Offerable(f, ranged, family) && Language(f) == lang
  }

  /** Exactly the heights (or languages) some offerable format has, one representation each, in order. */
  ghost predicate Complete(formats: seq<Format>, ranged: set<string>, family: Family, reps: seq<Format>) {
    if IsVideo(family) then
      && (forall i | 0 <= i < |reps| :: reps[i].height.Some?)
      && (forall i, j | 0 <= i < j < |reps| :: reps[i].height.value < reps[j].height.value)
      && (forall h :: h in Heights(reps) <==> OffersHeight(formats, ranged, family, h))
    else
      && (forall i, j | 0 <= i < j < |reps| :: Before(Language(reps[i]), Language(reps[j])))
      && (forall l :: l in Languages(reps) <==> OffersLanguage(formats, ranged, family, l))
  }

  /** Each audio track has the best bitrate of its language among the deduplicated offerable tracks. */
  ghost predicate BestTracks(formats: seq<Format>, ranged: set<string>, family: Family, reps: seq<Format>) {
    forall f, g | f in reps && Offerable(g, ranged, family) && StandsForKey(Usable(formats), ranged, g)
                  && Language(g) == Language(f) :: Bitrate(g) <= Bitrate(f)
  }

  /** Formats of the same media share family, height and language. */
  lemma KeyDecides(f: Format, g: Format, family: Family)
    requires KeyOf(f) == KeyOf(g)
    ensures InFamily(f, family) <==> InFamily(g, family)
    ensures f.height == g.height && Language(f) == Language(g)
  {}

  /** The deduplicated usable formats. */
  ghost predicate Deduped(usable: seq<Format>, ranged: set<string>, out: seq<Format>) {
    && KeysOf(out) == Firsts(KeysOf(usable))
    && forall i | 0 <= i < |out| :: StandsForKey(usable, ranged, out[i])
  }

  /** Every usable format has one of the same media in the deduplicated list. */
  lemma MediaKept(usable: seq<Format>, ranged: set<string>, out: seq<Format>, f: Format) returns (g: Format)
    requires Deduped(usable, ranged, out) && f in usable
    ensures g in out && KeyOf(g) == KeyOf(f) && StandsForKey(usable, ranged, g)
  {
    var q :| 0 <= q < |usable| && usable[q] == f;
    assert KeysOf(usable)[q] == KeyOf(f);
    FirstsAre(KeysOf(usable));
    assert KeyOf(f) in KeysOf(out);
    var i :| 0 <= i < |out| && KeysOf(out)[i] == KeyOf(f);
    g := out[i];
  }

  /** No format with ranges is lost to deduplication: the one standing for its media has ranges too. */
  lemma DedupeKeepsRanges(usable: seq<Format>, ranged: set<string>, out: seq<Format>, f: Format) returns (g: Format)
    requires Deduped(usable, ranged, out) && f in usable && f.id in ranged
    ensures g in out && g.id in ranged && KeyOf(g) == KeyOf(f)
  {
    g := MediaKept(usable, ranged, out, f);
    var p :| Stands(usable, ranged, KeyOf(g), p) && g == usable[p];
    var q :| 0 <= q < |usable| && usable[q] == f;
    assert KeyOf(usable[q]) == KeyOf(g);
  }

  /** At most one format stands for a key. */
  lemma StandsUnique(usable: seq<Format>, ranged: set<string>, key: MediaKey, p: int, q: int)
    requires Stands(usable, ranged, key, p) && Stands(usable, ranged, key, q)
    ensures p == q
  {}

  /** And every format that stands for a key is in the deduplicated list. */
  lemma StandingIsKept(usable: seq<Format>, ranged: set<string>, out: seq<Format>, f: Format)
    requires Deduped(usable, ranged, out) && StandsForKey(usable, ranged, f)
    ensures f in out
  {
    var p :| Stands(usable, ranged, KeyOf(f), p) && f == usable[p];
    var g := MediaKept(usable, ranged, out, f);
    var q :| Stands(usable, ranged, KeyOf(g), q) && g == usable[q];
    StandsUnique(usable, ranged, KeyOf(f), p, q);
  }

  /** The candidates of one family: split by codec, then keep those with ranges. */
  function Pool(deduped: seq<Format>, ranged: set<string>, family: Family): seq<Format> {
    WithRanges(OfFamily(deduped, family), ranged)
  }

  lemma PoolIs(deduped: seq<Format>, ranged: set<string>, family: Family)
    ensures forall f :: f in Pool(deduped, ranged, family) <==> f in deduped && InFamily(f, family) && f.id in ranged
  {
    FiltersKeep(deduped, ranged, family);
    FiltersKeep(OfFamily(deduped, family), ranged, family);
  }

  /** For every offerable format the pool has one of the same height and language. */
  ghost predicate Covers(formats: seq<Format>, ranged: set<string>, family: Family, pool: seq<Format>) {
    forall f | f in formats && Offerable(f, ranged, family) ::
      exists g :: g in pool && g.height == f.height && Language(g) == Language(f)
  }

  /** What the filter, the dedupe and the split leave in a family's pool. */
  lemma PoolSound(formats: seq<Format>, ranged: set<string>, deduped: seq<Format>, family: Family)
    requires Deduped(Usable(formats), ranged, deduped)
    ensures Sound(formats, ranged, family, Pool(deduped, ranged, family))
  {
    var usable := Usable(formats);
    FiltersKeep(formats, ranged, family);
    PoolIs(deduped, ranged, family);
    forall f | f in Pool(deduped, ranged, family)
      ensures f in formats && Offerable(f, ranged, family) && StandsForKey(usable, ranged, f)
    {
      var i :| 0 <= i < |deduped| && deduped[i] == f;
      assert StandsForKey(usable, ranged, deduped[i]);
      var p :| Stands(usable, ranged, KeyOf(f), p) && f == usable[p];
      assert f in usable;
    }
  }

  lemma PoolCovers(formats: seq<Format>, ranged: set<string>, deduped: seq<Format>, family: Family)
    requires Deduped(Usable(formats), ranged, deduped)
    ensures Covers(formats, ranged, family, Pool(deduped, ranged, family))
  {
    FiltersKeep(formats, ranged, family);
    PoolIs(deduped, ranged, family);
    forall f | f in formats && Offerable(f, ranged, family)
      ensures exists g :: g in Pool(deduped, ranged, family) && g.height == f.height && Language(g) == Language(f)
    {
      var g := DedupeKeepsRanges(Usable(formats), ranged, deduped, f);
      KeyDecides(f, g, family);
    }
  }

  lemma PoolHasStanding(formats: seq<Format>, ranged: set<string>, deduped: seq<Format>, family: Family)
    requires Deduped(Usable(formats), ranged, deduped)
    ensures forall g | Offerable(g, ranged, family) && StandsForKey(Usable(formats), ranged, g) ::
              g in Pool(deduped, ranged, family)
  {
    PoolIs(deduped, ranged, family);
    forall g | Offerable(g, ranged, family) && StandsForKey(Usable(formats), ranged, g)
      ensures g in Pool(deduped, ranged, family)
    {
      StandingIsKept(Usable(formats), ranged, deduped, g);
    }
  }

  /** The pool has no height or language that is not offered. */
  lemma PoolOffered(formats: seq<Format>, ranged: set<string>, family: Family, pool: seq<Format>)
    requires Sound(formats, ranged, family, pool)
    ensures forall h | h in Heights(pool) :: OffersHeight(formats, ranged, family, h)
    ensures forall l | l in Languages(pool) :: OffersLanguage(formats, ranged, family, l)
  {
    forall h | h in Heights(pool) ensures OffersHeight(formats, ranged, family, h) {
      var i :| 0 <= i < |pool| && pool[i].height == Some(h);
      assert pool[i] in pool;
    }
    forall l | l in Languages(pool) ensures OffersLanguage(formats, ranged, family, l) {
      var i :| 0 <= i < |pool| && Language(pool[i]) == l;
      assert pool[i] in pool;
    }
  }

  /** And misses none that is. */
  lemma OfferedInPool(formats: seq<Format>, ranged: set<string>, family: Family, pool: seq<Format>)
    requires Covers(formats, ranged, family, pool)
    ensures forall h | OffersHeight(formats, ranged, family, h) :: h in Heights(pool)
    ensures forall l | OffersLanguage(formats, ranged, family, l) :: l in Languages(pool)
  {
    forall h | OffersHeight(formats, ranged, family, h) ensures h in Heights(pool) {
      var f :| f in formats && Offerable(f, ranged, family) && f.height == Some(h);
      var g :| g in pool && g.height == f.height && Language(g) == Language(f);
      var i :| 0 <= i < |pool| && pool[i] == g;
      assert pool[i].height.value in Heights(pool);
    }
    forall l | OffersLanguage(formats, ranged, family, l) ensures l in Languages(pool) {
      var f :| f in formats && Offerable(f, ranged, family) && Language(f) == l;
      var g :| g in pool && g.height == f.height && Language(g) == Language(f);
      var i :| 0 <= i < |pool| && pool[i] == g;
      assert Language(pool[i]) in Languages(pool);
    }
  }

  lemma PoolComplete(formats: seq<Format>, ranged: set<string>, deduped: seq<Format>, family: Family)
    requires Deduped(Usable(formats), ranged, deduped)
    ensures forall h :: h in Heights(Pool(deduped, ranged, family)) <==> OffersHeight(formats, ranged, family, h)
    ensures forall l :: l in Languages(Pool(deduped, ranged, family)) <==> OffersLanguage(formats, ranged, family, l)
  {
    assert Sound(formats, ranged, family, Pool(deduped, ranged, family)) by {
      PoolSound(formats, ranged, deduped, family);
    }
    PoolOffered(formats, ranged, family, Pool(deduped, ranged, family));
    PoolMissesNone(formats, ranged, deduped, family);
  }

  lemma PoolMissesNone(formats: seq<Format>, ranged: set<string>, deduped: seq<Format>, family: Family)
    requires Deduped(Usable(formats), ranged, deduped)
    ensures forall h | OffersHeight(formats, ranged, family, h) :: h in Heights(Pool(deduped, ranged, family))
    ensures forall l | OffersLanguage(formats, ranged, family, l) :: l in Languages(Pool(deduped, ranged, family))
  {
    PoolCovers(formats, ranged, deduped, family);
    OfferedInPool(formats, ranged, family, Pool(deduped, ranged, family));
  }

  /** Each representation is the trim's pick from the pool: the first of its height, or of its language's best. */
  ghost predicate PickedFrom(pool: seq<Format>, family: Family, reps: seq<Format>) {
    forall i | 0 <= i < |reps| ::
      if IsVideo(family) then IsFirstOfHeight(pool, reps[i]) else IsBestOfLanguage(pool, reps[i])
  }

  /** The picks from the deduplicated formats of the family that have ranges. */
  ghost predicate Picked(formats: seq<Format>, ranged: set<string>, family: Family, reps: seq<Format>) {
    exists deduped :: Deduped(Usable(formats), ranged, deduped)
        && PickedFrom(Pool(deduped, ranged, family), family, reps)
  }

  method VideoLadder(formats: seq<Format>, ranged: set<string>, deduped: seq<Format>, family: Family)
    returns (reps: seq<Format>)
    requires IsVideo(family) && Deduped(Usable(formats), ranged, deduped)
    ensures Sound(formats, ranged, family, reps) && Complete(formats, ranged, family, reps)
    ensures PickedFrom(Pool(deduped, ranged, family), family, reps)
  {
    var pool := Pool(deduped, ranged, family);
    PoolSound(formats, ranged, deduped, family);
    PoolComplete(formats, ranged, deduped, family);
    reps := TrimVideo(pool);
    forall f | f in reps ensures f in pool {
      var i :| 0 <= i < |reps| && reps[i] == f;
      assert IsFirstOfHeight(pool, reps[i]);
    }
  }

  method AudioLadder(formats: seq<Format>, ranged: set<string>, deduped: seq<Format>, family: Family)
    returns (reps: seq<Format>)
    requires !IsVideo(family) && Deduped(Usable(formats), ranged, deduped)
    ensures Sound(formats, ranged, family, reps) && Complete(formats, ranged, family, reps)
    ensures BestTracks(formats, ranged, family, reps) && PickedFrom(Pool(deduped, ranged, family), family, reps)
  {
    var pool := Pool(deduped, ranged, family);
    PoolSound(formats, ranged, deduped, family);
    PoolComplete(formats, ranged, deduped, family);
    PoolHasStanding(formats, ranged, deduped, family);
    reps := TrimAudio(pool);
    forall f | f in reps
      ensures f in pool && forall g | g in pool && Language(g) == Language(f) :: Bitrate(g) <= Bitrate(f)
    {
      var i :| 0 <= i < |reps| && reps[i] == f;
      assert IsBestOfLanguage(pool, reps[i]);
    }
  }

  /** The whole selection, family by family. */
  method SelectLadders(formats: seq<Format>, ranged: set<string>) returns (r: Ladders)
    ensures forall family ::
              Sound(formats, ranged, family, r.Of(family)) && Complete(formats, ranged, family, r.Of(family))
    ensures forall family | !IsVideo(family) :: BestTracks(formats, ranged, family, r.Of(family))
    ensures forall family :: Picked(formats, ranged, family, r.Of(family))
  {
    var deduped := DedupePreferWithRanges(Usable(formats), ranged);
    var vp9 := VideoLadder(formats, ranged, deduped, Vp9);
    var avc1 := VideoLadder(formats, ranged, deduped, Avc1);
    var opus := AudioLadder(formats, ranged, deduped, Opus);
    var mp4a := AudioLadder(formats, ranged, deduped, Mp4a);
    r := Ladders(vp9, avc1, opus, mp4a);
    forall family
      ensures Sound(formats, ranged, family, r.Of(family)) && Complete(formats, ranged, family, r.Of(family))
      ensures !IsVideo(family) ==> BestTracks(formats, ranged, family, r.Of(family))
      ensures PickedFrom(Pool(deduped, ranged, family), family, r.Of(family))
    {
      match family
      case Vp9 => case Avc1 => case Opus => case Mp4a =>
    }
  }

  /** There is one way to deduplicate. */
  lemma DedupedIsUnique(usable: seq<Format>, ranged: set<string>, a: seq<Format>, b: seq<Format>)
    requires Deduped(usable, ranged, a) && Deduped(usable, ranged, b)
    ensures a == b
  {
    forall i | 0 <= i < |a| ensures a[i] == b[i] {
      assert KeysOf(a)[i] == KeysOf(b)[i];
      var p :| Stands(usable, ranged, KeyOf(a[i]), p) && a[i] == usable[p];
      var q :| Stands(usable, ranged, KeyOf(b[i]), q) && b[i] == usable[q];
      StandsUnique(usable, ranged, KeyOf(a[i]), p, q);
    }
  }

  /** Of a height, or a language, a pool has one pick. */
  lemma PickIsUnique(pool: seq<Format>, family: Family, f: Format, g: Format)
    requires if IsVideo(family) then IsFirstOfHeight(pool, f) && IsFirstOfHeight(pool, g) && f.height == g.height
             else IsBestOfLanguage(pool, f) && IsBestOfLanguage(pool, g) && Language(f) == Language(g)
    ensures f == g
  {
    if IsVideo(family) {
      var p :| FirstOfHeight(pool, f.height.value, p) && f == pool[p];
      var q :| FirstOfHeight(pool, g.height.value, q) && g == pool[q];
      assert p == q;
    } else {
      var p :| BestUpTo(pool, |pool|, Language(f), p) && f == pool[p];
      var q :| BestUpTo(pool, |pool|, Language(g), q) && g == pool[q];
      assert !(p < q) && !(q < p);
    }
  }

  function HeightKeys(reps: seq<Format>): (r: seq<int>)
    ensures |r| == |reps|
  {
    seq(|reps|, i requires 0 <= i < |reps| => reps[i].height.GetOr(0))
  }

  function LanguageKeys(reps: seq<Format>): (r: seq<string>)
    ensures |r| == |reps|
  {
    seq(|reps|, i requires 0 <= i < |reps| => Language(reps[i]))
  }

  /** Two complete ladders of a family have the same heights or languages, in the same order. */
  lemma SameKeys(formats: seq<Format>, ranged: set<string>, family: Family, a: seq<Format>, b: seq<Format>)
    requires Complete(formats, ranged, family, a) && Complete(formats, ranged, family, b)
    ensures if IsVideo(family) then HeightKeys(a) == HeightKeys(b) else LanguageKeys(a) == LanguageKeys(b)
  {
    OrdersAreTotal();
    if IsVideo(family) {
      forall h ensures h in HeightKeys(a) <==> h in HeightKeys(b) {
        KeysAreHeights(a, h);
        KeysAreHeights(b, h);
      }
      AscendingUnique(Below, HeightKeys(a), HeightKeys(b));
    } else {
      forall l ensures l in LanguageKeys(a) <==> l in LanguageKeys(b) {
        KeysAreLanguages(a, l);
        KeysAreLanguages(b, l);
      }
      AscendingUnique(Before, LanguageKeys(a), LanguageKeys(b));
    }
  }

  lemma KeysAreHeights(reps: seq<Format>, h: int)
    requires forall i | 0 <= i < |reps| :: reps[i].height.Some?
    ensures h in HeightKeys(reps) <==> h in Heights(reps)
  {
    if h in HeightKeys(reps) {
      var i :| 0 <= i < |reps| && HeightKeys(reps)[i] == h;
      assert reps[i].height == Some(h);
    }
    if h in Heights(reps) {
      var i :| 0 <= i < |reps| && reps[i].height == Some(h);
      assert HeightKeys(reps)[i] == h;
    }
  }

  lemma KeysAreLanguages(reps: seq<Format>, l: string)
    ensures l in LanguageKeys(reps) <==> l in Languages(reps)
  {
    if l in LanguageKeys(reps) {
      var i :| 0 <= i < |reps| && LanguageKeys(reps)[i] == l;
      assert Language(reps[i]) == l;
    }
    if l in Languages(reps) {
      var i :| 0 <= i < |reps| && Language(reps[i]) == l;
      assert LanguageKeys(reps)[i] == l;
    }
  }

  /** The contract determines the ladders: nothing about the choice of formats is left open. */
  lemma LaddersAreDetermined(formats: seq<Format>, ranged: set<string>, family: Family, a: seq<Format>, b: seq<Format>)
    requires Complete(formats, ranged, family, a) && Picked(formats, ranged, family, a)
    requires Complete(formats, ranged, family, b) && Picked(formats, ranged, family, b)
    ensures a == b
  {
    var d :| Deduped(Usable(formats), ranged, d) && PickedFrom(Pool(d, ranged, family), family, a);
    var e :| Deduped(Usable(formats), ranged, e) && PickedFrom(Pool(e, ranged, family), family, b);
    DedupedIsUnique(Usable(formats), ranged, d, e);
    SameKeys(formats, ranged, family, a, b);
    assert |a| == |b| by {
      assert if IsVideo(family) then |HeightKeys(a)| == |HeightKeys(b)| else |LanguageKeys(a)| == |LanguageKeys(b)|;
    }
    forall i | 0 <= i < |a| ensures a[i] == b[i] {
      if IsVideo(family) {
        assert HeightKeys(a)[i] == HeightKeys(b)[i];
      } else {
        assert LanguageKeys(a)[i] == LanguageKeys(b)[i];
      }
      PickIsUnique(Pool(d, ranged, family), family, a[i], b[i]);
    }
  }

  /** Some family is non-empty exactly when some usable format has ranges. */
  lemma OfferedIff(formats: seq<Format>, ranged: set<string>, r: Ladders)
    requires forall family ::
               Sound(formats, ranged, family, r.Of(family)) && Complete(formats, ranged, family, r.Of(family))
    ensures (exists family :: r.Of(family) != []) <==> exists f :: f in formats && IsDashUsable(f) && f.id in ranged
  {
    if family :| r.Of(family) != [] {
      assert Sound(formats, ranged, family, r.Of(family));
      assert r.Of(family)[0] in r.Of(family);
    }
    if f :| f in formats && IsDashUsable(f) && f.id in ranged {
      FamiliesPartition(f);
      var family :| InFamily(f, family);
      assert Complete(formats, ranged, family, r.Of(family)) && Offerable(f, ranged, family);
      if IsVideo(family) {
        assert OffersHeight(formats, ranged, family, f.height.value);
        assert f.height.value in Heights(r.Of(family));
      } else {
        assert OffersLanguage(formats, ranged, family, Language(f));
        assert Language(f) in Languages(r.Of(family));
      }
    }
  }

  // ---------------------------------------------------------------------
  // Adaptation sets
  // ---------------------------------------------------------------------

  /** One adaptation set: a whole video family, or one language of an audio family. */
  datatype AdaptationSet = AdaptationSet(mime: string, language: Option<string>, main: bool, reps: seq<Format>)

  predicate IsOriginal(f: Format) {
    f.note.Some? && Text.Contains(Text.Lower(f.note.value), "original")
  }

  predicate Ranked(f: Format) {
    f.language.Some? && f.languagePreference.Some?
  }

  /** A note marks the original in any letter case, and a track is ranked when it has a tag and a preference. */
  lemma MarksExactly(f: Format)
    ensures IsOriginal(f) <==> f.note.Some? && Text.OccursUpToCase(f.note.value, "original")
    ensures Ranked(f) <==> f.language != None && f.languagePreference != None
  {
    if f.note.Some? { Text.WordingFolds(f.note.value, "original"); }
  }

  ghost predicate FirstOriginal(fs: seq<Format>, i: int) {
    0 <= i < |fs| && IsOriginal(fs[i]) && forall j | 0 <= j < i :: !IsOriginal(fs[j])
  }

  /** Track `i` is the first of the highest language preference among the first `n` that have one and a tag. */
  ghost predicate TopRanked(fs: seq<Format>, n: int, i: int) {
    && 0 <= i < n <= |fs| && fs[i].language.Some? && fs[i].languagePreference.Some?
    && (forall j | 0 <= j < n && Ranked(fs[j]) :: fs[j].languagePreference.value <= fs[i].languagePreference.value)
    && (forall j | 0 <= j < i && Ranked(fs[j]) :: fs[j].languagePreference.value < fs[i].languagePreference.value)
  }

  ghost predicate AnyOriginal(fs: seq<Format>) {
    exists i :: FirstOriginal(fs, i)
  }

  /** Track `i` decides the main language: the first marked original, else the first of the highest preference. */
  ghost predicate Decides(fs: seq<Format>, i: int) {
    if AnyOriginal(fs) then FirstOriginal(fs, i) else TopRanked(fs, |fs|, i)
  }

  lemma DecidesUnique(fs: seq<Format>, i: int, j: int)
    requires Decides(fs, i) && Decides(fs, j)
    ensures i == j
  {
    if AnyOriginal(fs) {
      assert FirstOriginal(fs, i) && FirstOriginal(fs, j);
    } else {
      assert TopRanked(fs, |fs|, i) && TopRanked(fs, |fs|, j);
    }
  }

  method BestRanked(fs: seq<Format>) returns (best: int)
    ensures best == -1 ==> forall j | 0 <= j < |fs| :: !Ranked(fs[j])
    ensures best != -1 ==> TopRanked(fs, |fs|, best)
  {
    best := -1;
    for i := 0 to |fs|
      invariant best == -1 ==> forall j | 0 <= j < i :: !Ranked(fs[j])
      invariant best != -1 ==> TopRanked(fs, i, best)
    {
      if Ranked(fs[i]) && (best == -1 || fs[i].languagePreference.value > fs[best].languagePreference.value) {
        best := i;
      }
    }
  }

  method PickMainAudioLang(fs: seq<Format>) returns (main: Option<string>)
    ensures forall i :: Decides(fs, i) ==> main == fs[i].language
    ensures main.Some? ==> exists i :: Decides(fs, i)
  {
    for i := 0 to |fs|
      invariant forall j | 0 <= j < i :: !IsOriginal(fs[j])
    {
      if IsOriginal(fs[i]) {
        assert FirstOriginal(fs, i);
        assert Decides(fs, i);
        forall j | Decides(fs, j) ensures j == i { DecidesUnique(fs, i, j); }
        return fs[i].language;
      }
    }
    assert !AnyOriginal(fs);
    var best := BestRanked(fs);
    if best == -1 {
      return None;
    }
    assert Decides(fs, best);
    forall j | Decides(fs, j) ensures j == best { DecidesUnique(fs, best, j); }
    main := fs[best].language;
  }

  /** The tracks of one language, in order. */
  function OfLanguage(reps: seq<Format>, lang: string): seq<Format> {
    if reps == [] then []
    else OfLanguage(reps[..|reps| - 1], lang) + if Language(reps[|reps| - 1]) == lang then [reps[|reps| - 1]] else []
  }

  lemma OfLanguageStep(reps: seq<Format>, i: nat, lang: string)
    requires i < |reps|
    ensures OfLanguage(reps[..i + 1], lang)
         == OfLanguage(reps[..i], lang) + if Language(reps[i]) == lang then [reps[i]] else []
  {
    assert reps[..i + 1][..i] == reps[..i];
  }

  lemma {:induction false} AbsentLanguage(reps: seq<Format>, lang: string)
    requires lang !in Languages(reps)
    ensures OfLanguage(reps, lang) == []
    decreases |reps|
  {
    if reps != [] {
      var n := |reps| - 1;
      LanguagesStep(reps, n);
      assert reps[..n + 1] == reps;
      AbsentLanguage(reps[..n], lang);
    }
  }

  /** With distinct languages, a language's group is its one track. */
  lemma {:induction false} OneTrackEach(reps: seq<Format>, i: nat)
    requires i < |reps|
    requires forall i, j | 0 <= i < j < |reps| :: Language(reps[i]) != Language(reps[j])
    ensures OfLanguage(reps, Language(reps[i])) == [reps[i]]
    decreases |reps|
  {
    var n := |reps| - 1;
    if i < n {
      OneTrackEach(reps[..n], i);
    } else {
      assert Language(reps[n]) !in Languages(reps[..n]) by {
        assert forall j | 0 <= j < n :: reps[..n][j] == reps[j];
      }
      AbsentLanguage(reps[..n], Language(reps[n]));
    }
  }

  /** Group tracks by language. */
  method GroupByLanguage(reps: seq<Format>) returns (groups: map<string, seq<Format>>)
    ensures groups.Keys == Languages(reps)
    ensures forall l | l in groups :: groups[l] == OfLanguage(reps, l)
  {
    groups := map[];
    for i := 0 to |reps|
      invariant groups.Keys == Languages(reps[..i])
      invariant forall l | l in groups :: groups[l] == OfLanguage(reps[..i], l)
    {
      var lang := Language(reps[i]);
      LanguagesStep(reps, i);
      forall l | l in groups ensures OfLanguage(reps[..i + 1], l) == groups[l] + if l == lang then [reps[i]] else [] {
        OfLanguageStep(reps, i, l);
      }
      if lang in groups {
        groups := groups[lang := groups[lang] + [reps[i]]];
      } else {
        AbsentLanguage(reps[..i], lang);
        OfLanguageStep(reps, i, lang);
        groups := groups[lang := [reps[i]]];
      }
    }
    assert reps[..|reps|] == reps;
  }

  function AudioSet(mime: string, rep: Format, mainLang: Option<string>, multi: bool): AdaptationSet {
    AdaptationSet(mime, Some(Language(rep)), mainLang == Some(Language(rep)) && multi, [rep])
  }

  lemma SortedLanguages(reps: seq<Format>, keys: seq<string>)
    requires forall i, j | 0 <= i < j < |reps| :: Before(Language(reps[i]), Language(reps[j]))
    requires Ascending(Before, keys) && forall l :: l in keys <==> l in Languages(reps)
    ensures |keys| == |reps| && forall i | 0 <= i < |reps| :: keys[i] == Language(reps[i])
  {
    var langs := seq(|reps|, i requires 0 <= i < |reps| => Language(reps[i]));
    forall l ensures l in keys <==> l in langs {
      if l in keys {
        var j :| 0 <= j < |reps| && Language(reps[j]) == l;
        assert langs[j] == l;
      }
    }
    OrdersAreTotal();
    AscendingUnique(Before, keys, langs);
  }

  /** One adaptation set per language; with one track per language, in the ladder's order. */
  method AudioSets(mime: string, reps: seq<Format>, mainLang: Option<string>, multi: bool)
    returns (sets: seq<AdaptationSet>)
    requires forall i, j | 0 <= i < j < |reps| :: Before(Language(reps[i]), Language(reps[j]))
    ensures |sets| == |reps|
    ensures forall i | 0 <= i < |sets| :: sets[i] == AudioSet(mime, reps[i], mainLang, multi)
  {
    OrdersAreTotal();
    var groups := GroupByLanguage(reps);
    var keys := SortedKeys(groups.Keys, Before);
    SortedLanguages(reps, keys);
    forall i | 0 <= i < |reps| ensures keys[i] in groups && groups[keys[i]] == [reps[i]] {
      assert keys[i] in keys;
      Different(reps);
      OneTrackEach(reps, i);
    }
    sets := BuildSets(mime, reps, keys, groups, mainLang, multi);
  }

  lemma Different(reps: seq<Format>)
    requires forall i, j | 0 <= i < j < |reps| :: Before(Language(reps[i]), Language(reps[j]))
    ensures forall i, j | 0 <= i < j < |reps| :: Language(reps[i]) != Language(reps[j])
  {
    forall i, j | 0 <= i < j < |reps| ensures Language(reps[i]) != Language(reps[j]) {
      BeforeIrreflexive(Language(reps[i]));
    }
  }

  method BuildSets(mime: string, ghost reps: seq<Format>, keys: seq<string>, groups: map<string, seq<Format>>,
                   mainLang: Option<string>, multi: bool) returns (sets: seq<AdaptationSet>)
    requires |keys| == |reps|
    requires forall i | 0 <= i < |reps| ::
               keys[i] == Language(reps[i]) && keys[i] in groups && groups[keys[i]] == [reps[i]]
    ensures |sets| == |reps|
    ensures forall i | 0 <= i < |sets| :: sets[i] == AudioSet(mime, reps[i], mainLang, multi)
  {
    sets := [];
    for i := 0 to |keys|
      invariant |sets| == i
      invariant forall j | 0 <= j < i :: sets[j] == AudioSet(mime, reps[j], mainLang, multi)
    {
      sets := sets + [AdaptationSet(mime, Some(keys[i]), mainLang == Some(keys[i]) && multi, groups[keys[i]])];
    }
  }

  function VideoSet(mime: string, reps: seq<Format>): seq<AdaptationSet> {
    if reps == [] then [] else [AdaptationSet(mime, None, false, reps)]
  }

  /** The representations of a manifest, in order. */
  function Reps(sets: seq<AdaptationSet>): seq<Format> {
    if sets == [] then [] else Reps(sets[..|sets| - 1]) + sets[|sets| - 1].reps
  }

  lemma {:induction false} RepsJoin(a: seq<AdaptationSet>, b: seq<AdaptationSet>)
    ensures Reps(a + b) == Reps(a) + Reps(b)
    decreases |b|
  {
    if b == [] {
      assert a + b == a;
    } else {
      var init, last := b[..|b| - 1], b[|b| - 1].reps;
      RepsJoin(a, init);
      assert (a + b)[..|a + b| - 1] == a + init;
      assert Reps(a + init) + last == Reps(a) + (Reps(init) + last);
    }
  }

  lemma {:induction false} SingletonReps(sets: seq<AdaptationSet>, reps: seq<Format>)
    requires |sets| == |reps| && forall i | 0 <= i < |sets| :: sets[i].reps == [reps[i]]
    ensures Reps(sets) == reps
    decreases |sets|
  {
    if sets != [] {
      SingletonReps(sets[..|sets| - 1], reps[..|reps| - 1]);
      assert reps == reps[..|reps| - 1] + [reps[|reps| - 1]];
    }
  }

  function Mime(family: Family): string {
    match family
    case Vp9 => "video/webm"
    case Avc1 => "video/mp4"
    case Opus => "audio/webm"
    case Mp4a => "audio/mp4"
  }

  /** A set of one family: all of a video family's tracks, or the one track of a language of an audio family. */
  /** The type of a set is its kind and the container of its codec. */
  lemma MimeIs(family: Family)
    ensures Mime(family) == (if family.Vp9? || family.Avc1? then "video/" else "audio/")
                            + (if family.Vp9? || family.Opus? then "webm" else "mp4")
  {}

  ghost predicate IsSetOf(s: AdaptationSet, family: Family) {
    && s.mime == Mime(family)
    && s.reps != [] && (forall f | f in s.reps :: InFamily(f, family))
    && (s.language.None? <==> IsVideo(family))
    && (s.language.Some? ==> |s.reps| == 1 && s.language == Some(Language(s.reps[0])))
  }

  ghost predicate IsSetOfSomeFamily(s: AdaptationSet) {
    exists family :: IsSetOf(s, family)
  }

  ghost predicate NoTwoAlike(sets: seq<AdaptationSet>) {
    forall i, j | 0 <= i < j < |sets| :: sets[i].mime != sets[j].mime || sets[i].language != sets[j].language
  }

  /** Every set is of one family, and a family and language have at most one set. */
  ghost predicate Grouped(sets: seq<AdaptationSet>) {
    (forall s | s in sets :: IsSetOfSomeFamily(s)) && NoTwoAlike(sets)
  }

  /** The sets of one family. */
  ghost predicate IsPart(part: seq<AdaptationSet>, family: Family) {
    (forall s | s in part :: IsSetOf(s, family)) && NoTwoAlike(part)
  }

  ghost predicate IsMainSet(s: AdaptationSet, mainLang: Option<string>, multi: bool) {
    s.main <==> s.language.Some? && mainLang == s.language && multi
  }

  lemma VideoPart(family: Family, reps: seq<Format>, mainLang: Option<string>, multi: bool)
    requires IsVideo(family) && forall f | f in reps :: InFamily(f, family)
    ensures IsPart(VideoSet(Mime(family), reps), family)
    ensures forall s | s in VideoSet(Mime(family), reps) :: IsMainSet(s, mainLang, multi)
  {}

  lemma AudioPart(family: Family, reps: seq<Format>, part: seq<AdaptationSet>, mainLang: Option<string>, multi: bool)
    requires !IsVideo(family) && forall f | f in reps :: InFamily(f, family)
    requires forall i, j | 0 <= i < j < |reps| :: Before(Language(reps[i]), Language(reps[j]))
    requires |part| == |reps| && forall i | 0 <= i < |part| ::
             part[i] == AudioSet(Mime(family), reps[i], mainLang, multi)
    ensures IsPart(part, family)
    ensures forall s | s in part :: IsMainSet(s, mainLang, multi)
  {
    Different(reps);
    forall s | s in part ensures IsSetOf(s, family) && IsMainSet(s, mainLang, multi) {
      var i :| 0 <= i < |part| && part[i] == s;
      assert reps[i] in reps;
    }
    forall i, j | 0 <= i < j < |part| ensures part[i].language != part[j].language {
      assert Language(reps[i]) != Language(reps[j]);
    }
  }

  lemma Append(a: seq<AdaptationSet>, b: seq<AdaptationSet>)
    requires NoTwoAlike(a) && NoTwoAlike(b) && forall s, t | s in a && t in b :: s.mime != t.mime
    ensures NoTwoAlike(a + b)
  {
    forall i, j | 0 <= i < j < |a + b|
      ensures (a + b)[i].mime != (a + b)[j].mime || (a + b)[i].language != (a + b)[j].language
    {
      if i < |a| <= j {
        assert (a + b)[i] in a && (a + b)[j] in b;
      }
    }
  }

  lemma FourParts(a: seq<AdaptationSet>, b: seq<AdaptationSet>, c: seq<AdaptationSet>, d: seq<AdaptationSet>)
    requires IsPart(a, Vp9) && IsPart(b, Avc1) && IsPart(c, Opus) && IsPart(d, Mp4a)
    ensures Grouped(a + b + c + d)
  {
    Append(a, b);
    Append(a + b, c);
    Append(a + b + c, d);
    forall s | s in a + b + c + d ensures IsSetOfSomeFamily(s) {
      var family := if s in a then Vp9 else if s in b then Avc1 else if s in c then Opus else Mp4a;
      assert IsSetOf(s, family);
    }
  }

  /** Sets joined end to end hold the representations of each in turn. */
  lemma FourReps(a: seq<AdaptationSet>, b: seq<AdaptationSet>, c: seq<AdaptationSet>, d: seq<AdaptationSet>)
    ensures Reps(a + b + c + d) == Reps(a) + Reps(b) + Reps(c) + Reps(d)
  {
    RepsJoin(a, b);
    RepsJoin(a + b, c);
    RepsJoin(a + b + c, d);
  }

  /** Each ladder holds formats of its own family only. */
  ghost predicate Split(r: Ladders) {
    forall family, f | f in r.Of(family) :: InFamily(f, family)
  }

  /** Put the four families' sets together: video before audio, the preferred family first. */
  method Assemble(r: Ladders, mainLang: Option<string>, multi: bool) returns (sets: seq<AdaptationSet>)
    requires Split(r)
    requires forall i, j | 0 <= i < j < |r.opus| :: Before(Language(r.opus[i]), Language(r.opus[j]))
    requires forall i, j | 0 <= i < j < |r.mp4a| :: Before(Language(r.mp4a[i]), Language(r.mp4a[j]))
    ensures Reps(sets) == r.vp9 + r.avc1 + r.opus + r.mp4a
    ensures Grouped(sets)
    ensures forall s | s in sets :: IsMainSet(s, mainLang, multi)
  {
    var opus := AudioSets(Mime(Opus), r.opus, mainLang, multi);
    var mp4a := AudioSets(Mime(Mp4a), r.mp4a, mainLang, multi);
    var webm, mp4 := VideoSet(Mime(Vp9), r.vp9), VideoSet(Mime(Avc1), r.avc1);
    sets := webm + mp4 + opus + mp4a;
    FourLadders(r);
    VideoPart(Vp9, r.vp9, mainLang, multi);
    VideoPart(Avc1, r.avc1, mainLang, multi);
    AudioPart(Opus, r.opus, opus, mainLang, multi);
    AudioPart(Mp4a, r.mp4a, mp4a, mainLang, multi);
    FourParts(webm, mp4, opus, mp4a);
    SingletonReps(opus, r.opus);
    SingletonReps(mp4a, r.mp4a);
    VideoReps(Mime(Vp9), r.vp9);
    VideoReps(Mime(Avc1), r.avc1);
    FourReps(webm, mp4, opus, mp4a);
  }

  lemma FourLadders(r: Ladders)
    requires Split(r)
    ensures forall f | f in r.vp9 :: InFamily(f, Vp9)
    ensures forall f | f in r.avc1 :: InFamily(f, Avc1)
    ensures forall f | f in r.opus :: InFamily(f, Opus)
    ensures forall f | f in r.mp4a :: InFamily(f, Mp4a)
  {
    assert r.Of(Vp9) == r.vp9 && r.Of(Avc1) == r.avc1 && r.Of(Opus) == r.opus && r.Of(Mp4a) == r.mp4a;
  }

  lemma VideoReps(mime: string, reps: seq<Format>)
    ensures Reps(VideoSet(mime, reps)) == reps
  {
    if reps != [] {
      var s := AdaptationSet(mime, None, false, reps);
      assert [s][..0] == [];
      assert Reps([s]) == Reps([]) + reps;
    }
  }

  /** The language marked main: none unless there are several, then the deciding track's, if it has one. */
  ghost predicate IsMain(audio: seq<Format>, lang: Option<string>) {
    lang.Some? && |Languages(audio)| > 1 && exists i :: Decides(audio, i) && audio[i].language == lang
  }

  /** There are several languages and the deciding track says which is its own. */
  ghost predicate HasMain(audio: seq<Format>) {
    |Languages(audio)| > 1 && exists i :: Decides(audio, i) && audio[i].language.Some?
  }

  /** Main is marked exactly on the deciding track's language, and exactly when it has one. */
  ghost predicate MainMarked(sets: seq<AdaptationSet>, audio: seq<Format>) {
    && (forall s | s in sets :: s.main <==> IsMain(audio, s.language))
    && ((exists s :: s in sets && s.main) <==> HasMain(audio))
  }

  /** Every representation is in some set. */
  lemma {:induction false} RepIsInSet(sets: seq<AdaptationSet>, f: Format) returns (s: AdaptationSet)
    requires f in Reps(sets)
    ensures s in sets && f in s.reps
    decreases |sets|
  {
    var n := |sets| - 1;
    if f in sets[n].reps {
      s := sets[n];
    } else {
      s := RepIsInSet(sets[..n], f);
    }
  }

  /** So an audio track's language has a set. */
  lemma TrackHasSet(sets: seq<AdaptationSet>, f: Format, family: Family) returns (s: AdaptationSet)
    requires Grouped(sets) && f in Reps(sets) && InFamily(f, family) && !IsVideo(family)
    ensures s in sets && s.language == Some(Language(f))
  {
    s := RepIsInSet(sets, f);
    assert IsSetOfSomeFamily(s);
    var other :| IsSetOf(s, other);
    FamiliesApart(f, family, other);
    assert s.reps == [f];
  }

  lemma MarksMain(sets: seq<AdaptationSet>, r: Ladders)
    requires Grouped(sets) && Split(r) && Reps(sets) == r.vp9 + r.avc1 + r.opus + r.mp4a
    requires forall s | s in sets :: s.main <==> IsMain(r.opus + r.mp4a, s.language)
    ensures MainMarked(sets, r.opus + r.mp4a)
  {
    var audio := r.opus + r.mp4a;
    FourLadders(r);
    if HasMain(audio) {
      var i :| Decides(audio, i) && audio[i].language.Some?;
      var f := audio[i];
      assert f in Reps(sets);
      var s := TrackHasSet(sets, f, if i < |r.opus| then Opus else Mp4a);
      assert IsMain(audio, s.language);
    }
    if s :| s in sets && s.main {
      assert IsMain(audio, s.language);
    }
  }

  /**
   * The manifest's adaptation sets. There is a manifest exactly when some usable
   * format has box ranges. It offers, family by family, exactly the available
   * heights and languages, one representation each, in one set per video family
   * and one per audio family and language. Main is marked only when there are
   * several languages, and then exactly on the deciding track's language.
   */
  method SynthesizeManifest(formats: seq<Format>, ranged: set<string>)
    returns (manifest: Option<seq<AdaptationSet>>, ghost r: Ladders)
    ensures manifest.Some? <==> exists f :: f in formats && IsDashUsable(f) && f.id in ranged
    ensures forall family ::
              Sound(formats, ranged, family, r.Of(family)) && Complete(formats, ranged, family, r.Of(family))
    ensures forall family | !IsVideo(family) :: BestTracks(formats, ranged, family, r.Of(family))
    ensures forall family :: Picked(formats, ranged, family, r.Of(family))
    ensures manifest.Some? ==>
              && Reps(manifest.value) == r.vp9 + r.avc1 + r.opus + r.mp4a
              && Grouped(manifest.value)
              && MainMarked(manifest.value, r.opus + r.mp4a)
  {
    var ladders := SelectLadders(formats, ranged);
    r := ladders;
    OfferedIff(formats, ranged, r);
    if ladders.vp9 == [] && ladders.avc1 == [] && ladders.opus == [] && ladders.mp4a == [] {
      assert forall family :: r.Of(family) == [];
      return None, r;
    }
    assert r.Of(Vp9) != [] || r.Of(Avc1) != [] || r.Of(Opus) != [] || r.Of(Mp4a) != [];
    var sets := MarkAndAssemble(formats, ranged, ladders);
    manifest := Some(sets);
  }

  /** Pick the main language over both audio families, then assemble the sets. */
  method MarkAndAssemble(ghost formats: seq<Format>, ghost ranged: set<string>, r: Ladders)
    returns (sets: seq<AdaptationSet>)
    requires forall family ::
               Sound(formats, ranged, family, r.Of(family)) && Complete(formats, ranged, family, r.Of(family))
    ensures Reps(sets) == r.vp9 + r.avc1 + r.opus + r.mp4a
    ensures Grouped(sets) && MainMarked(sets, r.opus + r.mp4a)
  {
    SoundIsSplit(formats, ranged, r);
    assert Complete(formats, ranged, Opus, r.Of(Opus)) && Complete(formats, ranged, Mp4a, r.Of(Mp4a));
    var audio := r.opus + r.mp4a;
    var mainLang := PickMainAudioLang(audio);
    var multi := |Languages(audio)| > 1;
    sets := Assemble(r, mainLang, multi);
    forall s | s in sets ensures s.main <==> IsMain(audio, s.language) {
      assert IsMainSet(s, mainLang, multi);
    }
    MarksMain(sets, r);
  }

  lemma SoundIsSplit(formats: seq<Format>, ranged: set<string>, r: Ladders)
    requires forall family :: Sound(formats, ranged, family, r.Of(family))
    ensures Split(r)
  {
    forall family, f | f in r.Of(family) ensures InFamily(f, family) {
      assert Sound(formats, ranged, family, r.Of(family));
    }
  }

  // ---------------------------------------------------------------------
  // What the ladders do not promise
  // ---------------------------------------------------------------------

  /** No offerable track of the same family and language has a better bitrate. */
  ghost predicate IsBestOffered(formats: seq<Format>, ranged: set<string>, family: Family, f: Format) {
    forall g | g in formats && Offerable(g, ranged, family) && Language(g) == Language(f) :: Bitrate(g) <= Bitrate(f)
  }

  /** A track of `f`'s language that deduplication keeps reaches the best bitrate of all. */
  ghost predicate BestIsKept(formats: seq<Format>, ranged: set<string>, family: Family, f: Format) {
    exists h :: && h in formats && Offerable(h, ranged, family) && Language(h) == Language(f)
                && StandsForKey(Usable(formats), ranged, h)
                && IsBestOffered(formats, ranged, family, h)
  }

  /**
   * The offered track of a language is the best of all offerable ones exactly
   * when some best one is the first with ranges of its media.
   */
  lemma BestOfAllExactly(formats: seq<Format>, ranged: set<string>, family: Family, reps: seq<Format>, f: Format)
    requires Sound(formats, ranged, family, reps) && BestTracks(formats, ranged, family, reps) && f in reps
    ensures IsBestOffered(formats, ranged, family, f) <==> BestIsKept(formats, ranged, family, f)
  {
    if BestIsKept(formats, ranged, family, f) {
      var h :| && h in formats && Offerable(h, ranged, family) && Language(h) == Language(f)
               && StandsForKey(Usable(formats), ranged, h) && IsBestOffered(formats, ranged, family, h);
      assert Bitrate(h) <= Bitrate(f);
    }
  }

  function OpusTrack(id: string, note: Option<string>, abr: real, language: Option<string>): Format {
    Format(id, Some("https"), Some("u"), note, None, Some("opus"), None, None, None, Some(abr), language, None)
  }

  const QUIET := OpusTrack("a", None, 50.0, Some("en"))
  const LOUD := OpusTrack("b", None, 100.0, Some("en"))
  const ORIGINAL := OpusTrack("a", Some("original"), 50.0, None)
  const ENGLISH := OpusTrack("b", None, 50.0, Some("en"))

  lemma OpusTrackIsOfferable(id: string, note: Option<string>, abr: real, language: Option<string>, ranged: set<string>)
    requires |id| == 1 && id in ranged && (note.None? || note == Some("original"))
    ensures var f := OpusTrack(id, note, abr, language);
      Offerable(f, ranged, Opus) && forall family | InFamily(f, family) :: family == Opus
  {
    var f, lower := OpusTrack(id, note, abr, language), Text.Lower("original");
    forall i | 0 <= i <= |lower| ensures !Text.OccursAt(lower, "drc", i) {
      assert i + 3 <= |lower| ==> lower[i..i + 3][0] == lower[i];
    }
    assert !IsDrc(f);
    assert InFamily(f, Opus);
    forall family | InFamily(f, family) ensures family == Opus {
      FamiliesApart(f, family, Opus);
    }
  }

  lemma UsablePair(f: Format, g: Format)
    requires IsDashUsable(f) && IsDashUsable(g)
    ensures Usable([f, g]) == [f, g]
  {
    var one: seq<Format>, two := [f], [f, g];
    assert one[..0] == [] && two[..1] == one;
    assert Usable(one) == Usable([]) + [f];
    assert Usable(two) == Usable(one) + [g];
  }

  lemma OneOrNone(reps: seq<Format>)
    requires forall i, j | 0 <= i < j < |reps| :: Before(Language(reps[i]), Language(reps[j]))
    requires forall i, j | 0 <= i < j < |reps| :: Language(reps[i]) == Language(reps[j])
    ensures |reps| <= 1
  {
    if |reps| > 1 {
      var a, b := Language(reps[0]), Language(reps[1]);
      BeforeIrreflexive(a);
      assert false;
    }
  }

  /** Of two tracks of the same media the quieter one, listed first, is the one offered. */
  lemma LouderTwinIsLost(ranged: set<string>, reps: seq<Format>)
    requires ranged == {"a", "b"}
    requires Sound([QUIET, LOUD], ranged, Opus, reps) && Complete([QUIET, LOUD], ranged, Opus, reps)
    ensures reps == [QUIET] && !IsBestOffered([QUIET, LOUD], ranged, Opus, QUIET)
  {
    var formats := [QUIET, LOUD];
    OpusTrackIsOfferable("a", None, 50.0, Some("en"), ranged);
    OpusTrackIsOfferable("b", None, 100.0, Some("en"), ranged);
    UsablePair(QUIET, LOUD);
    forall i | 0 <= i < |reps| ensures reps[i] == QUIET {
      assert reps[i] in reps;
      TwinStands(formats, ranged, reps[i]);
    }
    assert formats[0] in formats && formats[1] in formats;
    assert OffersLanguage(formats, ranged, Opus, "en");
    assert "en" in Languages(reps);
    OneOrNone(reps);
  }

  lemma TwinStands(formats: seq<Format>, ranged: set<string>, f: Format)
    requires formats == [QUIET, LOUD] && ranged == {"a", "b"} && StandsForKey(formats, ranged, f)
    ensures f == QUIET
  {
    var p :| Stands(formats, ranged, KeyOf(f), p) && f == formats[p];
    assert KeyOf(formats[0]) == KeyOf(formats[1]);
  }

  /** Two languages, the original without a tag: nothing is marked main. */
  lemma UntaggedOriginalIsMainForNobody(ranged: set<string>, opus: seq<Format>, mp4a: seq<Format>)
    requires ranged == {"a", "b"}
    requires Sound([ORIGINAL, ENGLISH], ranged, Opus, opus) && Complete([ORIGINAL, ENGLISH], ranged, Opus, opus)
    requires Sound([ORIGINAL, ENGLISH], ranged, Mp4a, mp4a)
    ensures |Languages(opus + mp4a)| > 1 && !HasMain(opus + mp4a)
  {
    assert mp4a != [] ==> mp4a[0] in mp4a;
    OpusTrackIsOfferable("a", Some("original"), 50.0, None, ranged);
    OpusTrackIsOfferable("b", None, 50.0, Some("en"), ranged);
    assert opus + mp4a == opus;
    TwoLanguages(ranged, opus);
    var i :| 0 <= i < |opus| && Language(opus[i]) == "";
    assert opus[i] in opus;
    OnlyOriginalDecides(opus, i);
  }

  lemma TwoLanguages(ranged: set<string>, opus: seq<Format>)
    requires Offerable(ORIGINAL, ranged, Opus) && Offerable(ENGLISH, ranged, Opus)
    requires Complete([ORIGINAL, ENGLISH], ranged, Opus, opus)
    ensures "" in Languages(opus) && |Languages(opus)| > 1
  {
    var formats := [ORIGINAL, ENGLISH];
    assert formats[0] in formats && formats[1] in formats;
    assert OffersLanguage(formats, ranged, Opus, "") && OffersLanguage(formats, ranged, Opus, "en");
    assert |{"", "en"}| == 2;
    SubsetSize({"", "en"}, Languages(opus));
  }

  lemma OnlyOriginalDecides(audio: seq<Format>, i: nat)
    requires i < |audio| && audio[i] == ORIGINAL && forall f | f in audio :: f == ORIGINAL || f == ENGLISH
    ensures !HasMain(audio)
  {
    assert Text.OccursAt(Text.Lower("original"), "original", 0);
    assert IsOriginal(ORIGINAL) && !IsOriginal(ENGLISH);
    var k := FirstOf(audio, i);
    assert AnyOriginal(audio);
    forall d | Decides(audio, d) ensures audio[d].language == None {
      assert audio[d] in audio;
    }
  }

  lemma {:induction false} FirstOf(fs: seq<Format>, i: nat) returns (k: nat)
    requires i < |fs| && IsOriginal(fs[i])
    ensures FirstOriginal(fs, k)
    decreases i
  {
    if j :| 0 <= j < i && IsOriginal(fs[j]) {
      k := FirstOf(fs, j);
    } else {
      k := i;
    }
  }
}
