/**
 * Selection of the formats a synthesized DASH manifest offers: filter, dedupe,
 * split by codec family, keep formats with box ranges, trim, group by language.
 */
module Dash {
  import opened Prelude
  import Text

  /** The fields of an extracted format that the selection reads. */
  datatype Format = Format(
    id: string,
    protocol: Option<string>,
    url: Option<string>,
    note: Option<string>,
    vcodec: Option<string>,
    acodec: Option<string>,
    height: Option<int>,
    width: Option<int>,
    tbr: Option<real>,
    abr: Option<real>,
    language: Option<string>,
    languagePreference: Option<int>)

  /** The two video and two audio codec families, in the order they are offered. */
  datatype Family = Vp9 | Avc1 | Opus | Mp4a

  function VCodec(f: Format): string { f.vcodec.GetOr("none") }

  function ACodec(f: Format): string { f.acodec.GetOr("none") }

  predicate IsVp9(c: string) { Text.StartsWith(c, "vp9") || Text.StartsWith(c, "vp09") }

  predicate IsAvc1(c: string) { Text.StartsWith(c, "avc1") || Text.StartsWith(c, "avc3") }

  predicate IsOpus(c: string) { Text.StartsWith(c, "opus") }

  predicate IsMp4a(c: string) { Text.StartsWith(c, "mp4a") }

  predicate IsVideoOnly(f: Format) { VCodec(f) != "none" && ACodec(f) == "none" }

  predicate IsAudioOnly(f: Format) { ACodec(f) != "none" && VCodec(f) == "none" }

  predicate IsDrc(f: Format) {
    || Text.Contains(f.id, "-drc-")
    || Text.EndsWith(f.id, "-drc")
    || (f.note.Some? && Text.Contains(Text.Lower(f.note.value), "drc"))
  }

  predicate IsDashUsable(f: Format) {
    && !Text.StartsWith(f.id, "sb")
    && (f.protocol == Some("https") || f.protocol == Some("http_dash_segments")) && f.url.Some?
    && !IsDrc(f)
    && if IsVideoOnly(f) then f.height.Some? && (IsVp9(VCodec(f)) || IsAvc1(VCodec(f)))
       else if IsAudioOnly(f) then IsOpus(ACodec(f)) || IsMp4a(ACodec(f))
       else false
  }

  /** The split of the candidates into families. */
  predicate InFamily(f: Format, family: Family) {
    match family
    case Vp9 => IsVideoOnly(f) && f.height.Some? && IsVp9(VCodec(f))
    case Avc1 => IsVideoOnly(f) && f.height.Some? && IsAvc1(VCodec(f))
    case Opus => IsAudioOnly(f) && IsOpus(ACodec(f))
    case Mp4a => IsAudioOnly(f) && IsMp4a(ACodec(f))
  }

  function Language(f: Format): string { f.language.GetOr("") }

  /** Different prefixes cannot both begin a codec. */
  lemma FamiliesApart(f: Format, a: Family, b: Family)
    requires InFamily(f, a) && InFamily(f, b)
    ensures a == b
  {
    var v, c := VCodec(f), ACodec(f);
    if IsVp9(v) { assert v[0] == 'v'; }
    if IsAvc1(v) { assert v[0] == 'a'; }
    if IsOpus(c) { assert c[0] == 'o'; }
    if IsMp4a(c) { assert c[0] == 'm'; }
  }

  /** The four families partition the usable formats. */
  lemma FamiliesPartition(f: Format)
    requires IsDashUsable(f)
    ensures exists family :: InFamily(f, family) && forall other :: InFamily(f, other) ==> other == family
  {
    var family := if InFamily(f, Vp9) then Vp9
                  else if InFamily(f, Avc1) then Avc1
                  else if InFamily(f, Opus) then Opus
                  else Mp4a;
    assert InFamily(f, family);
    forall other | InFamily(f, other) ensures other == family {
      FamiliesApart(f, family, other);
    }
  }

  // ---------------------------------------------------------------------
  // What the columns of a format say
  // ---------------------------------------------------------------------

  predicate HasCodec(c: Option<string>) {
    c.Some? && c.value != "none"
  }

  predicate Begins(c: Option<string>, prefix: string) {
    c.Some? && |prefix| <= |c.value| && c.value[..|prefix|] == prefix
  }

  /** A dynamic-range-compressed variant, by its id or its note in any letter case. */
  ghost predicate LooksCompressed(f: Format) {
    || (exists i :: Text.OccursAt(f.id, "-drc-", i))
    || (|f.id| >= 4 && f.id[|f.id| - 4..] == "-drc")
    || (f.note.Some? && Text.OccursUpToCase(f.note.value, "drc"))
  }

  lemma DrcExactly(f: Format)
    ensures IsDrc(f) <==> LooksCompressed(f)
  {
    if f.note.Some? { Text.WordingFolds(f.note.value, "drc"); }
  }

  /**
   * A format is usable exactly when it is no storyboard, has a direct URL, is not
   * compressed, and is VP9 or AVC1 video of a known height without audio, or Opus
   * or MP4A audio without video.
   */
  lemma UsableExactly(f: Format)
    ensures IsDashUsable(f) <==>
      && !(|f.id| >= 2 && f.id[0] == 's' && f.id[1] == 'b')
      && f.protocol in {Some("https"), Some("http_dash_segments")} && f.url.Some?
      && !LooksCompressed(f)
      && (InFamily(f, Vp9) || InFamily(f, Avc1) || InFamily(f, Opus) || InFamily(f, Mp4a))
  {
    DrcExactly(f);
  }

  /** The family of a format: which codec it has, and that it has no other. */
  lemma FamilyExactly(f: Format, family: Family)
    ensures InFamily(f, family) <==>
      match family
      case Vp9 => !HasCodec(f.acodec) && f.height.Some? && (Begins(f.vcodec, "vp9") || Begins(f.vcodec, "vp09"))
      case Avc1 => !HasCodec(f.acodec) && f.height.Some? && (Begins(f.vcodec, "avc1") || Begins(f.vcodec, "avc3"))
      case Opus => !HasCodec(f.vcodec) && Begins(f.acodec, "opus")
      case Mp4a => !HasCodec(f.vcodec) && Begins(f.acodec, "mp4a")
  {
    CodecBegins(f.vcodec, "vp9");
    CodecBegins(f.vcodec, "vp09");
    CodecBegins(f.vcodec, "avc1");
    CodecBegins(f.vcodec, "avc3");
    CodecBegins(f.acodec, "opus");
    CodecBegins(f.acodec, "mp4a");
  }

  lemma CodecBegins(c: Option<string>, p: string)
    requires p != [] && p[0] != 'n'
    ensures Begins(c, p) ==> HasCodec(c)
  {
    if Begins(c, p) { assert c.value[..|p|][0] == p[0]; }
  }

  // ---------------------------------------------------------------------
  // Deduplication
  // ---------------------------------------------------------------------

  /** "Same media": everything but the id, the protocol and the audio bitrate. */
  datatype MediaKey = MediaKey(
    vcodec: Option<string>,
    acodec: Option<string>,
    height: Option<int>,
    width: Option<int>,
    kbps: int,
    language: Option<string>)

  /** Rust's `as i64` from a float: toward zero. */
  function Truncate(x: real): int {
    if x >= 0.0 then x.Floor else -((-x).Floor)
  }

  function KeyOf(f: Format): MediaKey {
    MediaKey(f.vcodec, f.acodec, f.height, f.width, Truncate(f.tbr.GetOr(0.0)), f.language)
  }

  /** Whole kilobits a second, toward zero; none where the rate is missing. */
  ghost predicate SameKbps(a: Option<real>, b: Option<real>) {
    exists n: int :: IsKbps(a, n) && IsKbps(b, n)
  }

  predicate IsKbps(rate: Option<real>, n: int) {
    match rate
    case None => n == 0
    case Some(x) => if x >= 0.0 then n as real <= x < n as real + 1.0 else n as real - 1.0 < x <= n as real
  }

  lemma KbpsIs(rate: Option<real>, n: int)
    ensures IsKbps(rate, n) <==> n == Truncate(rate.GetOr(0.0))
  {}

  /** Two formats are the same media exactly when codecs, size, whole bit rate and language agree. */
  lemma SameMediaExactly(f: Format, g: Format)
    ensures KeyOf(f) == KeyOf(g) <==>
      && f.vcodec == g.vcodec && f.acodec == g.acodec && f.height == g.height && f.width == g.width
      && SameKbps(f.tbr, g.tbr) && f.language == g.language
  {
    var n, m := Truncate(f.tbr.GetOr(0.0)), Truncate(g.tbr.GetOr(0.0));
    KbpsIs(f.tbr, n);
    KbpsIs(g.tbr, n);
    if k :| IsKbps(f.tbr, k) && IsKbps(g.tbr, k) {
      KbpsIs(f.tbr, k);
      KbpsIs(g.tbr, k);
    }
  }

  function KeysOf(fs: seq<Format>): (r: seq<MediaKey>)
    ensures |r| == |fs|
  {
    seq(|fs|, i requires 0 <= i < |fs| => KeyOf(fs[i]))
  }

  /** The distinct elements in the order they first appear. */
  function Firsts<T(==)>(s: seq<T>): seq<T> {
    if s == [] then []
    else
      var last := s[|s| - 1];
      Firsts(s[..|s| - 1]) + if last in s[..|s| - 1] then [] else [last]
  }

  lemma {:induction false} FirstsAre<T>(s: seq<T>)
    ensures Distinct(Firsts(s))
    ensures forall x :: x in Firsts(s) <==> x in s
    decreases |s|
  {
    if s != [] {
      var init, last := s[..|s| - 1], s[|s| - 1];
      FirstsAre(init);
      assert s == init + [last];
    }
  }

  /**
   * Format `p` of `fs` stands for its key: the first of the key with box ranges,
   * or the first of the key when none has them.
   */
  ghost predicate Stands(fs: seq<Format>, ranged: set<string>, key: MediaKey, p: int) {
    && 0 <= p < |fs| && KeyOf(fs[p]) == key
    && (if fs[p].id in ranged
        then forall q | 0 <= q < p && KeyOf(fs[q]) == key :: fs[q].id !in ranged
        else forall q | 0 <= q < |fs| && KeyOf(fs[q]) == key :: p <= q && fs[q].id !in ranged)
  }

  ghost predicate StandsForKey(fs: seq<Format>, ranged: set<string>, f: Format) {
    exists p :: Stands(fs, ranged, KeyOf(f), p) && f == fs[p]
  }

  /** The loop's map of incumbents, with where each came from. */
  ghost predicate Incumbents(
      fs: seq<Format>, ranged: set<string>, byKey: map<MediaKey, Format>, at: map<MediaKey, int>) {
    && byKey.Keys == at.Keys == (set k | k in KeysOf(fs))
    && forall k | k in byKey :: Stands(fs, ranged, k, at[k]) && byKey[k] == fs[at[k]]
  }

  /** The key's incumbent stays unless it has no ranges and the newcomer has. */
  lemma IncumbentStays(fs: seq<Format>, ranged: set<string>, key: MediaKey, p: int, f: Format)
    requires Stands(fs, ranged, key, p)
    requires KeyOf(f) == key ==> f.id !in ranged || fs[p].id in ranged
    ensures Stands(fs + [f], ranged, key, p)
  {
    var gs := fs + [f];
    assert forall q | 0 <= q < |fs| :: gs[q] == fs[q];
  }

  /** The newcomer stands when it is the first of its key, or the first with ranges. */
  lemma NewcomerStands(fs: seq<Format>, ranged: set<string>, f: Format)
    requires (forall q | 0 <= q < |fs| :: KeyOf(fs[q]) != KeyOf(f))
          || (f.id in ranged && exists p :: Stands(fs, ranged, KeyOf(f), p) && fs[p].id !in ranged)
    ensures Stands(fs + [f], ranged, KeyOf(f), |fs|)
  {
    var gs := fs + [f];
    assert forall q | 0 <= q < |fs| :: gs[q] == fs[q];
  }

  lemma KeysStep(fs: seq<Format>, f: Format)
    ensures (set k | k in KeysOf(fs + [f])) == (set k | k in KeysOf(fs)) + {KeyOf(f)}
    ensures forall q | 0 <= q < |fs| :: KeyOf(fs[q]) in KeysOf(fs)
  {
    assert KeysOf(fs + [f]) == KeysOf(fs) + [KeyOf(f)];
    assert forall q | 0 <= q < |fs| :: KeysOf(fs)[q] == KeyOf(fs[q]);
  }

  /** The newcomer takes its key's place. */
  lemma IncumbentsTake(fs: seq<Format>, ranged: set<string>, byKey: map<MediaKey, Format>, at: map<MediaKey, int>,
                       f: Format)
    requires Incumbents(fs, ranged, byKey, at)
    requires KeyOf(f) !in byKey || (f.id in ranged && byKey[KeyOf(f)].id !in ranged)
    ensures Incumbents(fs + [f], ranged, byKey[KeyOf(f) := f], at[KeyOf(f) := |fs|])
  {
    var k, gs := KeyOf(f), fs + [f];
    KeysStep(fs, f);
    NewcomerStands(fs, ranged, f);
    var byKey', at' := byKey[k := f], at[k := |fs|];
    assert byKey'.Keys == byKey.Keys + {k} && at'.Keys == at.Keys + {k};
    forall x | x in byKey' ensures Stands(gs, ranged, x, at'[x]) && byKey'[x] == gs[at'[x]] {
      if x != k { IncumbentStays(fs, ranged, x, at[x], f); }
    }
  }

  /** The newcomer changes nothing. */
  lemma IncumbentsKeep(fs: seq<Format>, ranged: set<string>, byKey: map<MediaKey, Format>, at: map<MediaKey, int>,
                       f: Format)
    requires Incumbents(fs, ranged, byKey, at)
    requires KeyOf(f) in byKey && (f.id !in ranged || byKey[KeyOf(f)].id in ranged)
    ensures Incumbents(fs + [f], ranged, byKey, at)
  {
    KeysStep(fs, f);
    forall x | x in byKey ensures Stands(fs + [f], ranged, x, at[x]) && byKey[x] == (fs + [f])[at[x]] {
      IncumbentStays(fs, ranged, x, at[x], f);
    }
  }

  lemma IncumbentsAt(fs: seq<Format>, i: nat, ranged: set<string>, byKey: map<MediaKey, Format>, at: map<MediaKey, int>)
    requires i < |fs| && Incumbents(fs[..i], ranged, byKey, at)
    ensures var (f, k) := (fs[i], KeyOf(fs[i]));
            if k !in byKey || (f.id in ranged && byKey[k].id !in ranged)
            then Incumbents(fs[..i + 1], ranged, byKey[k := f], at[k := i])
            else Incumbents(fs[..i + 1], ranged, byKey, at)
    ensures KeyOf(fs[i]) in byKey <==> KeyOf(fs[i]) in KeysOf(fs[..i])
  {
    var f, k := fs[i], KeyOf(fs[i]);
    if k !in byKey || (f.id in ranged && byKey[k].id !in ranged) {
      IncumbentsTake(fs[..i], ranged, byKey, at, f);
    } else {
      IncumbentsKeep(fs[..i], ranged, byKey, at, f);
    }
    assert fs[..i + 1] == fs[..i] + [f];
    assert k in byKey <==> k in byKey.Keys;
  }

  /** The first pass: the incumbent of each key, and the keys in order of first appearance. */
  method CollectByKey(usable: seq<Format>, ranged: set<string>)
    returns (byKey: map<MediaKey, Format>, order: seq<MediaKey>, ghost at: map<MediaKey, int>)
    ensures Incumbents(usable, ranged, byKey, at)
    ensures order == Firsts(KeysOf(usable))
  {
    byKey, at, order := map[], map[], [];
    for i := 0 to |usable|
      invariant Incumbents(usable[..i], ranged, byKey, at)
      invariant order == Firsts(KeysOf(usable[..i]))
    {
      var f := usable[i];
      var key := KeyOf(f);
      IncumbentsAt(usable, i, ranged, byKey, at);
      FirstsStep(usable, i);
      if key !in byKey {
        byKey, at, order := byKey[key := f], at[key := i], order + [key];
      } else if f.id in ranged && byKey[key].id !in ranged {
        byKey, at := byKey[key := f], at[key := i];
      }
    }
    assert usable[..|usable|] == usable;
  }

  lemma FirstsStep(fs: seq<Format>, i: nat)
    requires i < |fs|
    ensures Firsts(KeysOf(fs[..i + 1]))
         == Firsts(KeysOf(fs[..i])) + if KeyOf(fs[i]) in KeysOf(fs[..i]) then [] else [KeyOf(fs[i])]
  {
    var ks := KeysOf(fs[..i + 1]);
    assert ks[..i] == KeysOf(fs[..i]);
  }

  /**
   * Collapse formats of the same media, preferring one with box ranges. One
   * format per key, keys in order of first appearance, nothing lost on the way out.
   */
  method DedupePreferWithRanges(usable: seq<Format>, ranged: set<string>) returns (out: seq<Format>)
    ensures KeysOf(out) == Firsts(KeysOf(usable))
    ensures forall i | 0 <= i < |out| :: StandsForKey(usable, ranged, out[i])
  {
    var byKey, order;
    ghost var at;
    byKey, order, at := CollectByKey(usable, ranged);
    FirstsAre(KeysOf(usable));
    out := Unload(byKey, order);
    forall i | 0 <= i < |out|
      ensures KeyOf(out[i]) == order[i]
      ensures StandsForKey(usable, ranged, out[i])
    {
      assert order[i] in byKey;
      assert Stands(usable, ranged, order[i], at[order[i]]);
    }
    assert KeysOf(out) == order;
  }

  /** Remove the entries in order; with distinct keys each is still there when its turn comes. */
  method Unload(byKey: map<MediaKey, Format>, order: seq<MediaKey>) returns (out: seq<Format>)
    requires Distinct(order) && forall k | k in order :: k in byKey
    ensures |out| == |order| && forall i | 0 <= i < |out| :: out[i] == byKey[order[i]]
  {
    var left := byKey;
    out := [];
    for i := 0 to |order|
      invariant |out| == i && forall j | 0 <= j < i :: out[j] == byKey[order[j]]
      invariant forall j | i <= j < |order| :: order[j] in left && left[order[j]] == byKey[order[j]]
    {
      if order[i] in left {
        out := out + [left[order[i]]];
        left := left - {order[i]};
      }
    }
  }

  // ---------------------------------------------------------------------
  // Trimming
  // ---------------------------------------------------------------------

  ghost predicate StrictTotal<K(!new)>(less: (K, K) -> bool) {
    && (forall a, b, c :: less(a, b) && less(b, c) ==> less(a, c))
    && (forall a :: !less(a, a))
    && (forall a, b :: less(a, b) || a == b || less(b, a))
  }

  ghost predicate Ascending<K>(less: (K, K) -> bool, s: seq<K>) {
    forall i, j | 0 <= i < j < |s| :: less(s[i], s[j])
  }

  ghost predicate IsLeast<K>(s: set<K>, less: (K, K) -> bool, m: K) {
    m in s && forall y | y in s && y != m :: less(m, y)
  }

  lemma {:induction false} LeastKey<K(!new)>(s: set<K>, less: (K, K) -> bool) returns (m: K)
    requires s != {} && StrictTotal(less)
    ensures IsLeast(s, less, m)
    decreases s
  {
    var x :| x in s;
    var rest := s - {x};
    if rest == {} {
      m := x;
      assert forall y | y in s :: y == x || y in rest;
    } else {
      var y := LeastKey(rest, less);
      m := if less(x, y) then x else y;
      forall z | z in s && z != m ensures less(m, z) {
        if z != x && z != y {
          assert z in rest && less(y, z);
        }
      }
    }
  }

  /** A strictly ascending sequence is determined by its elements. */
  lemma {:induction false} AscendingUnique<K(!new)>(less: (K, K) -> bool, a: seq<K>, b: seq<K>)
    requires StrictTotal(less) && Ascending(less, a) && Ascending(less, b)
    requires forall x :: x in a <==> x in b
    ensures a == b
    decreases |a|
  {
    assert a != [] ==> a[0] in a;
    assert b != [] ==> b[0] in b;
    if a != [] {
      assert a[0] == b[0];
      forall x ensures x in a[1..] <==> x in b[1..] {
        if x in a[1..] { assert x in b && x != a[0]; }
        if x in b[1..] { assert x in a && x != b[0]; }
      }
      AscendingUnique(less, a[1..], b[1..]);
    }
  }

  /** A BTreeMap's keys in order. */
  method SortedKeys<K(==, !new)>(keys: set<K>, less: (K, K) -> bool) returns (out: seq<K>)
    requires StrictTotal(less)
    ensures Ascending(less, out)
    ensures forall k :: k in out <==> k in keys
  {
    var rest := keys;
    out := [];
    while rest != {}
      invariant rest <= keys
      invariant forall k :: k in out <==> k in keys - rest
      invariant Ascending(less, out)
      invariant forall i, k | 0 <= i < |out| && k in rest :: less(out[i], k)
      decreases rest
    {
      ghost var m := LeastKey(rest, less);
      assert IsLeast(rest, less, m);
      var k :| k in rest && forall y | y in rest && y != k :: less(k, y);
      out, rest := out + [k], rest - {k};
    }
  }

  predicate Below(a: int, b: int) { a < b }

  /** Byte-wise order on language tags. */
  predicate Before(a: string, b: string) {
    b != [] && (a == [] || a[0] < b[0] || (a[0] == b[0] && Before(a[1..], b[1..])))
  }

  lemma {:induction false} BeforeTransitive(a: string, b: string, c: string)
    requires Before(a, b) && Before(b, c)
    ensures Before(a, c)
    decreases |a|
  {
    if a != [] && a[0] == b[0] == c[0] {
      BeforeTransitive(a[1..], b[1..], c[1..]);
    }
  }

  lemma {:induction false} BeforeIrreflexive(a: string)
    ensures !Before(a, a)
    decreases |a|
  {
    if a != [] {
      BeforeIrreflexive(a[1..]);
    }
  }

  lemma {:induction false} BeforeTotal(a: string, b: string)
    ensures Before(a, b) || a == b || Before(b, a)
    decreases |a| + |b|
  {
    if a != [] && b != [] && a[0] == b[0] {
      BeforeTotal(a[1..], b[1..]);
      assert a == [a[0]] + a[1..] && b == [b[0]] + b[1..];
    }
  }

  lemma OrdersAreTotal()
    ensures StrictTotal(Below) && StrictTotal(Before)
  {
    forall a, b, c | Before(a, b) && Before(b, c) ensures Before(a, c) { BeforeTransitive(a, b, c); }
    forall a: string, b: string ensures !Before(a, a) && (Before(a, b) || a == b || Before(b, a)) {
      BeforeIrreflexive(a);
      BeforeTotal(a, b);
    }
  }

  /** Format `p` is the first of its height. */
  ghost predicate FirstOfHeight(fs: seq<Format>, h: int, p: int) {
    0 <= p < |fs| && fs[p].height == Some(h) && forall q | 0 <= q < p :: fs[q].height != Some(h)
  }

  ghost predicate IsFirstOfHeight(fs: seq<Format>, f: Format) {
    f.height.Some? && exists p :: FirstOfHeight(fs, f.height.value, p) && f == fs[p]
  }

  function Heights(fs: seq<Format>): set<int> {
    set i | 0 <= i < |fs| && fs[i].height.Some? :: fs[i].height.value
  }

  method FirstByHeight(candidates: seq<Format>) returns (byHeight: map<int, Format>, ghost at: map<int, int>)
    ensures byHeight.Keys == at.Keys == Heights(candidates)
    ensures forall h | h in byHeight :: FirstOfHeight(candidates, h, at[h]) && byHeight[h] == candidates[at[h]]
  {
    byHeight, at := map[], map[];
    for i := 0 to |candidates|
      invariant byHeight.Keys == at.Keys == Heights(candidates[..i])
      invariant forall h | h in byHeight :: FirstOfHeight(candidates, h, at[h]) && byHeight[h] == candidates[at[h]]
    {
      var f := candidates[i];
      HeightsStep(candidates, i);
      if f.height.Some? {
        var h := f.height.value;
        if h !in byHeight {
          HeightsBefore(candidates, i, h);
          byHeight, at := byHeight[h := f], at[h := i];
        }
      }
    }
    assert candidates[..|candidates|] == candidates;
  }

  lemma HeightsBefore(fs: seq<Format>, i: nat, h: int)
    requires i < |fs| && fs[i].height == Some(h) && h !in Heights(fs[..i])
    ensures FirstOfHeight(fs, h, i)
  {
    var a := fs[..i];
    assert forall q | 0 <= q < i :: a[q] == fs[q];
  }

  /** One representation per height, heights ascending, the first seen of each height. */
  method TrimVideo(candidates: seq<Format>) returns (out: seq<Format>)
    ensures forall i | 0 <= i < |out| :: out[i].height.Some?
    ensures forall i, j | 0 <= i < j < |out| :: out[i].height.value < out[j].height.value
    ensures Heights(out) == Heights(candidates)
    ensures forall i | 0 <= i < |out| :: IsFirstOfHeight(candidates, out[i])
  {
    var byHeight;
    ghost var at;
    byHeight, at := FirstByHeight(candidates);
    OrdersAreTotal();
    var keys := SortedKeys(byHeight.Keys, Below);
    out := Values(byHeight, keys);
    forall i | 0 <= i < |out|
      ensures out[i].height == Some(keys[i])
      ensures IsFirstOfHeight(candidates, out[i])
    {
      assert FirstOfHeight(candidates, keys[i], at[keys[i]]);
    }
    forall i, j | 0 <= i < j < |out| ensures out[i].height.value < out[j].height.value {
      assert Below(keys[i], keys[j]);
    }
    assert Heights(out) == byHeight.Keys by {
      forall h | h in byHeight.Keys ensures h in Heights(out) {
        var i :| 0 <= i < |keys| && keys[i] == h;
        assert out[i].height == Some(h);
      }
    }
  }

  method Values<K>(m: map<K, Format>, keys: seq<K>) returns (out: seq<Format>)
    requires forall k | k in keys :: k in m
    ensures |out| == |keys| && forall i | 0 <= i < |out| :: keys[i] in m && out[i] == m[keys[i]]
  {
    out := [];
    for i := 0 to |keys|
      invariant |out| == i && forall j | 0 <= j < i :: out[j] == m[keys[j]]
    {
      assert keys[i] in keys;
      out := out + [m[keys[i]]];
    }
    assert forall i | 0 <= i < |keys| :: keys[i] in keys;
  }

  lemma HeightsStep(fs: seq<Format>, i: nat)
    requires i < |fs|
    ensures Heights(fs[..i + 1]) == Heights(fs[..i]) + (if fs[i].height.Some? then {fs[i].height.value} else {})
  {
    var a, b := fs[..i], fs[..i + 1];
    assert forall q | 0 <= q < i :: a[q] == b[q];
    assert b[i] == fs[i];
  }

  function Bitrate(f: Format): real {
    f.abr.OrElse(f.tbr).GetOr(0.0)
  }

  /** The audio rate decides, the total rate where it is missing, and a format with neither counts as silent. */
  lemma BitrateIs(f: Format)
    ensures f.abr.Some? ==> Bitrate(f) == f.abr.value
    ensures f.abr.None? && f.tbr.Some? ==> Bitrate(f) == f.tbr.value
    ensures f.abr.None? && f.tbr.None? ==> Bitrate(f) == 0.0
  {}

  /** Format `p` is the first of those of its language with the highest bitrate, among the first `n`. */
  ghost predicate BestUpTo(fs: seq<Format>, n: int, lang: string, p: int) {
    && 0 <= p < n <= |fs| && Language(fs[p]) == lang
    && (forall q | 0 <= q < n && Language(fs[q]) == lang :: Bitrate(fs[q]) <= Bitrate(fs[p]))
    && (forall q | 0 <= q < p && Language(fs[q]) == lang :: Bitrate(fs[q]) < Bitrate(fs[p]))
  }

  ghost predicate IsBestOfLanguage(fs: seq<Format>, f: Format) {
    exists p :: BestUpTo(fs, |fs|, Language(f), p) && f == fs[p]
  }

  function Languages(fs: seq<Format>): set<string> {
    set i | 0 <= i < |fs| :: Language(fs[i])
  }

  lemma LanguagesStep(fs: seq<Format>, i: nat)
    requires i < |fs|
    ensures Languages(fs[..i + 1]) == Languages(fs[..i]) + {Language(fs[i])}
  {
    var a, b := fs[..i], fs[..i + 1];
    assert forall q | 0 <= q < i :: a[q] == b[q];
    assert b[i] == fs[i];
  }

  /** The loop's map of best tracks after `n` formats, with where each came from. */
  ghost predicate Bests(fs: seq<Format>, n: nat, byLang: map<string, Format>, at: map<string, int>)
    requires n <= |fs|
  {
    && byLang.Keys == at.Keys == Languages(fs[..n])
    && forall l | l in byLang :: BestUpTo(fs, n, l, at[l]) && byLang[l] == fs[at[l]]
  }

  lemma NoneBefore(fs: seq<Format>, n: nat, lang: string)
    requires n <= |fs| && lang !in Languages(fs[..n])
    ensures forall q | 0 <= q < n :: Language(fs[q]) != lang
  {
    assert forall q | 0 <= q < n :: fs[..n][q] == fs[q] && Language(fs[..n][q]) in Languages(fs[..n]);
  }

  lemma BestUpToStep(fs: seq<Format>, n: nat, lang: string, p: int)
    requires n < |fs| && BestUpTo(fs, n, lang, p)
    ensures BestUpTo(fs, n + 1, lang, if Language(fs[n]) == lang && Bitrate(fs[n]) > Bitrate(fs[p]) then n else p)
  {}

  lemma NoBests(fs: seq<Format>, byLang: map<string, Format>, at: map<string, int>)
    requires byLang == map[] && at == map[]
    ensures Bests(fs, 0, byLang, at)
  {
    assert fs[..0] == [];
  }

  /** The format is the first of its language, or strictly better than the best so far. */
  predicate Beats(f: Format, byLang: map<string, Format>) {
    Language(f) !in byLang || Bitrate(f) > Bitrate(byLang[Language(f)])
  }

  lemma BestsTake(fs: seq<Format>, n: nat, byLang: map<string, Format>, at: map<string, int>)
    requires n < |fs| && Bests(fs, n, byLang, at) && Beats(fs[n], byLang)
    ensures Bests(fs, n + 1, byLang[Language(fs[n]) := fs[n]], at[Language(fs[n]) := n])
  {
    var lang := Language(fs[n]);
    LanguagesStep(fs, n);
    var byLang', at' := byLang[lang := fs[n]], at[lang := n];
    assert byLang'.Keys == byLang.Keys + {lang} && at'.Keys == at.Keys + {lang};
    forall l | l in byLang' ensures BestUpTo(fs, n + 1, l, at'[l]) && byLang'[l] == fs[at'[l]] {
      if l in byLang {
        BestUpToStep(fs, n, l, at[l]);
      } else {
        NoneBefore(fs, n, lang);
      }
    }
  }

  lemma BestsKeep(fs: seq<Format>, n: nat, byLang: map<string, Format>, at: map<string, int>)
    requires n < |fs| && Bests(fs, n, byLang, at) && !Beats(fs[n], byLang)
    ensures Bests(fs, n + 1, byLang, at)
  {
    LanguagesStep(fs, n);
    forall l | l in byLang ensures BestUpTo(fs, n + 1, l, at[l]) {
      BestUpToStep(fs, n, l, at[l]);
    }
  }

  method BestByLanguage(candidates: seq<Format>) returns (byLang: map<string, Format>, ghost at: map<string, int>)
    ensures Bests(candidates, |candidates|, byLang, at)
  {
    byLang, at := map[], map[];
    NoBests(candidates, byLang, at);
    for i := 0 to |candidates|
      invariant Bests(candidates, i, byLang, at)
    {
      var f := candidates[i];
      if Beats(f, byLang) {
        BestsTake(candidates, i, byLang, at);
        byLang, at := byLang[Language(f) := f], at[Language(f) := i];
      } else {
        BestsKeep(candidates, i, byLang, at);
      }
    }
  }

  /** The best tracks in the order of their languages. */
  lemma BestsInOrder(
      fs: seq<Format>, byLang: map<string, Format>, at: map<string, int>, keys: seq<string>, out: seq<Format>)
    requires Bests(fs, |fs|, byLang, at) && |out| == |keys| && forall k :: k in keys <==> k in byLang.Keys
    requires forall i | 0 <= i < |out| :: keys[i] in byLang && out[i] == byLang[keys[i]]
    ensures forall i | 0 <= i < |out| :: Language(out[i]) == keys[i] && IsBestOfLanguage(fs, out[i])
    ensures Languages(out) == Languages(fs)
  {
    forall i | 0 <= i < |out| ensures Language(out[i]) == keys[i] && IsBestOfLanguage(fs, out[i]) {
      assert BestUpTo(fs, |fs|, keys[i], at[keys[i]]);
    }
    assert fs[..|fs|] == fs;
    forall l ensures l in Languages(out) <==> l in byLang.Keys {
      if l in byLang.Keys {
        var i :| 0 <= i < |keys| && keys[i] == l;
        assert Language(out[i]) == l;
      }
    }
  }

  /** One representation per language, languages ascending, the best bitrate of each. */
  method TrimAudio(candidates: seq<Format>) returns (out: seq<Format>)
    ensures forall i, j | 0 <= i < j < |out| :: Before(Language(out[i]), Language(out[j]))
    ensures Languages(out) == Languages(candidates)
    ensures forall i | 0 <= i < |out| :: IsBestOfLanguage(candidates, out[i])
  {
    var byLang;
    ghost var at;
    byLang, at := BestByLanguage(candidates);
    OrdersAreTotal();
    var keys := SortedKeys(byLang.Keys, Before);
    out := Values(byLang, keys);
    BestsInOrder(candidates, byLang, at, keys, out);
  }
}
