/** Signed proxy queries and cast tokens: the canonical query, the signature text, and its check. */
module Signing {
  import opened Prelude

  type Bytes = seq<bv8>
  type Param = (Bytes, Bytes)

  /** HMAC as far as this module knows it: some function of the secret and the message. */
  type Mac = (Bytes, Bytes) -> Bytes

  const AMP: bv8 := 0x26
  const EQ: bv8 := 0x3D
  const PERCENT: bv8 := 0x25

  // ---------------------------------------------------------------------
  // Percent encoding (section 2.1 of RFC 3986)
  // ---------------------------------------------------------------------

  predicate IsUnreserved(b: bv8) {
    0x41 <= b <= 0x5A || 0x61 <= b <= 0x7A || 0x30 <= b <= 0x39 || b == 0x2D || b == 0x5F || b == 0x2E || b == 0x7E
  }

  /** A hexadecimal digit, with `ten` as the digit for ten. */
  function HexDigit(n: bv8, ten: bv8): bv8 {
    if n < 10 then 0x30 + n else ten + (n - 10)
  }

  function HexValue(c: bv8): bv8 {
    if 0x30 <= c <= 0x39 then c - 0x30
    else if 0x41 <= c <= 0x46 then c - 0x41 + 10
    else if 0x61 <= c <= 0x66 then c - 0x61 + 10
    else 0
  }

  function PercentWritten(b: bv8): Bytes {
    if IsUnreserved(b) then [b] else [PERCENT, HexDigit(b >> 4, 0x41), HexDigit(b & 0xF, 0x41)]
  }

  function PercentEncoded(s: Bytes): Bytes {
    FlatMap(PercentWritten, s)
  }

  /** `percent_encode`. */
  method PercentEncode(s: Bytes) returns (out: Bytes)
    ensures out == PercentEncoded(s)
  {
    out := [];
    for i := 0 to |s|
      invariant out == FlatMap(PercentWritten, s[..i])
    {
      FlatMapStep(PercentWritten, s, i);
      out := out + PercentWritten(s[i]);
    }
    assert s[..|s|] == s;
  }

  function PercentDecoded(s: Bytes): Bytes {
    if s == [] then []
    else if s[0] == PERCENT && |s| >= 3 then [(HexValue(s[1]) << 4) | HexValue(s[2])] + PercentDecoded(s[3..])
    else [s[0]] + PercentDecoded(s[1..])
  }

  lemma HexRoundTrip(b: bv8, ten: bv8)
    requires ten == 0x41 || ten == 0x61
    ensures (HexValue(HexDigit(b >> 4, ten)) << 4) | HexValue(HexDigit(b & 0xF, ten)) == b
  {
    HexDigitValue(b >> 4, ten);
    HexDigitValue(b & 0xF, ten);
  }

  lemma HexDigitValue(n: bv8, ten: bv8)
    requires n < 16 && (ten == 0x41 || ten == 0x61)
    ensures HexValue(HexDigit(n, ten)) == n
    ensures HexDigit(n, ten) !in {AMP, EQ, PERCENT}
  {}

  predicate IsUpperHex(c: bv8) {
    0x30 <= c <= 0x39 || 0x41 <= c <= 0x46
  }

  predicate IsLowerHex(c: bv8) {
    0x30 <= c <= 0x39 || 0x61 <= c <= 0x66
  }

  lemma HexDigitCase(n: bv8)
    requires n < 16
    ensures IsUpperHex(HexDigit(n, 0x41)) && IsLowerHex(HexDigit(n, 0x61))
  {}

  /** The bytes written as themselves: letters, digits and four marks (section 2.3 of RFC 3986). */
  predicate StaysAsIs(c: char) {
    'A' <= c <= 'Z' || 'a' <= c <= 'z' || '0' <= c <= '9' || c in "-_.~"
  }

  lemma UnreservedExactly(b: bv8)
    ensures IsUnreserved(b) <==> StaysAsIs(b as int as char)
  {}

  /** An encoded byte stands for itself, or is a percent sign and its two upper-case digits, the high one first. */
  lemma EncodedByteIs(b: bv8)
    ensures var out := PercentWritten(b);
            if StaysAsIs(b as int as char) then out == [b]
            else
              && |out| == 3 && out[0] == 0x25 && IsUpperHex(out[1]) && IsUpperHex(out[2])
              && (HexValue(out[1]) << 4) | HexValue(out[2]) == b
  {
    UnreservedExactly(b);
    HexRoundTrip(b, 0x41);
    HexDigitCase(b >> 4);
    HexDigitCase(b & 0xF);
  }

  lemma {:induction false} DecodeUndoesEncode(s: Bytes)
    ensures PercentDecoded(PercentEncoded(s)) == s
    decreases |s|
  {
    if s != [] {
      var b, rest := s[0], PercentEncoded(s[1..]);
      DecodeUndoesEncode(s[1..]);
      HexRoundTrip(b, 0x41);
      assert (PercentWritten(b) + rest)[|PercentWritten(b)|..] == rest;
      assert s == [b] + s[1..];
    }
  }

  lemma {:induction false} NoSeparators(s: Bytes)
    ensures AMP !in PercentEncoded(s) && EQ !in PercentEncoded(s)
    decreases |s|
  {
    if s != [] {
      var b := s[0];
      NoSeparators(s[1..]);
      HexDigitValue(b >> 4, 0x41);
      HexDigitValue(b & 0xF, 0x41);
      assert AMP !in PercentWritten(b) && EQ !in PercentWritten(b);
    }
  }

  // ---------------------------------------------------------------------
  // Sorting parameters
  // ---------------------------------------------------------------------

  /** Byte-wise lexicographic order. */
  predicate LeBytes(a: Bytes, b: Bytes) {
    a == [] || (b != [] && (a[0] < b[0] || (a[0] == b[0] && LeBytes(a[1..], b[1..]))))
  }

  /** By name, then by value. */
  predicate Le(p: Param, q: Param) {
    if p.0 == q.0 then LeBytes(p.1, q.1) else LeBytes(p.0, q.0)
  }

  lemma {:induction false} BytesAreOrdered(a: Bytes, b: Bytes)
    ensures LeBytes(a, b) || LeBytes(b, a)
    ensures LeBytes(a, b) && LeBytes(b, a) ==> a == b
    decreases |a|
  {
    if a != [] && b != [] && a[0] == b[0] {
      BytesAreOrdered(a[1..], b[1..]);
      assert a == [a[0]] + a[1..] && b == [b[0]] + b[1..];
    }
  }

  lemma {:induction false} BytesTransitive(a: Bytes, b: Bytes, c: Bytes)
    requires LeBytes(a, b) && LeBytes(b, c)
    ensures LeBytes(a, c)
    decreases |a|
  {
    if a != [] && a[0] == b[0] == c[0] {
      BytesTransitive(a[1..], b[1..], c[1..]);
    }
  }

  lemma ParamsAreOrdered(p: Param, q: Param)
    ensures Le(p, q) || Le(q, p)
    ensures Le(p, q) && Le(q, p) ==> p == q
  {
    BytesAreOrdered(p.0, q.0);
    BytesAreOrdered(p.1, q.1);
  }

  lemma ParamsTransitive(p: Param, q: Param, r: Param)
    requires Le(p, q) && Le(q, r)
    ensures Le(p, r)
  {
    if p.0 == q.0 == r.0 {
      BytesTransitive(p.1, q.1, r.1);
    } else if p.0 != q.0 && q.0 != r.0 {
      BytesTransitive(p.0, q.0, r.0);
      BytesAreOrdered(p.0, q.0);
    }
  }

  ghost predicate IsFirst(p: Param, s: seq<Param>) {
    forall q | q in s :: Le(p, q)
  }

  ghost predicate IsSorted(s: seq<Param>) {
    s == [] || (IsFirst(s[0], s) && IsSorted(s[1..]))
  }

  function Insert(p: Param, s: seq<Param>): (r: seq<Param>)
    ensures multiset(r) == multiset(s) + multiset{p}
  {
    if s == [] || Le(p, s[0]) then [p] + s
    else
      assert s == [s[0]] + s[1..];
      [s[0]] + Insert(p, s[1..])
  }

  /** The parameters in order. */
  function Sorted(s: seq<Param>): (r: seq<Param>)
    ensures multiset(r) == multiset(s)
  {
    if s == [] then []
    else
      assert s == [s[0]] + s[1..];
      Insert(s[0], Sorted(s[1..]))
  }

  lemma {:induction false} InsertSorts(p: Param, s: seq<Param>)
    requires IsSorted(s)
    ensures IsSorted(Insert(p, s))
    decreases |s|
  {
    var r := Insert(p, s);
    ParamsAreOrdered(p, p);
    if s == [] {
      assert r[1..] == [];
    } else if Le(p, s[0]) {
      assert r[1..] == s;
      forall q | q in s ensures Le(p, q) {
        ParamsTransitive(p, s[0], q);
      }
    } else {
      var rest := Insert(p, s[1..]);
      ParamsAreOrdered(p, s[0]);
      InsertSorts(p, s[1..]);
      assert r[1..] == rest;
      forall q | q in r ensures Le(s[0], q) {
        if q != s[0] {
          assert q in multiset(rest);
          assert q == p || q in multiset(s[1..]);
        }
      }
    }
  }

  lemma {:induction false} SortedSorts(s: seq<Param>)
    ensures IsSorted(Sorted(s))
    decreases |s|
  {
    if s != [] {
      SortedSorts(s[1..]);
      InsertSorts(s[0], Sorted(s[1..]));
    }
  }

  lemma RestOf(s: seq<Param>)
    requires s != []
    ensures multiset(s[1..]) == multiset(s) - multiset{s[0]}
  {
    assert s == [s[0]] + s[1..];
  }

  lemma SameFirst(a: seq<Param>, b: seq<Param>)
    requires a != [] && b != [] && multiset(a) == multiset(b) && IsFirst(a[0], a) && IsFirst(b[0], b)
    ensures a[0] == b[0]
  {
    assert a[0] in multiset(b) && b[0] in multiset(a);
    ParamsAreOrdered(a[0], b[0]);
  }

  /** There is one way to put a multiset in order. */
  lemma {:induction false} OneOrder(a: seq<Param>, b: seq<Param>)
    requires IsSorted(a) && IsSorted(b) && multiset(a) == multiset(b)
    ensures a == b
    decreases |a|
  {
    assert |a| == |multiset(a)| == |multiset(b)| == |b|;
    if a != [] {
      SameFirst(a, b);
      RestOf(a);
      RestOf(b);
      OneOrder(a[1..], b[1..]);
      assert a == [a[0]] + a[1..] && b == [b[0]] + b[1..];
    }
  }

  // ---------------------------------------------------------------------
  // The canonical query
  // ---------------------------------------------------------------------

  function PairText(p: Param): Bytes {
    PercentEncoded(p.0) + [EQ] + PercentEncoded(p.1)
  }

  function PairTexts(s: seq<Param>): (r: seq<Bytes>)
    ensures |r| == |s|
  {
    if s == [] then [] else [PairText(s[0])] + PairTexts(s[1..])
  }

  /** The text that is signed. */
  function Canonical(params: seq<Param>): Bytes {
    Join(AMP, PairTexts(Sorted(params)))
  }

  function IndexOf(c: bv8, s: Bytes): (i: nat)
    ensures i <= |s|
  {
    if s == [] || s[0] == c then 0 else IndexOf(c, s[1..]) + 1
  }

  lemma {:induction false} IndexOfSeparator(c: bv8, a: Bytes, b: Bytes)
    requires c !in a && (b == [] || b[0] == c)
    ensures IndexOf(c, a + b) == |a|
    decreases |a|
  {
    if a == [] {
      assert a + b == b;
    } else {
      IndexOfSeparator(c, a[1..], b);
      assert (a + b)[1..] == a[1..] + b;
    }
  }

  /** What follows the separator at `i`, if there is one. */
  function After(s: Bytes, i: nat): Bytes
    requires i <= |s|
  {
    if i < |s| then s[i + 1..] else []
  }

  function ReadPair(piece: Bytes): Param {
    var i := IndexOf(EQ, piece);
    (PercentDecoded(piece[..i]), PercentDecoded(After(piece, i)))
  }

  /** A reader of query strings. */
  function ReadQuery(s: Bytes): seq<Param>
    decreases |s|
  {
    if s == [] then []
    else
      var i := IndexOf(AMP, s);
      [ReadPair(s[..i])] + ReadQuery(After(s, i))
  }

  lemma PairIsRead(p: Param)
    ensures ReadPair(PairText(p)) == p
  {
    var name, value := PercentEncoded(p.0), PercentEncoded(p.1);
    NoSeparators(p.0);
    IndexOfSeparator(EQ, name, [EQ] + value);
    assert PairText(p) == name + ([EQ] + value);
    assert PairText(p)[..|name|] == name && PairText(p)[|name| + 1..] == value;
    DecodeUndoesEncode(p.0);
    DecodeUndoesEncode(p.1);
  }

  lemma PairIsAPiece(p: Param)
    ensures PairText(p) != [] && AMP !in PairText(p)
  {
    NoSeparators(p.0);
    NoSeparators(p.1);
  }

  /** The first piece is split off where an ampersand follows. */
  lemma FirstPiece(text: Bytes, rest: Bytes)
    requires text != [] && AMP !in text && (rest == [] || rest[0] == AMP)
    ensures ReadQuery(text + rest) == [ReadPair(text)] + ReadQuery(After(rest, 0))
  {
    var s := text + rest;
    IndexOfSeparator(AMP, text, rest);
    assert s[..|text|] == text;
    assert After(s, |text|) == After(rest, 0);
  }

  lemma LastPiece(text: Bytes)
    requires text != [] && AMP !in text
    ensures ReadQuery(text) == [ReadPair(text)]
  {
    FirstPiece(text, []);
    assert text + [] == text;
  }

  /** Reading the joined pairs gives back the parameters. */
  lemma {:induction false} QueryIsRead(s: seq<Param>)
    ensures ReadQuery(Join(AMP, PairTexts(s))) == s
    decreases |s|
  {
    if s != [] {
      var text, texts := PairText(s[0]), PairTexts(s[1..]);
      PairIsAPiece(s[0]);
      PairIsRead(s[0]);
      QueryIsRead(s[1..]);
      JoinPair(s, text, texts);
      if |s| == 1 {
        LastPiece(text);
      } else {
        var rest := Join(AMP, texts);
        FirstPiece(text, [AMP] + rest);
        assert After([AMP] + rest, 0) == rest;
      }
      assert s == [s[0]] + s[1..];
    }
  }

  lemma JoinPair(s: seq<Param>, text: Bytes, texts: seq<Bytes>)
    requires s != [] && text == PairText(s[0]) && texts == PairTexts(s[1..])
    ensures Join(AMP, PairTexts(s)) == if |s| == 1 then text else text + ([AMP] + Join(AMP, texts))
  {
    assert PairTexts(s)[0] == text && PairTexts(s)[1..] == texts;
  }

  /** The canonical query depends on the parameters, not on their order, and on all of them. */
  lemma CanonicalDecides(a: seq<Param>, b: seq<Param>)
    ensures Canonical(a) == Canonical(b) <==> multiset(a) == multiset(b)
  {
    if multiset(a) == multiset(b) {
      SortedSorts(a);
      SortedSorts(b);
      OneOrder(Sorted(a), Sorted(b));
    }
    if Canonical(a) == Canonical(b) {
      QueryIsRead(Sorted(a));
      QueryIsRead(Sorted(b));
    }
  }

  // ---------------------------------------------------------------------
  // Signatures
  // ---------------------------------------------------------------------

  function HexWritten(b: bv8): Bytes {
    [HexDigit(b >> 4, 0x61), HexDigit(b & 0xF, 0x61)]
  }

  function HexEncoded(bytes: Bytes): Bytes {
    FlatMap(HexWritten, bytes)
  }

  /** `hex_encode`. */
  method HexEncode(bytes: Bytes) returns (out: Bytes)
    ensures out == HexEncoded(bytes)
  {
    out := [];
    for i := 0 to |bytes|
      invariant out == FlatMap(HexWritten, bytes[..i])
    {
      FlatMapStep(HexWritten, bytes, i);
      out := out + [HexDigit(bytes[i] >> 4, 0x61)];
      out := out + [HexDigit(bytes[i] & 0xF, 0x61)];
    }
    assert bytes[..|bytes|] == bytes;
  }

  lemma {:induction false} HexAt(bytes: Bytes, i: nat)
    requires i < |bytes|
    ensures |HexEncoded(bytes)| == 2 * |bytes|
    ensures HexEncoded(bytes)[2 * i..2 * i + 2] == HexWritten(bytes[i])
    decreases |bytes|
  {
    var first, rest, all := HexWritten(bytes[0]), HexEncoded(bytes[1..]), HexEncoded(bytes);
    assert all == first + rest;
    if |bytes| > 1 {
      HexAt(bytes[1..], if i > 0 then i - 1 else 0);
    }
    if i > 0 {
      assert all[2 * i..2 * i + 2] == rest[2 * (i - 1)..2 * (i - 1) + 2];
    }
  }

  lemma HexDigitsOf(b: bv8)
    ensures var w := HexWritten(b);
            |w| == 2 && IsLowerHex(w[0]) && IsLowerHex(w[1]) && (HexValue(w[0]) << 4) | HexValue(w[1]) == b
  {
    HexRoundTrip(b, 0x61);
    HexDigitCase(b >> 4);
    HexDigitCase(b & 0xF);
  }

  /** Two lower-case digits per byte, the high one first. */
  lemma HexTextIs(bytes: Bytes, i: nat)
    requires i < |bytes|
    ensures |HexEncoded(bytes)| == 2 * |bytes|
    ensures var w := HexEncoded(bytes)[2 * i..2 * i + 2];
            IsLowerHex(w[0]) && IsLowerHex(w[1]) && (HexValue(w[0]) << 4) | HexValue(w[1]) == bytes[i]
  {
    HexAt(bytes, i);
    HexDigitsOf(bytes[i]);
  }

  lemma {:induction false} HexIsInjective(a: Bytes, b: Bytes)
    requires HexEncoded(a) == HexEncoded(b)
    ensures a == b
    decreases |a|
  {
    var s, t := HexEncoded(a), HexEncoded(b);
    if a != [] && b != [] {
      HexRoundTrip(a[0], 0x61);
      HexRoundTrip(b[0], 0x61);
      assert s[0] == HexWritten(a[0])[0] && t[0] == HexWritten(b[0])[0];
      assert s[1] == HexWritten(a[0])[1] && t[1] == HexWritten(b[0])[1];
      assert s[2..] == HexEncoded(a[1..]) && t[2..] == HexEncoded(b[1..]);
      HexIsInjective(a[1..], b[1..]);
      assert a == [a[0]] + a[1..] && b == [b[0]] + b[1..];
    }
  }

  /** `sign_query`. */
  function Signature(mac: Mac, secret: Bytes, params: seq<Param>): Bytes {
    HexEncoded(mac(secret, Canonical(params)))
  }

  lemma DiffGrows(diff: bv8, x: bv8, y: bv8)
    ensures diff | (x ^ y) == 0 <==> diff == 0 && x == y
  {}

  /** `constant_time_eq` looks at every byte and decides equality. */
  method ConstantTimeEq(a: Bytes, b: Bytes) returns (r: bool)
    ensures r <==> a == b
  {
    if |a| != |b| {
      return false;
    }
    var diff: bv8 := 0;
    for i := 0 to |a|
      invariant diff == 0 <==> a[..i] == b[..i]
    {
      DiffGrows(diff, a[i], b[i]);
      assert a[..i + 1] == a[..i] + [a[i]] && b[..i + 1] == b[..i] + [b[i]];
      diff := diff | (a[i] ^ b[i]);
    }
    assert a[..|a|] == a && b[..|b|] == b;
    r := diff == 0;
  }

  /** `verify_query`. */
  method VerifyQuery(mac: Mac, secret: Bytes, params: seq<Param>, signature: Bytes) returns (ok: bool)
    ensures ok <==> signature == Signature(mac, secret, params)
  {
    ok := ConstantTimeEq(Signature(mac, secret, params), signature);
  }

  /**
   * A signature made for one list of parameters passes for another exactly
   * when they are the same parameters in some order, or the MAC gives two
   * different messages the same code.
   */
  lemma SignaturesAgree(mac: Mac, secret: Bytes, a: seq<Param>, b: seq<Param>)
    ensures Signature(mac, secret, a) == Signature(mac, secret, b)
       <==> (|| multiset(a) == multiset(b)
             || (Canonical(a) != Canonical(b) && mac(secret, Canonical(a)) == mac(secret, Canonical(b))))
  {
    CanonicalDecides(a, b);
    if Signature(mac, secret, a) == Signature(mac, secret, b) {
      HexIsInjective(mac(secret, Canonical(a)), mac(secret, Canonical(b)));
    }
  }

  // ---------------------------------------------------------------------
  // Cast tokens
  // ---------------------------------------------------------------------

  /** "video_id", "cast_uid" and "cast_exp". */
  const VIDEO_ID: Bytes := [0x76, 0x69, 0x64, 0x65, 0x6F, 0x5F, 0x69, 0x64]
  const CAST_UID: Bytes := [0x63, 0x61, 0x73, 0x74, 0x5F, 0x75, 0x69, 0x64]
  const CAST_EXP: Bytes := [0x63, 0x61, 0x73, 0x74, 0x5F, 0x65, 0x78, 0x70]

  /** The bytes of an ASCII text. */
  function Ascii(s: string): (r: Bytes)
    requires forall i | 0 <= i < |s| :: s[i] as int < 128
    ensures |r| == |s|
  {
    seq(|s|, i requires 0 <= i < |s| => s[i] as int as bv8)
  }

  lemma IsAscii(name: Bytes, s: string)
    requires |name| == |s| && forall i | 0 <= i < |s| :: s[i] as int < 128 && name[i] as int == s[i] as int
    ensures name == Ascii(s)
  {
    forall i | 0 <= i < |s| ensures name[i] == Ascii(s)[i] {}
  }

  /** The parameters' names. */
  lemma NamesAre()
    ensures VIDEO_ID == Ascii("video_id") && CAST_UID == Ascii("cast_uid") && CAST_EXP == Ascii("cast_exp")
  {
    IsAscii(VIDEO_ID, "video_id");
    IsAscii(CAST_UID, "cast_uid");
    IsAscii(CAST_EXP, "cast_exp");
  }

  function CastParams(video: Bytes, uid: Bytes, exp: Bytes): seq<Param> {
    [(VIDEO_ID, video), (CAST_UID, uid), (CAST_EXP, exp)]
  }

  /** The token `build_cast_manifest_url` puts into the URL. */
  function CastToken(mac: Mac, secret: Bytes, video: Bytes, uid: Bytes, exp: Bytes): Bytes {
    Signature(mac, secret, CastParams(video, uid, exp))
  }

  /** `verify_cast_token`, with `read` for the parsing of a 64-bit integer. */
  function VerifyCastToken(mac: Mac, read: Bytes -> Option<int>, secret: Bytes,
      video: Bytes, uid: Bytes, exp: Bytes, token: Bytes, now: int): Option<int>
  {
    match read(exp)
    case None => None
    case Some(expiry) =>
      if expiry <= now then None
      else
        match read(uid)
        case None => None
        case Some(child) =>
          if token == Signature(mac, secret, CastParams(video, uid, exp)) then Some(child) else None
  }

  lemma CastParamsDecide(video: Bytes, uid: Bytes, exp: Bytes, video': Bytes, uid': Bytes, exp': Bytes)
    requires multiset(CastParams(video, uid, exp)) == multiset(CastParams(video', uid', exp'))
    ensures video == video' && uid == uid' && exp == exp'
  {
    var a, b := CastParams(video, uid, exp), CastParams(video', uid', exp');
    assert VIDEO_ID[0] != CAST_UID[0] && VIDEO_ID[0] != CAST_EXP[0] && CAST_UID[5] != CAST_EXP[5];
    assert a[0] in multiset(b) && a[1] in multiset(b) && a[2] in multiset(b);
  }

  /**
   * A token minted for one viewer is accepted, for any video, viewer and
   * expiry, only until that expiry and only for the ones it was minted for,
   * unless the MAC gives two different messages the same code.
   */
  lemma CastTokenIsBound(mac: Mac, read: Bytes -> Option<int>, secret: Bytes,
      video: Bytes, uid: Bytes, exp: Bytes, video': Bytes, uid': Bytes, exp': Bytes, now: int)
    requires var m, m' := Canonical(CastParams(video, uid, exp)), Canonical(CastParams(video', uid', exp'));
      m != m' ==> mac(secret, m) != mac(secret, m')
    ensures VerifyCastToken(mac, read, secret, video', uid', exp', CastToken(mac, secret, video, uid, exp), now)
         == if video' == video && uid' == uid && exp' == exp && read(exp).Some? && now < read(exp).value
            then read(uid) else None
  {
    var a, b := CastParams(video, uid, exp), CastParams(video', uid', exp');
    SignaturesAgree(mac, secret, a, b);
    if multiset(a) == multiset(b) {
      CastParamsDecide(video, uid, exp, video', uid', exp');
    }
  }
}
