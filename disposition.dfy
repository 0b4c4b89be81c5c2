/**
 * The file name carried by a download's `Content-Disposition` header.
 * The server writes the quoted-string form `filename="n"` of section 4.1
 * of RFC 6266 when percent-encoding leaves the name unchanged, and the
 * extended form `filename*=utf-8''...` (the ext-value of section 3.2 of
 * RFC 5987) otherwise. The client reads it back with two regular
 * expressions, the extended one first, and percent-decodes the capture.
 */
module ContentDisposition {
  import opened Common
  import opened PercentEncoding

  /** The bytes of an ASCII literal. */
  function Bytes(s: string): (r: seq<byte>)
    ensures |r| == |s|
  {
    seq(|s|, i requires 0 <= i < |s| => (s[i] as int % 256) as byte)
  }

  const NEWLINE: byte := 10
  const QUOTE: byte := 34
  const STAR: byte := 42
  const LETTER_F: byte := 102

  const ATTACHMENT: seq<byte> := Bytes("attachment; ")
  /** The literal part of `filename\*=utf-8''(.+)`. */
  const ENCODED_LITERAL: seq<byte> := Bytes("filename*=utf-8''")
  /** The literal part in front of the group of `filename="(.+)"`. */
  const PLAIN_LITERAL: seq<byte> := Bytes("filename=\"")

  const PLAIN_PREFIX: seq<byte> := ATTACHMENT + PLAIN_LITERAL
  const EXTENDED_PREFIX: seq<byte> := ATTACHMENT + ENCODED_LITERAL

  /** The header value `download_file` builds for a stored name: always an attachment disposition. */
  function Header(name: seq<byte>): (h: seq<byte>)
    ensures |h| > |ATTACHMENT| && h[..|ATTACHMENT|] == ATTACHMENT
  {
    var encoded := Quote(name);
    if encoded == name then PLAIN_PREFIX + encoded + [QUOTE]
    else EXTENDED_PREFIX + encoded
  }

  /** The plain form is chosen exactly for names made of unreserved bytes only. */
  lemma HeaderForm(name: seq<byte>)
    ensures AllUnreserved(name) ==> Header(name) == PLAIN_PREFIX + name + [QUOTE]
    ensures !AllUnreserved(name) ==> Header(name) == EXTENDED_PREFIX + Quote(name)
  {
    QuoteIdentity(name);
  }

  // ---- the client's two regular expressions -------------------------------

  /** How many bytes from `from` on `.` matches: everything up to a newline. */
  function RunLength(h: seq<byte>, from: nat): (n: nat)
    requires from <= |h|
    ensures from + n <= |h|
    ensures forall j :: from <= j < from + n ==> h[j] != NEWLINE
    ensures from + n < |h| ==> h[from + n] == NEWLINE
    decreases |h| - from
  {
    if from == |h| || h[from] == NEWLINE then 0 else 1 + RunLength(h, from + 1)
  }

  predicate LiteralAt(h: seq<byte>, i: nat, lit: seq<byte>)
  {
    i + |lit| <= |h| && h[i..i + |lit|] == lit
  }

  /** The group of `filename\*=utf-8''(.+)` when a match starts at `i`. */
  function EncodedMatchAt(h: seq<byte>, i: nat): Option<seq<byte>>
  {
    if LiteralAt(h, i, ENCODED_LITERAL) then
      var start := i + |ENCODED_LITERAL|;
      var n := RunLength(h, start);
      if n >= 1 then Some(h[start..start + n]) else None
    else None
  }

  /**
   * The greedy `(.+)"`: the longest group of 1 to `k` bytes, all inside
   * the newline-free run, that a `"` follows.
   */
  function Backtrack(h: seq<byte>, start: nat, k: nat): (r: Option<nat>)
    requires start + k < |h|
    ensures r.Some? ==> 1 <= r.value <= k && h[start + r.value] == QUOTE
    ensures r.Some? ==> forall p :: start + r.value < p <= start + k ==> h[p] != QUOTE
    ensures r.None? ==> forall p :: start + 1 <= p <= start + k ==> h[p] != QUOTE
  {
    if k == 0 then None
    else if h[start + k] == QUOTE then Some(k)
    else Backtrack(h, start, k - 1)
  }

  /** The group of `filename="(.+)"` when a match starts at `i`. */
  function PlainMatchAt(h: seq<byte>, i: nat): Option<seq<byte>>
  {
    if LiteralAt(h, i, PLAIN_LITERAL) then
      var start := i + |PLAIN_LITERAL|;
      var n := RunLength(h, start);
      if n >= 2 then
        match Backtrack(h, start, n - 1)
        case Some(k) => Some(h[start..start + k])
        case None => None
      else None
    else None
  }

  /**
   * `re.findall(RE_ENCODED_FILENAME, h)[0]`, searching from `i` on: the
   * group of the leftmost position that starts a match, or `None` when no
   * position does.
   */
  function FindEncoded(h: seq<byte>, i: nat): Option<seq<byte>>
    decreases |h| + 1 - i
  {
    if i > |h| then None
    else match EncodedMatchAt(h, i)
      case Some(g) => Some(g)
      case None => FindEncoded(h, i + 1)
  }

  /** The search for the extended expression finds nothing exactly when no position matches. */
  lemma {:induction false} FindEncodedNone(h: seq<byte>, i: nat)
    ensures FindEncoded(h, i).None? <==> forall j :: i <= j <= |h| ==> EncodedMatchAt(h, j).None?
    decreases |h| + 1 - i
  {
    if i <= |h| && EncodedMatchAt(h, i).None? {
      FindEncodedNone(h, i + 1);
    }
  }

  /** What the extended search finds is the group of the leftmost matching position. */
  lemma {:induction false} FindEncodedLeftmost(h: seq<byte>, i: nat)
    ensures FindEncoded(h, i).Some? ==>
              exists j :: i <= j <= |h| && EncodedMatchAt(h, j) == FindEncoded(h, i)
                          && forall k :: i <= k < j ==> EncodedMatchAt(h, k).None?
    decreases |h| + 1 - i
  {
    if i <= |h| && EncodedMatchAt(h, i).None? {
      FindEncodedLeftmost(h, i + 1);
      if FindEncoded(h, i).Some? {
        var j :| i + 1 <= j <= |h| && EncodedMatchAt(h, j) == FindEncoded(h, i + 1)
                 && forall k :: i + 1 <= k < j ==> EncodedMatchAt(h, k).None?;
        assert EncodedMatchAt(h, j) == FindEncoded(h, i);
      }
    }
  }

  /** `re.findall(RE_FILENAME, h)[0]`, searching from `i` on: the group of the leftmost match. */
  function FindPlain(h: seq<byte>, i: nat): Option<seq<byte>>
    decreases |h| + 1 - i
  {
    if i > |h| then None
    else match PlainMatchAt(h, i)
      case Some(g) => Some(g)
      case None => FindPlain(h, i + 1)
  }

  /** The search for the plain expression finds nothing exactly when no position matches. */
  lemma {:induction false} FindPlainNone(h: seq<byte>, i: nat)
    ensures FindPlain(h, i).None? <==> forall j :: i <= j <= |h| ==> PlainMatchAt(h, j).None?
    decreases |h| + 1 - i
  {
    if i <= |h| && PlainMatchAt(h, i).None? {
      FindPlainNone(h, i + 1);
    }
  }

  /** What the plain search finds is the group of the leftmost matching position. */
  lemma {:induction false} FindPlainLeftmost(h: seq<byte>, i: nat)
    ensures FindPlain(h, i).Some? ==>
              exists j :: i <= j <= |h| && PlainMatchAt(h, j) == FindPlain(h, i)
                          && forall k :: i <= k < j ==> PlainMatchAt(h, k).None?
    decreases |h| + 1 - i
  {
    if i <= |h| && PlainMatchAt(h, i).None? {
      FindPlainLeftmost(h, i + 1);
      if FindPlain(h, i).Some? {
        var j :| i + 1 <= j <= |h| && PlainMatchAt(h, j) == FindPlain(h, i + 1)
                 && forall k :: i + 1 <= k < j ==> PlainMatchAt(h, k).None?;
        assert PlainMatchAt(h, j) == FindPlain(h, i);
      }
    }
  }

  /**
   * The file name `download_user_file` takes from the header; `None` is
   * the `APIException` it raises when neither expression matches.
   */
  function ParseDisposition(h: seq<byte>): (r: Option<seq<byte>>)
    ensures r.Some? <==> FindEncoded(h, 0).Some? || FindPlain(h, 0).Some?
    ensures FindEncoded(h, 0).Some? ==> r == Some(Unquote(FindEncoded(h, 0).value))
    ensures FindEncoded(h, 0).None? && FindPlain(h, 0).Some? ==> r == Some(Unquote(FindPlain(h, 0).value))
  {
    match FindEncoded(h, 0)
    case Some(g) => Some(Unquote(g))
    case None =>
      match FindPlain(h, 0)
      case Some(g) => Some(Unquote(g))
      case None => None
  }

  // ---- searching ------------------------------------------------------------

  /** A match of either expression starts with an `f`. */
  lemma {:induction false} SkipEncoded(h: seq<byte>, i: nat, j: nat)
    requires i <= j <= |h|
    requires forall k :: i <= k < j ==> h[k] != LETTER_F
    ensures FindEncoded(h, i) == FindEncoded(h, j)
    decreases j - i
  {
    if i < j {
      assert ENCODED_LITERAL[0] == LETTER_F;
      assert !LiteralAt(h, i, ENCODED_LITERAL);
      SkipEncoded(h, i + 1, j);
    }
  }

  lemma {:induction false} SkipPlain(h: seq<byte>, i: nat, j: nat)
    requires i <= j <= |h|
    requires forall k :: i <= k < j ==> h[k] != LETTER_F
    ensures FindPlain(h, i) == FindPlain(h, j)
    decreases j - i
  {
    if i < j {
      assert PLAIN_LITERAL[0] == LETTER_F;
      assert !LiteralAt(h, i, PLAIN_LITERAL);
      SkipPlain(h, i + 1, j);
    }
  }

  /** Without a `*` in the header the extended expression never matches. */
  lemma {:induction false} NoEncodedWithoutStar(h: seq<byte>, i: nat)
    requires forall k :: 0 <= k < |h| ==> h[k] != STAR
    ensures FindEncoded(h, i) == None
    decreases |h| + 1 - i
  {
    if i <= |h| {
      assert ENCODED_LITERAL[8] == STAR;
      assert !LiteralAt(h, i, ENCODED_LITERAL);
      NoEncodedWithoutStar(h, i + 1);
    }
  }

  /** What the round trip needs to know about the literals. */
  lemma LiteralFacts()
    ensures |ATTACHMENT| == 12 && |PLAIN_LITERAL| == 10 && |ENCODED_LITERAL| == 17
    ensures forall k :: 0 <= k < 12 ==> ATTACHMENT[k] != LETTER_F && ATTACHMENT[k] != STAR
    ensures forall k :: 0 <= k < 10 ==> PLAIN_LITERAL[k] != STAR
    ensures PLAIN_LITERAL[0] == LETTER_F && ENCODED_LITERAL[0] == LETTER_F
    ensures ENCODED_LITERAL[8] == STAR
  {
  }

  // ---- the round trip -------------------------------------------------------

  /** The plain header holds no `*`, so the extended expression finds nothing. */
  lemma PlainHasNoEncoded(name: seq<byte>)
    requires AllUnreserved(name)
    ensures FindEncoded(PLAIN_PREFIX + name + [QUOTE], 0) == None
  {
    LiteralFacts();
    var h := PLAIN_PREFIX + name + [QUOTE];
    assert forall k :: 0 <= k < |h| ==> h[k] != STAR by {
      forall k | 0 <= k < |h| ensures h[k] != STAR {
        if k < 12 { assert h[k] == ATTACHMENT[k]; }
        else if k < 22 { assert h[k] == PLAIN_LITERAL[k - 12]; }
        else if k < 22 + |name| { assert h[k] == name[k - 22] && Unreserved(name[k - 22]); }
      }
    }
    NoEncodedWithoutStar(h, 0);
  }

  /** Where the parts of a plain-form header lie. */
  lemma PlainLayout(name: seq<byte>)
    requires AllUnreserved(name)
    ensures var h := PLAIN_PREFIX + name + [QUOTE];
            && |h| == 23 + |name|
            && (forall k :: 0 <= k < 12 ==> h[k] != LETTER_F)
            && (forall k :: 13 <= k < 22 ==> h[k] != LETTER_F)
            && h[12..22] == PLAIN_LITERAL
            && h[22..22 + |name|] == name && h[22 + |name|] == QUOTE
            && (forall k :: 22 <= k < |h| ==> h[k] != NEWLINE)
  {
    LiteralFacts();
    var h := PLAIN_PREFIX + name + [QUOTE];
    forall k | 0 <= k < 12 ensures h[k] != LETTER_F { assert h[k] == ATTACHMENT[k]; }
    forall k | 13 <= k < 22 ensures h[k] != LETTER_F { assert h[k] == PLAIN_LITERAL[k - 12]; }
    forall k | 22 <= k < |h| ensures h[k] != NEWLINE {
      if k < 22 + |name| { assert h[k] == name[k - 22] && Unreserved(name[k - 22]); }
    }
  }

  /** The search over a header laid out as the plain form, for a name of length `m`. */
  lemma PlainSearch(h: seq<byte>, m: nat)
    requires |h| == 23 + m
    requires forall k :: 0 <= k < 12 ==> h[k] != LETTER_F
    requires forall k :: 13 <= k < 22 ==> h[k] != LETTER_F
    requires h[12..22] == PLAIN_LITERAL && h[22 + m] == QUOTE
    requires forall k :: 22 <= k < |h| ==> h[k] != NEWLINE
    ensures m > 0 ==> FindPlain(h, 0) == Some(h[22..22 + m])
    ensures m == 0 ==> FindPlain(h, 0) == None
  {
    SkipPlain(h, 0, 12);
    assert LiteralAt(h, 12, PLAIN_LITERAL);
    var n := RunLength(h, 22);
    assert n == m + 1;
    if m > 0 {
      assert Backtrack(h, 22, n - 1) == Some(m);
    } else {
      assert PlainMatchAt(h, 12) == None;
      SkipPlain(h, 13, 22);
      assert !LiteralAt(h, 22, PLAIN_LITERAL);
      assert !LiteralAt(h, 23, PLAIN_LITERAL);
      assert FindPlain(h, 24) == None;
    }
  }

  /** The plain expression captures the name, when there is one. */
  lemma PlainMatch(name: seq<byte>)
    requires AllUnreserved(name)
    ensures name != [] ==> FindPlain(PLAIN_PREFIX + name + [QUOTE], 0) == Some(name)
    ensures name == [] ==> FindPlain(PLAIN_PREFIX + name + [QUOTE], 0) == None
  {
    PlainLayout(name);
    PlainSearch(PLAIN_PREFIX + name + [QUOTE], |name|);
  }

  lemma PlainRoundTrip(name: seq<byte>)
    requires AllUnreserved(name)
    ensures name != [] ==> ParseDisposition(Header(name)) == Some(name)
    ensures name == [] ==> ParseDisposition(Header(name)) == None
  {
    HeaderForm(name);
    PlainHasNoEncoded(name);
    PlainMatch(name);
    assert forall k :: 0 <= k < |name| ==> name[k] != PERCENT;
    UnquoteWithoutPercent(name);
  }

  /** The search over a header laid out as the extended form, for a non-empty, newline-free value `q`. */
  lemma EncodedSearch(h: seq<byte>, q: seq<byte>)
    requires |h| == 29 + |q| && |q| > 0
    requires forall k :: 0 <= k < 12 ==> h[k] != LETTER_F
    requires h[12..29] == ENCODED_LITERAL && h[29..] == q
    requires forall k :: 0 <= k < |q| ==> q[k] != NEWLINE
    ensures FindEncoded(h, 0) == Some(q)
  {
    SkipEncoded(h, 0, 12);
    assert LiteralAt(h, 12, ENCODED_LITERAL);
    forall k | 29 <= k < |h| ensures h[k] != NEWLINE { assert h[k] == q[k - 29]; }
    var n := RunLength(h, 29);
    assert n == |q|;
    assert h[29..29 + |q|] == q;
  }

  lemma ExtendedRoundTrip(name: seq<byte>)
    requires !AllUnreserved(name)
    ensures ParseDisposition(Header(name)) == Some(name)
  {
    HeaderForm(name);
    LiteralFacts();
    var q := Quote(name);
    var h := ATTACHMENT + (ENCODED_LITERAL + q);
    assert h == Header(name);
    QuoteLength(name);
    forall k | 0 <= k < 12 ensures h[k] != LETTER_F { assert h[k] == ATTACHMENT[k]; }
    assert h[12..29] == ENCODED_LITERAL;
    assert h[29..] == q;
    EncodedSearch(h, q);
    UnquoteQuote(name);
  }

  /**
   * Reading back the header the server writes gives the stored name for
   * every non-empty name; for the empty name `filename=""` matches
   * neither expression and the client raises.
   */
  lemma DispositionRoundTrip(name: seq<byte>)
    ensures name != [] ==> ParseDisposition(Header(name)) == Some(name)
    ensures name == [] ==> ParseDisposition(Header(name)) == None
  {
    if AllUnreserved(name) {
      PlainRoundTrip(name);
    } else {
      ExtendedRoundTrip(name);
    }
  }
}
