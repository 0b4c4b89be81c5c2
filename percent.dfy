/**
 * Percent-encoding as the server's `urllib.parse.quote` and the client's
 * `urllib.parse.unquote` apply it to a file name (section 2.1 of RFC 3986).
 * Names are handled as their UTF-8 bytes: `quote` encodes the name to
 * UTF-8 and escapes every byte outside the unreserved set, and `unquote`
 * turns each `%XY` with two hexadecimal digits back into one byte and
 * keeps every other byte as it is.
 */
module PercentEncoding {
  import opened Common

  const PERCENT: byte := 37

  predicate IsHexDigit(b: byte)
  {
    48 <= b <= 57 || 65 <= b <= 70 || 97 <= b <= 102
  }

  function HexValue(b: byte): (v: nat)
    requires IsHexDigit(b)
    ensures v < 16
  {
    if b <= 57 then (b - 48) as nat
    else if b <= 70 then (b - 55) as nat
    else (b - 87) as nat
  }

  /** The upper-case digit `quote` writes (`%2F`, never `%2f`). */
  function HexDigit(v: nat): (b: byte)
    requires v < 16
    ensures IsHexDigit(b) && HexValue(b) == v
  {
    if v < 10 then (48 + v) as byte else (55 + v) as byte
  }

  /**
   * Bytes `quote` leaves alone: ASCII letters and digits, `_ . - ~`, and
   * `/`, the default `safe` character.
   */
  predicate Unreserved(b: byte)
  {
    || 65 <= b <= 90 || 97 <= b <= 122 || 48 <= b <= 57
    || b == 95 || b == 46 || b == 45 || b == 126
    || b == 47
  }

  function QuoteByte(b: byte): seq<byte>
  {
    if Unreserved(b) then [b] else [PERCENT, HexDigit(b as nat / 16), HexDigit(b as nat % 16)]
  }

  /**
   * `quote(name)`: never shorter than the name, and made only of
   * unreserved bytes and `%`.
   */
  function Quote(s: seq<byte>): (q: seq<byte>)
    ensures |q| >= |s|
    ensures forall i :: 0 <= i < |q| ==> Unreserved(q[i]) || q[i] == PERCENT
  {
    if s == [] then [] else QuoteByte(s[0]) + Quote(s[1..])
  }

  /** `unquote(text)`, on the bytes of the text: decoding never lengthens a text. */
  function Unquote(s: seq<byte>): (u: seq<byte>)
    ensures |u| <= |s|
    ensures s != [] ==> u != []
  {
    if s == [] then []
    else if |s| >= 3 && s[0] == PERCENT && IsHexDigit(s[1]) && IsHexDigit(s[2]) then
      [(HexValue(s[1]) * 16 + HexValue(s[2])) as byte] + Unquote(s[3..])
    else
      [s[0]] + Unquote(s[1..])
  }

  predicate AllUnreserved(s: seq<byte>)
  {
    forall i :: 0 <= i < |s| ==> Unreserved(s[i])
  }

  /** `quote` lengthens a name when it escapes something. */
  lemma {:induction false} QuoteLength(s: seq<byte>)
    ensures !AllUnreserved(s) ==> |Quote(s)| > |s|
  {
    if s != [] {
      QuoteLength(s[1..]);
      if !AllUnreserved(s) && Unreserved(s[0]) {
        var i :| 0 <= i < |s| && !Unreserved(s[i]);
        assert !Unreserved(s[1..][i - 1]);
      }
    }
  }

  /** `quote(n) == n` exactly when every byte of `n` is unreserved. */
  lemma {:induction false} QuoteIdentity(s: seq<byte>)
    ensures Quote(s) == s <==> AllUnreserved(s)
  {
    if s == [] {
    } else if AllUnreserved(s) {
      assert AllUnreserved(s[1..]) by {
        forall i | 0 <= i < |s[1..]| ensures Unreserved(s[1..][i]) {
          assert s[1..][i] == s[i + 1];
        }
      }
      QuoteIdentity(s[1..]);
      assert s == [s[0]] + s[1..];
    } else {
      QuoteLength(s);
    }
  }

  /** `unquote` changes nothing in a text without a `%`. */
  lemma {:induction false} UnquoteWithoutPercent(s: seq<byte>)
    requires forall i :: 0 <= i < |s| ==> s[i] != PERCENT
    ensures Unquote(s) == s
  {
    if s != [] {
      UnquoteWithoutPercent(s[1..]);
      assert s == [s[0]] + s[1..];
    }
  }

  /** `unquote(quote(n)) == n` for every name. */
  lemma {:induction false} UnquoteQuote(s: seq<byte>)
    ensures Unquote(Quote(s)) == s
  {
    if s != [] {
      var q := Quote(s);
      var rest := Quote(s[1..]);
      assert q == QuoteByte(s[0]) + rest;
      UnquoteQuote(s[1..]);
      if Unreserved(s[0]) {
        assert q[0] == s[0] && q[1..] == rest;
        assert s[0] != PERCENT;
      } else {
        var hi, lo := s[0] as nat / 16, s[0] as nat % 16;
        assert q[0] == PERCENT && q[1] == HexDigit(hi) && q[2] == HexDigit(lo);
        assert q[3..] == rest;
        assert (HexValue(q[1]) * 16 + HexValue(q[2])) as byte == s[0];
      }
      assert s == [s[0]] + s[1..];
    }
  }
}
