/**
  Pairing-code derivation (src-tauri/src/server.rs).

  A pairing secret has two spellings: the `uuid`, which is the lowercase hex
  encoding of the first four mnemonic words joined by hyphens, and the four
  words themselves. `HashPairingCode` normalises either spelling to the same
  room id. SHA-256 and the BIP-39 mnemonic construction are opaque and are
  passed in as function values.
*/
module Pairing {
  import opened Wrappers

  newtype byte = b: int | 0 <= b < 256

  /** A SHA-256 digest: 32 bytes (FIPS 180-4). */
  type Digest = d: seq<byte> | |d| == 32 witness seq(32, i => 0 as byte)

  // ---------------------------------------------------------------------------
  // UTF-8 (`str::as_bytes`)
  // ---------------------------------------------------------------------------

  /** The UTF-8 encoding of one Unicode scalar value. */
  function Utf8Char(c: char): (r: seq<byte>)
    ensures 1 <= |r| <= 4
    ensures (c as int < 0x80) <==> |r| == 1
    ensures |r| == 1 ==> r[0] as int == c as int
  {
    var n := c as int;
    if n < 0x80 then [n as byte]
    else if n < 0x800 then [(0xC0 + n / 0x40) as byte, (0x80 + n % 0x40) as byte]
    else if n < 0x10000 then [(0xE0 + n / 0x1000) as byte, (0x80 + (n / 0x40) % 0x40) as byte, (0x80 + n % 0x40) as byte]
    else [(0xF0 + n / 0x40000) as byte, (0x80 + (n / 0x1000) % 0x40) as byte, (0x80 + (n / 0x40) % 0x40) as byte, (0x80 + n % 0x40) as byte]
  }

  /** A continuation byte `10xxxxxx`. */
  predicate IsContinuation(b: byte) {
    0x80 <= b < 0xC0
  }

  /** The scalar value a well-formed one-to-four-byte UTF-8 sequence stands for. */
  function ScalarOf(r: seq<byte>): int
    requires 1 <= |r| <= 4
  {
    if |r| == 1 then r[0] as int
    else if |r| == 2 then (r[0] as int - 0xC0) * 0x40 + (r[1] as int - 0x80)
    else if |r| == 3 then (r[0] as int - 0xE0) * 0x1000 + (r[1] as int - 0x80) * 0x40 + (r[2] as int - 0x80)
    else (r[0] as int - 0xF0) * 0x40000 + (r[1] as int - 0x80) * 0x1000 + (r[2] as int - 0x80) * 0x40 + (r[3] as int - 0x80)
  }

  /**
    The multi-byte forms: the length follows the scalar's range, the lead byte
    carries the length marker, the rest are continuation bytes, and the bytes
    decode back to the character.
  */
  lemma Utf8CharDecodes(c: char)
    ensures var r := Utf8Char(c);
      && (|r| == 2 <==> 0x80 <= c as int < 0x800)
      && (|r| == 3 <==> 0x800 <= c as int < 0x10000)
      && (|r| == 4 <==> 0x10000 <= c as int)
      && (|r| == 2 ==> 0xC0 <= r[0] < 0xE0)
      && (|r| == 3 ==> 0xE0 <= r[0] < 0xF0)
      && (|r| == 4 ==> 0xF0 <= r[0] < 0xF8)
      && (forall k | 1 <= k < |r| :: IsContinuation(r[k]))
      && ScalarOf(r) == c as int
  {
    var n := c as int;
    var b3, m := n % 0x40, n / 0x40;
    var b2, k := m % 0x40, m / 0x40;
    var b1, j := k % 0x40, k / 0x40;
    assert n == m * 0x40 + b3 && m == k * 0x40 + b2 && k == j * 0x40 + b1;
    SixBitsDown(n, m, b3, k, b2, j, b1);
  }

  /** Peeling six bits at a time gives the same digits as dividing by 2^12 and 2^18 at once. */
  lemma SixBitsDown(n: int, m: int, b3: int, k: int, b2: int, j: int, b1: int)
    requires 0 <= n && 0 <= b3 < 0x40 && 0 <= b2 < 0x40 && 0 <= b1 < 0x40
    requires n == m * 0x40 + b3 && m == k * 0x40 + b2 && k == j * 0x40 + b1
    ensures n / 0x40 == m && n % 0x40 == b3
    ensures n / 0x1000 == k && (n / 0x40) % 0x40 == b2
    ensures n / 0x40000 == j && (n / 0x1000) % 0x40 == b1
  {
    assert n == k * 0x1000 + (b2 * 0x40 + b3);
    assert n == j * 0x40000 + (b1 * 0x1000 + b2 * 0x40 + b3);
  }

  function Utf8(s: string): (r: seq<byte>)
    ensures |r| >= |s|
  {
    if s == [] then [] else Utf8Char(s[0]) + Utf8(s[1..])
  }

  predicate IsAscii(s: string) {
    forall i | 0 <= i < |s| :: s[i] as int < 0x80
  }

  /** For ASCII text the bytes are the character codes, one per character. */
  lemma {:induction false} Utf8OfAscii(s: string)
    requires IsAscii(s)
    ensures |Utf8(s)| == |s|
    ensures forall i | 0 <= i < |s| :: Utf8(s)[i] as int == s[i] as int
  {
    if s != [] {
      Utf8OfAscii(s[1..]);
    }
  }

  // ---------------------------------------------------------------------------
  // Lowercase Base16 (`hex::encode`, section 8 of RFC 4648)
  // ---------------------------------------------------------------------------

  predicate IsHexDigit(c: char) {
    ('0' <= c <= '9') || ('a' <= c <= 'f')
  }

  predicate IsLowerHex(s: string) {
    forall i | 0 <= i < |s| :: IsHexDigit(s[i])
  }

  /** The lowercase digit for a nibble. */
  function HexDigit(n: nat): (c: char)
    requires n < 16
    ensures IsHexDigit(c)
  {
    if n < 10 then ('0' as int + n) as char else ('a' as int + n - 10) as char
  }

  function HexEncode(bytes: seq<byte>): (r: string)
    ensures |r| == 2 * |bytes|
    ensures IsLowerHex(r)
  {
    if bytes == [] then ""
    else [HexDigit(bytes[0] as int / 16), HexDigit(bytes[0] as int % 16)] + HexEncode(bytes[1..])
  }

  /** The nibble a lowercase digit stands for; the inverse of `HexDigit`. */
  function HexValue(c: char): (r: Option<nat>)
    ensures r.Some? <==> IsHexDigit(c)
    ensures r.Some? ==> r.value < 16 && HexDigit(r.value) == c
  {
    if '0' <= c <= '9' then Some(c as int - '0' as int)
    else if 'a' <= c <= 'f' then Some(c as int - 'a' as int + 10)
    else None
  }

  /** The inverse of `HexEncode`: pairs of lowercase digits back to bytes. */
  function HexDecode(s: string): Option<seq<byte>>
    decreases |s|
  {
    if |s| < 2 then (if s == [] then Some([]) else None)
    else
      var hi := HexValue(s[0]);
      var lo := HexValue(s[1]);
      var rest := HexDecode(s[2..]);
      if hi.Some? && lo.Some? && rest.Some? then Some([(hi.value * 16 + lo.value) as byte] + rest.value)
      else None
  }

  lemma {:induction false} HexRoundTrip(bytes: seq<byte>)
    ensures HexDecode(HexEncode(bytes)) == Some(bytes)
  {
    if bytes != [] {
      var e := HexEncode(bytes);
      var b := bytes[0] as int;
      assert e[2..] == HexEncode(bytes[1..]);
      assert HexValue(e[0]) == Some(b / 16);
      assert HexValue(e[1]) == Some(b % 16);
      HexRoundTrip(bytes[1..]);
      assert [bytes[0]] + bytes[1..] == bytes;
    }
  }

  // ---------------------------------------------------------------------------
  // The sanitiser: `to_lowercase().trim().replace(" ", "-")`
  // ---------------------------------------------------------------------------

  function AsciiLower(c: char): char {
    if 'A' <= c <= 'Z' then (c as int + 32) as char else c
  }

  predicate HasNoUpper(s: string) {
    forall i | 0 <= i < |s| :: !('A' <= s[i] <= 'Z')
  }

  /** `to_lowercase`, restricted to the ASCII letters. */
  function ToLowercase(s: string): (r: string)
    ensures |r| == |s| && HasNoUpper(r)
    ensures forall i | 0 <= i < |s| && 'A' <= s[i] <= 'Z' :: r[i] as int == s[i] as int + 32
    ensures forall i | 0 <= i < |s| && !('A' <= s[i] <= 'Z') :: r[i] == s[i]
  {
    if s == [] then [] else [AsciiLower(s[0])] + ToLowercase(s[1..])
  }

  /** The characters with the Unicode White_Space property. */
  const Whitespace: string := "\U{0009}\U{000A}\U{000B}\U{000C}\U{000D}\U{0020}\U{0085}\U{00A0}\U{1680}"
    + "\U{2000}\U{2001}\U{2002}\U{2003}\U{2004}\U{2005}\U{2006}\U{2007}\U{2008}\U{2009}\U{200A}"
    + "\U{2028}\U{2029}\U{202F}\U{205F}\U{3000}"

  /** `c` occurs in `chars`, looked up one character at a time. */
  predicate InClass(c: char, chars: string)
    decreases |chars|
  {
    chars != [] && (chars[0] == c || InClass(c, chars[1..]))
  }

  lemma {:induction false} InClassIsMembership(c: char, chars: string)
    ensures InClass(c, chars) <==> c in chars
    decreases |chars|
  {
    if chars != [] {
      InClassIsMembership(c, chars[1..]);
      assert chars == [chars[0]] + chars[1..];
    }
  }

  /** `char::is_whitespace`. */
  predicate IsWhitespace(c: char) {
    InClass(c, Whitespace)
  }

  lemma SpaceIsWhitespace()
    ensures IsWhitespace(' ')
  {
    InClassIsMembership(' ', Whitespace);
    assert Whitespace[5] == ' ';
  }

  /** No printable ASCII character is white space. */
  lemma PrintableIsNotWhitespace(c: char)
    requires '!' <= c <= '~'
    ensures !IsWhitespace(c)
  {
    InClassIsMembership(c, Whitespace);
  }

  /** Where `trim_start` stops: the first index from `from` on whose character is not white space, or `|s|`. */
  function SkipStart(s: string, from: nat): (k: nat)
    requires from <= |s|
    ensures from <= k <= |s|
    ensures forall i | from <= i < k :: IsWhitespace(s[i])
    ensures k < |s| ==> !IsWhitespace(s[k])
    decreases |s| - from
  {
    if from < |s| && IsWhitespace(s[from]) then SkipStart(s, from + 1) else from
  }

  /** Where `trim_end` stops on `s[lo..hi]`: just after its last character that is not white space, or `lo`. */
  function SkipEnd(s: string, lo: nat, hi: nat): (e: nat)
    requires lo <= hi <= |s|
    ensures lo <= e <= hi
    ensures forall i | e <= i < hi :: IsWhitespace(s[i])
    ensures e > lo ==> !IsWhitespace(s[e - 1])
    decreases hi - lo
  {
    if lo < hi && IsWhitespace(s[hi - 1]) then SkipEnd(s, lo, hi - 1) else hi
  }

  predicate IsBlank(s: string) {
    forall i | 0 <= i < |s| :: IsWhitespace(s[i])
  }

  /** Where the trimmed text starts. */
  function StartIndex(s: string): (k: nat)
    ensures k <= |s|
  {
    SkipStart(s, 0)
  }

  /** Where the trimmed text ends. */
  function EndIndex(s: string): (e: nat)
    ensures StartIndex(s) <= e <= |s|
  {
    SkipEnd(s, StartIndex(s), |s|)
  }

  /** `str::trim`: peel white space off the start, then off the end. */
  function Trim(s: string): (r: string)
    ensures r == [] <==> IsBlank(s)
    ensures r != [] ==> !IsWhitespace(r[0]) && !IsWhitespace(r[|r| - 1])
    ensures s != [] && !IsWhitespace(s[0]) && !IsWhitespace(s[|s| - 1]) ==> r == s
  {
    var k, e := StartIndex(s), EndIndex(s);
    assert e == k ==> k == |s|;
    s[k..e]
  }

  lemma BlankPrefix(s: string, k: nat)
    requires k <= |s| && forall i | 0 <= i < k :: IsWhitespace(s[i])
    ensures IsBlank(s[..k])
  {
    forall i | 0 <= i < k ensures IsWhitespace(s[..k][i]) {
      assert s[..k][i] == s[i];
    }
  }

  lemma BlankSuffix(s: string, e: nat)
    requires e <= |s| && forall i | e <= i < |s| :: IsWhitespace(s[i])
    ensures IsBlank(s[e..])
  {
    forall i | 0 <= i < |s| - e ensures IsWhitespace(s[e..][i]) {
      assert s[e..][i] == s[e + i];
    }
  }

  /** What `Trim` keeps is an infix of its input with only white space around it. */
  lemma TrimKeepsInfix(s: string)
    ensures Trim(s) == s[StartIndex(s)..EndIndex(s)]
    ensures IsBlank(s[..StartIndex(s)]) && IsBlank(s[EndIndex(s)..])
  {
    BlankPrefix(s, StartIndex(s));
    BlankSuffix(s, EndIndex(s));
  }

  function ReplaceSpaces(s: string): (r: string)
    ensures |r| == |s| && ' ' !in r
    ensures forall i | 0 <= i < |s| :: r[i] == if s[i] == ' ' then '-' else s[i]
  {
    if s == [] then [] else [if s[0] == ' ' then '-' else s[0]] + ReplaceSpaces(s[1..])
  }

  /** A string the sanitiser leaves alone. */
  predicate IsSanitized(s: string) {
    && HasNoUpper(s) && ' ' !in s
    && (s != [] ==> !IsWhitespace(s[0]) && !IsWhitespace(s[|s| - 1]))
  }

  lemma {:induction false} ReplaceSpacesAppend(a: string, b: string)
    ensures ReplaceSpaces(a + b) == ReplaceSpaces(a) + ReplaceSpaces(b)
  {
    if a == [] {
      assert a + b == b;
    } else {
      assert (a + b)[0] == a[0];
      assert (a + b)[1..] == a[1..] + b;
      ReplaceSpacesAppend(a[1..], b);
    }
  }

  lemma InfixHasNoUpper(s: string, lo: nat, hi: nat)
    requires HasNoUpper(s) && lo <= hi <= |s|
    ensures HasNoUpper(s[lo..hi])
  {
    forall i | 0 <= i < hi - lo ensures !('A' <= s[lo..hi][i] <= 'Z') {
      assert s[lo..hi][i] == s[lo + i];
    }
  }

  /** Trimming text without capitals and replacing its spaces leaves nothing to sanitise. */
  lemma TrimmedLowerIsSanitized(lower: string)
    requires HasNoUpper(lower)
    ensures IsSanitized(ReplaceSpaces(Trim(lower)))
  {
    var t := Trim(lower);
    assert HasNoUpper(t) by {
      TrimKeepsInfix(lower);
      InfixHasNoUpper(lower, StartIndex(lower), EndIndex(lower));
    }
    var r := ReplaceSpaces(t);
    assert HasNoUpper(r) by {
      forall i | 0 <= i < |r| ensures !('A' <= r[i] <= 'Z') {
        assert r[i] == if t[i] == ' ' then '-' else t[i];
      }
    }
    if r != [] {
      SpaceIsWhitespace();
      assert r[0] == t[0] && r[|r| - 1] == t[|t| - 1];
    }
  }

  /** Lowercase, then trim, then spaces to hyphens, in that order (server.rs:45). */
  function Sanitize(input: string): (r: string)
    ensures IsSanitized(r)
  {
    var lower := ToLowercase(input);
    TrimmedLowerIsSanitized(lower);
    ReplaceSpaces(Trim(lower))
  }

  /** Lowercasing text without capitals changes nothing. */
  lemma LowercaseKeepsLower(s: string)
    requires HasNoUpper(s)
    ensures ToLowercase(s) == s
  {
    var r := ToLowercase(s);
    assert |r| == |s| && forall i | 0 <= i < |s| :: r[i] == s[i];
  }

  /** Lowercase text with no white space at its ends only has its spaces replaced. */
  lemma SanitizeReplacesOnly(s: string)
    requires HasNoUpper(s)
    requires s != [] ==> !IsWhitespace(s[0]) && !IsWhitespace(s[|s| - 1])
    ensures Sanitize(s) == ReplaceSpaces(s)
  {
    LowercaseKeepsLower(s);
    calc {
      Sanitize(s);
      ReplaceSpaces(Trim(ToLowercase(s)));
      ReplaceSpaces(Trim(s));
      { assert Trim(s) == s; }
      ReplaceSpaces(s);
    }
  }

  lemma SanitizeFixes(s: string)
    requires IsSanitized(s)
    ensures Sanitize(s) == s
  {
    SanitizeReplacesOnly(s);
    assert ReplaceSpaces(s) == s;
  }

  /** Sanitising twice is sanitising once, so hashing a sanitised input changes nothing. */
  lemma SanitizeIdempotent(input: string)
    ensures Sanitize(Sanitize(input)) == Sanitize(input)
  {
    SanitizeFixes(Sanitize(input));
  }

  /** Capitals do not matter: the input sanitises as its lowercase form does. */
  lemma SanitizeIgnoresCase(input: string)
    ensures Sanitize(input) == Sanitize(ToLowercase(input))
  {
    LowercaseKeepsLower(ToLowercase(input));
  }

  lemma WhitespaceIsNotUpper(c: char)
    requires IsWhitespace(c)
    ensures !('A' <= c <= 'Z')
  {
    if 'A' <= c <= 'Z' {
      PrintableIsNotWhitespace(c);
    }
  }

  /** `trim` keeps exactly the infix with white space around it and none at its own ends. */
  lemma TrimUnique(s: string, a: nat, b: nat)
    requires a <= b <= |s| && IsBlank(s[..a]) && IsBlank(s[b..])
    requires a < b ==> !IsWhitespace(s[a]) && !IsWhitespace(s[b - 1])
    ensures Trim(s) == s[a..b]
  {
    if a == b {
      forall i | 0 <= i < |s| ensures IsWhitespace(s[i]) {
        if i < a { assert s[..a][i] == s[i]; } else { assert s[b..][i - b] == s[i]; }
      }
    } else {
      assert StartIndex(s) == a;
      assert EndIndex(s) == b;
    }
  }

  /** White space around the text does not change what `trim` keeps. */
  lemma TrimIgnoresPadding(w1: string, x: string, w2: string)
    requires IsBlank(w1) && IsBlank(w2)
    ensures Trim(w1 + x + w2) == Trim(x)
  {
    var s := w1 + x + w2;
    TrimKeepsInfix(x);
    var a, b := |w1| + StartIndex(x), |w1| + EndIndex(x);
    assert s[..a] == w1 + x[..StartIndex(x)];
    assert s[b..] == x[EndIndex(x)..] + w2;
    assert s[a..b] == x[StartIndex(x)..EndIndex(x)];
    if a < b {
      assert s[a] == Trim(x)[0] && s[b - 1] == Trim(x)[|Trim(x)| - 1];
    }
    TrimUnique(s, a, b);
  }

  /** Lowercasing leaves white space alone, so padding and text are lowercased apart. */
  lemma LowercasePadded(w1: string, x: string, w2: string)
    requires IsBlank(w1) && IsBlank(w2)
    ensures ToLowercase(w1 + x + w2) == w1 + ToLowercase(x) + w2
  {
    var u := w1 + x + w2;
    var s, lx := ToLowercase(u), ToLowercase(x);
    var t := w1 + lx + w2;
    assert |s| == |t|;
    forall i | 0 <= i < |s| ensures s[i] == t[i] {
      if i < |w1| {
        assert u[i] == w1[i] && t[i] == w1[i];
        WhitespaceIsNotUpper(w1[i]);
      } else if i < |w1| + |x| {
        assert u[i] == x[i - |w1|] && t[i] == lx[i - |w1|];
      } else {
        assert u[i] == w2[i - |w1| - |x|] && t[i] == w2[i - |w1| - |x|];
        WhitespaceIsNotUpper(w2[i - |w1| - |x|]);
      }
    }
  }

  /**
    White space around the input and its capitals do not matter: padded input
    sanitises as its lowercase text does.
  */
  lemma SanitizeIgnoresPadding(w1: string, x: string, w2: string)
    requires IsBlank(w1) && IsBlank(w2)
    ensures Sanitize(w1 + x + w2) == Sanitize(ToLowercase(x))
  {
    LowercasePadded(w1, x, w2);
    TrimIgnoresPadding(w1, ToLowercase(x), w2);
    LowercaseKeepsLower(ToLowercase(x));
  }

  // ---------------------------------------------------------------------------
  // `split` and `join`
  // ---------------------------------------------------------------------------

  function Occurrences(s: string, c: char): nat {
    if s == [] then 0 else (if s[0] == c then 1 else 0) + Occurrences(s[1..], c)
  }

  /** `[T]::join`: the parts with `sep` between neighbours. */
  function Join(parts: seq<string>, sep: string): string {
    if parts == [] then ""
    else if |parts| == 1 then parts[0]
    else parts[0] + sep + Join(parts[1..], sep)
  }

  /** `str::split(sep)`: the fields between separators, empty ones included. */
  function Split(s: string, sep: char): (r: seq<string>)
    ensures |r| == Occurrences(s, sep) + 1
    ensures forall i | 0 <= i < |r| :: sep !in r[i]
    ensures Join(r, [sep]) == s
    decreases |s|
  {
    if s == [] then [""]
    else
      var rest := Split(s[1..], sep);
      if s[0] == sep then
        assert Join([""] + rest, [sep]) == [sep] + Join(rest, [sep]);
        [""] + rest
      else
        var r := [[s[0]] + rest[0]] + rest[1..];
        assert Join(r, [sep]) == [s[0]] + Join(rest, [sep]) by {
          if |rest| > 1 {
            assert rest[1..] == r[1..];
          }
        }
        r
  }

  lemma {:induction false} OccurrencesAppend(a: string, b: string, c: char)
    ensures Occurrences(a + b, c) == Occurrences(a, c) + Occurrences(b, c)
  {
    if a == [] {
      assert a + b == b;
    } else {
      assert (a + b)[0] == a[0];
      assert (a + b)[1..] == a[1..] + b;
      OccurrencesAppend(a[1..], b, c);
    }
  }

  /** Joining fields free of `sep` with `sep` leaves one separator fewer than there are fields. */
  lemma {:induction false} JoinOccurrences(parts: seq<string>, sep: char)
    requires parts != []
    requires forall i | 0 <= i < |parts| :: Occurrences(parts[i], sep) == 0
    ensures Occurrences(Join(parts, [sep]), sep) == |parts| - 1
  {
    if |parts| > 1 {
      JoinOccurrences(parts[1..], sep);
      OccurrencesAppend(parts[0] + [sep], Join(parts[1..], [sep]), sep);
      OccurrencesAppend(parts[0], [sep], sep);
    }
  }

  lemma {:induction false} AbsentMeansNoOccurrence(s: string, c: char)
    ensures c !in s <==> Occurrences(s, c) == 0
  {
    if s != [] {
      AbsentMeansNoOccurrence(s[1..], c);
      assert s == [s[0]] + s[1..];
    }
  }

  /** `split(sep)` undoes `join` with `sep` when no part holds `sep`. */
  lemma {:induction false} SplitJoin(parts: seq<string>, sep: char)
    requires parts != []
    requires forall i | 0 <= i < |parts| :: sep !in parts[i]
    ensures Split(Join(parts, [sep]), sep) == parts
  {
    forall i | 0 <= i < |parts| ensures Occurrences(parts[i], sep) == 0 {
      AbsentMeansNoOccurrence(parts[i], sep);
    }
    JoinOccurrences(parts, sep);
    SplitUnique(Join(parts, [sep]), sep, parts);
  }

  /** A list of separator-free fields that joins back to `s` is `Split(s)`. */
  lemma {:induction false} SplitUnique(s: string, sep: char, parts: seq<string>)
    requires parts != []
    requires forall i | 0 <= i < |parts| :: sep !in parts[i]
    requires Join(parts, [sep]) == s
    ensures Split(s, sep) == parts
    decreases |s|, |parts[0]|
  {
    if s == [] {
      assert |parts| > 1 ==> |Join(parts, [sep])| >= 1;
    } else if parts[0] == [] {
      assert |parts| > 1;
      assert s == [sep] + Join(parts[1..], [sep]);
      assert s[1..] == Join(parts[1..], [sep]);
      SplitUnique(s[1..], sep, parts[1..]);
    } else {
      var tail := [parts[0][1..]] + parts[1..];
      assert s[0] == parts[0][0];
      assert Join(tail, [sep]) == s[1..] by {
        if |parts| > 1 {
          assert tail[1..] == parts[1..];
        }
      }
      forall i | 0 <= i < |tail| ensures sep !in tail[i] {
        if i == 0 {
          assert forall x | x in parts[0][1..] :: x in parts[0];
        }
      }
      SplitUnique(s[1..], sep, tail);
      assert [parts[0][0]] + parts[0][1..] == parts[0];
    }
  }

  // ---------------------------------------------------------------------------
  // `generate_pairing_codes` and `hash_pairing_code`
  // ---------------------------------------------------------------------------

  datatype PairingCodes = PairingCodes(uuid: string, passphrase: seq<string>)

  const WordCount: nat := 4

  /** `Iterator::take(4)` on the mnemonic's words. */
  function Take(words: seq<string>, n: nat): (r: seq<string>)
    ensures |r| == if |words| < n then |words| else n
    ensures r == words[..|r|]
  {
    if |words| <= n then words else words[..n]
  }

  /**
    `generate_pairing_codes` (server.rs:17-38): `entropy` is the 16 bytes the OS
    generator filled; `fromEntropy` stands for `Mnemonic::from_entropy`, its
    failure carrying the error's text.
  */
  function GeneratePairingCodes(entropy: seq<byte>, fromEntropy: seq<byte> -> Result<seq<string>, string>): (r: Result<PairingCodes, string>)
    requires |entropy| == 16
    ensures fromEntropy(entropy).Failure? ==> r == Failure("Failed to generate mnemonic: " + fromEntropy(entropy).error)
    ensures fromEntropy(entropy).Success? ==>
      var words := fromEntropy(entropy).value;
      && r.Success?
      && |r.value.passphrase| <= |words|
      && r.value.passphrase == words[..|r.value.passphrase|]
      && (|words| >= WordCount ==> |r.value.passphrase| == WordCount)
      && IsLowerHex(r.value.uuid)
      && HexDecode(r.value.uuid) == Some(Utf8(Join(r.value.passphrase, "-")))
  {
    match fromEntropy(entropy)
    case Failure(e) => Failure("Failed to generate mnemonic: " + e)
    case Success(mnemonic) =>
      var words := Take(mnemonic, WordCount);
      var uuid := HexEncode(Utf8(Join(words, "-")));
      HexRoundTrip(Utf8(Join(words, "-")));
      Success(PairingCodes(uuid, words))
  }

  function FieldCount(s: string): nat {
    |Split(s, '-')|
  }

  /** What gets hashed: a four-field input is hex-encoded first, anything else is taken as a uuid (server.rs:48-52). */
  function RawPayload(input: string): (r: string)
    ensures FieldCount(Sanitize(input)) == WordCount ==> IsLowerHex(r) && HexDecode(r) == Some(Utf8(Sanitize(input)))
    ensures FieldCount(Sanitize(input)) != WordCount ==> r == Sanitize(input)
  {
    var sanitized := Sanitize(input);
    if FieldCount(sanitized) == WordCount then
      HexRoundTrip(Utf8(sanitized));
      HexEncode(Utf8(sanitized))
    else
      sanitized
  }

  /**
    `hash_pairing_code` (server.rs:43-60): the hex encoding of the SHA-256
    digest of the payload's bytes. It never fails.
  */
  function HashPairingCode(input: string, sha256: seq<byte> -> Digest): (r: Result<string, string>)
    ensures r.Success? && |r.value| == 64 && IsLowerHex(r.value)
    ensures HexDecode(r.value) == Some(sha256(Utf8(RawPayload(input))))
  {
    var digest := sha256(Utf8(RawPayload(input)));
    HexRoundTrip(digest);
    Success(HexEncode(digest))
  }

  lemma SameSanitizedSamePayload(a: string, b: string)
    requires Sanitize(a) == Sanitize(b)
    ensures RawPayload(a) == RawPayload(b)
  {
  }

  /** The input and its sanitised form give the same room id. */
  lemma HashSeesOnlySanitized(input: string, sha256: seq<byte> -> Digest)
    ensures HashPairingCode(Sanitize(input), sha256) == HashPairingCode(input, sha256)
  {
    SanitizeIdempotent(input);
  }

  /** A code typed in capitals, or with white space around it, gives the same room id as the lowercase code. */
  lemma HashIgnoresCaseAndPadding(w1: string, code: string, w2: string, sha256: seq<byte> -> Digest)
    requires IsBlank(w1) && IsBlank(w2)
    ensures HashPairingCode(w1 + code + w2, sha256) == HashPairingCode(ToLowercase(code), sha256)
  {
    SanitizeIgnoresPadding(w1, code, w2);
    SanitizeIgnoresCase(ToLowercase(code));
    LowercaseKeepsLower(ToLowercase(code));
  }

  // ---------------------------------------------------------------------------
  // The QR form and the typed form meet
  // ---------------------------------------------------------------------------

  predicate IsLetter(c: char) {
    'a' <= c <= 'z'
  }

  /** A mnemonic word as BIP-39's English list spells it: non-empty, lowercase ASCII letters. */
  predicate IsWord(w: string) {
    w != [] && forall i | 0 <= i < |w| :: IsLetter(w[i])
  }

  /** Letters and separators, with a letter at each end. */
  predicate IsWordLine(s: string, sep: char) {
    && s != [] && IsLetter(s[0]) && IsLetter(s[|s| - 1])
    && forall i | 0 <= i < |s| :: IsLetter(s[i]) || s[i] == sep
  }

  /** Words joined by a hyphen are already sanitised; joined by spaces they only lack the hyphens. */
  lemma WordLineSanitizes(s: string, sep: char)
    requires IsWordLine(s, sep) && (sep == ' ' || sep == '-')
    ensures HasNoUpper(s) && !IsWhitespace(s[0]) && !IsWhitespace(s[|s| - 1])
    ensures sep == '-' ==> IsSanitized(s)
  {
    PrintableIsNotWhitespace(s[0]);
    PrintableIsNotWhitespace(s[|s| - 1]);
    if sep == '-' {
      assert forall i | 0 <= i < |s| :: s[i] != ' ';
    }
  }

  /** A uuid never has four hyphen-separated fields, so it is hashed as it is (server.rs:32, 49). */
  lemma UuidPassesThrough(bytes: seq<byte>)
    ensures Sanitize(HexEncode(bytes)) == HexEncode(bytes)
    ensures FieldCount(HexEncode(bytes)) == 1
    ensures RawPayload(HexEncode(bytes)) == HexEncode(bytes)
  {
    var u := HexEncode(bytes);
    forall i | 0 <= i < |u| ensures u[i] != ' ' && u[i] != '-' && !IsWhitespace(u[i]) && !('A' <= u[i] <= 'Z') {
      PrintableIsNotWhitespace(u[i]);
    }
    SanitizeFixes(u);
    AbsentMeansNoOccurrence(u, '-');
  }

  /** Joined words, any separator: ASCII, and nothing but letters and the separator. */
  lemma {:induction false} JoinedWords(words: seq<string>, sep: char)
    requires words != [] && forall i | 0 <= i < |words| :: IsWord(words[i])
    ensures IsWordLine(Join(words, [sep]), sep)
  {
    if |words| > 1 {
      JoinedWords(words[1..], sep);
    }
  }

  /** Spaces between the words become hyphens. */
  lemma {:induction false} SpacesBecomeHyphens(words: seq<string>)
    requires forall i | 0 <= i < |words| :: IsWord(words[i])
    ensures ReplaceSpaces(Join(words, " ")) == Join(words, "-")
  {
    if |words| > 1 {
      SpacesBecomeHyphens(words[1..]);
      var tail := Join(words[1..], " ");
      assert Join(words, " ") == words[0] + " " + tail;
      ReplaceSpacesAppend(words[0] + " ", tail);
      ReplaceSpacesAppend(words[0], " ");
      assert ReplaceSpaces(words[0]) == words[0];
    } else if |words| == 1 {
      assert ReplaceSpaces(words[0]) == words[0];
    }
  }

  /** Four words typed with hyphens are hex-encoded, giving the uuid's payload. */
  lemma HyphenFormPayload(words: seq<string>)
    requires |words| == WordCount && forall i | 0 <= i < |words| :: IsWord(words[i])
    ensures RawPayload(Join(words, "-")) == HexEncode(Utf8(Join(words, "-")))
  {
    var hyphened := Join(words, "-");
    JoinedWords(words, '-');
    WordLineSanitizes(hyphened, '-');
    SanitizeFixes(hyphened);
    forall i | 0 <= i < |words| ensures '-' !in words[i] {
      assert forall j | 0 <= j < |words[i]| :: words[i][j] != '-';
    }
    SplitJoin(words, '-');
  }

  /** The words typed with spaces sanitise to the words joined with hyphens. */
  lemma SpaceFormSanitizes(words: seq<string>)
    requires words != [] && forall i | 0 <= i < |words| :: IsWord(words[i])
    ensures Sanitize(Join(words, " ")) == Join(words, "-")
  {
    JoinedWords(words, ' ');
    var spaced := Join(words, " ");
    WordLineSanitizes(spaced, ' ');
    SanitizeReplacesOnly(spaced);
    SpacesBecomeHyphens(words);
  }

  /**
    The discovery property: the scanned uuid, the words typed with hyphens and
    the words typed with spaces all hash to the same room id (server.rs:32, 45-57).
  */
  lemma QrAndTypedFormsAgree(entropy: seq<byte>, fromEntropy: seq<byte> -> Result<seq<string>, string>, sha256: seq<byte> -> Digest)
    requires |entropy| == 16
    requires fromEntropy(entropy).Success?
    requires |fromEntropy(entropy).value| >= WordCount
    requires forall i | 0 <= i < WordCount :: IsWord(fromEntropy(entropy).value[i])
    ensures var codes := GeneratePairingCodes(entropy, fromEntropy).value;
      && |codes.passphrase| == WordCount
      && HashPairingCode(codes.uuid, sha256) == HashPairingCode(Join(codes.passphrase, "-"), sha256)
      && HashPairingCode(codes.uuid, sha256) == HashPairingCode(Join(codes.passphrase, " "), sha256)
  {
    var codes := GeneratePairingCodes(entropy, fromEntropy).value;
    var words := codes.passphrase;
    assert words == fromEntropy(entropy).value[..WordCount];
    assert forall i | 0 <= i < |words| :: IsWord(words[i]);
    UuidPassesThrough(Utf8(Join(words, "-")));
    HyphenFormPayload(words);
    SpaceFormSanitizes(words);
    SanitizeFixes(Join(words, "-"));
    SameSanitizedSamePayload(Join(words, " "), Join(words, "-"));
  }
}
