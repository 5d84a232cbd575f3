/**
 * The site header (frontend/src/app/components/Header.jsx): the highlighted
 * navigation link and the search box, whose term becomes the `query`
 * parameter of the search page through encodeURIComponent. The cart badge is
 * Storage.BrowserStorage.CartCount.
 */
module Header {
  import opened Text
  import Search
  import Listings

  /** isActive: a link is highlighted when its path is exactly the current pathname. */
  predicate IsActive(pathname: string, path: string)
  {
    pathname == path
  }

  /** A highlighted link is the current page itself, so links to different paths are never both highlighted. */
  lemma OneActiveLink(pathname: string, p: string, q: string)
    ensures IsActive(pathname, p) <==> p == pathname
    ensures IsActive(pathname, p) && IsActive(pathname, q) ==> p == q
  {
  }

  // ---------------------------------------------------------------- encodeURIComponent

  /** The characters encodeURIComponent leaves as they are. */
  predicate Unreserved(c: char)
  {
    ('A' <= c <= 'Z') || ('a' <= c <= 'z') || ('0' <= c <= '9') ||
    c in {'-', '_', '.', '!', '~', '*', '\'', '(', ')'}
  }

  /** The UTF-8 bytes of one character (section 3 of RFC 3629). */
  function Utf8(c: char): (bytes: seq<int>)
    ensures 1 <= |bytes| <= 4
    ensures forall i :: 0 <= i < |bytes| ==> 0 <= bytes[i] < 256
  {
    var cp := c as int;
    if cp < 0x80 then [cp]
    else if cp < 0x800 then [0xC0 + cp / 64, 0x80 + cp % 64]
    else if cp < 0x10000 then [0xE0 + cp / 4096, 0x80 + (cp / 64) % 64, 0x80 + cp % 64]
    else [0xF0 + cp / 262144, 0x80 + (cp / 4096) % 64, 0x80 + (cp / 64) % 64, 0x80 + cp % 64]
  }

  /** The value of a hexadecimal digit of either case, or -1. */
  function HexValue(c: char): (d: int)
    ensures -1 <= d < 16
  {
    if '0' <= c <= '9' then c as int - '0' as int
    else if 'A' <= c <= 'F' then c as int - 'A' as int + 10
    else if 'a' <= c <= 'f' then c as int - 'a' as int + 10
    else -1
  }

  /** The upper-case hexadecimal digit encodeURIComponent writes. */
  function HexDigit(d: int): (c: char)
    requires 0 <= d < 16
    ensures HexValue(c) == d && Unreserved(c)
  {
    if d < 10 then ('0' as int + d) as char else ('A' as int + d - 10) as char
  }

  /** "%XY" for each byte. */
  function Percent(bytes: seq<int>): (r: string)
    requires forall i :: 0 <= i < |bytes| ==> 0 <= bytes[i] < 256
    ensures |r| == 3 * |bytes|
    ensures forall i :: 0 <= i < |r| ==> r[i] == '%' || Unreserved(r[i])
  {
    if bytes == [] then []
    else ['%', HexDigit(bytes[0] / 16), HexDigit(bytes[0] % 16)] + Percent(bytes[1..])
  }

  function EncodeChar(c: char): string
  {
    if Unreserved(c) then [c] else Percent(Utf8(c))
  }

  /** `encodeURIComponent(s)`: the output only holds unreserved characters and '%'. */
  function EncodeURIComponent(s: string): (r: string)
    ensures forall i :: 0 <= i < |r| ==> Unreserved(r[i]) || r[i] == '%'
  {
    if s == [] then [] else EncodeChar(s[0]) + EncodeURIComponent(s[1..])
  }

  /** A term made only of unreserved characters is sent as it is. */
  lemma {:induction false} EncodeUnreserved(s: string)
    requires forall i :: 0 <= i < |s| ==> Unreserved(s[i])
    ensures EncodeURIComponent(s) == s
  {
    if s != [] {
      EncodeUnreserved(s[1..]);
    }
  }

  // ---------------------------------------------------------------- decoding, the inverse

  /** The byte written as "%XY" at position `i`, or -1. */
  function ByteAt(s: string, i: nat): (b: int)
    ensures -1 <= b < 256
  {
    if i + 3 <= |s| && s[i] == '%' && HexValue(s[i + 1]) >= 0 && HexValue(s[i + 2]) >= 0
    then HexValue(s[i + 1]) * 16 + HexValue(s[i + 2])
    else -1
  }

  predicate Continuation(b: int)
  {
    0x80 <= b < 0xC0
  }

  /** The length of the UTF-8 sequence a lead byte starts; 0 for a byte that cannot start one. */
  function SequenceLength(b: int): nat
  {
    if 0 <= b < 0x80 then 1
    else if 0xC0 <= b < 0xE0 then 2
    else if 0xE0 <= b < 0xF0 then 3
    else if 0xF0 <= b < 0xF8 then 4
    else 0
  }

  /** The smallest code point a sequence of that length may carry (no overlong forms). */
  function MinCodePoint(n: nat): int
  {
    if n <= 1 then 0 else if n == 2 then 0x80 else if n == 3 then 0x800 else 0x10000
  }

  /** The code point carried by a UTF-8 sequence of one to four bytes. */
  function Combine(b: seq<int>): int
    requires 1 <= |b| <= 4
  {
    if |b| == 1 then b[0]
    else if |b| == 2 then (b[0] - 0xC0) * 64 + (b[1] - 0x80)
    else if |b| == 3 then (b[0] - 0xE0) * 4096 + (b[1] - 0x80) * 64 + (b[2] - 0x80)
    else (b[0] - 0xF0) * 262144 + (b[1] - 0x80) * 4096 + (b[2] - 0x80) * 64 + (b[3] - 0x80)
  }

  /** The character at the start of `s` and how many characters of `s` it took, or None for a malformed escape. */
  function DecodeFirst(s: string): (r: Option<(char, nat)>)
    requires s != []
    ensures r.Some? ==> 1 <= r.value.1 <= |s|
  {
    if s[0] != '%' then Some((s[0], 1))
    else
      var n := SequenceLength(ByteAt(s, 0));
      if n == 0 || |s| < 3 * n then None
      else
        var bytes := seq(n, k requires 0 <= k < n => ByteAt(s, 3 * k));
        var cp := Combine(bytes);
        if (exists k :: 1 <= k < n && !Continuation(bytes[k])) || cp < MinCodePoint(n) ||
           (0xD800 <= cp < 0xE000) || 0x110000 <= cp
        then None
        else Some((cp as char, 3 * n))
  }

  /** `decodeURIComponent(s)`, None where it throws a URIError. */
  function Decode(s: string): Option<string>
    decreases |s|
  {
    if s == [] then Some([])
    else match DecodeFirst(s)
      case None => None
      case Some((c, len)) =>
        var rest := Decode(s[len..]);
        if rest.None? then None else Some([c] + rest.value)
  }

  /** The UTF-8 bytes of a character announce their length, and their payload bits give the character back. */
  lemma Utf8Decodes(c: char)
    ensures var b := Utf8(c);
            && SequenceLength(b[0]) == |b|
            && (forall k :: 1 <= k < |b| ==> Continuation(b[k]))
            && c as int >= MinCodePoint(|b|)
            && c as int == Combine(b)
  {
    var cp := c as int;
    var q1, r0 := cp / 64, cp % 64;
    var q2, r1 := q1 / 64, q1 % 64;
    var q3, r2 := q2 / 64, q2 % 64;
    assert cp == q1 * 64 + r0 && q1 == q2 * 64 + r1 && q2 == q3 * 64 + r2;
    assert cp / 4096 == q2 && cp / 262144 == q3;
  }

  /** The k-th byte of a run is written at 3 * k. */
  lemma {:induction false} PercentAt(bytes: seq<int>, k: nat)
    requires forall i :: 0 <= i < |bytes| ==> 0 <= bytes[i] < 256
    requires k < |bytes|
    ensures var r := Percent(bytes);
            r[3 * k] == '%' && r[3 * k + 1] == HexDigit(bytes[k] / 16) && r[3 * k + 2] == HexDigit(bytes[k] % 16)
  {
    if k > 0 {
      PercentAt(bytes[1..], k - 1);
    }
  }

  /** The byte each "%XY" of an encoded run reads back as. */
  lemma PercentReadsBack(bytes: seq<int>, rest: string, k: nat)
    requires forall i :: 0 <= i < |bytes| ==> 0 <= bytes[i] < 256
    requires k < |bytes|
    ensures ByteAt(Percent(bytes) + rest, 3 * k) == bytes[k]
  {
    PercentAt(bytes, k);
    var p := Percent(bytes);
    var b := bytes[k];
    PrefixChars(p, rest, 3 * k);
    ByteAtDigits(p + rest, 3 * k, HexDigit(b / 16), HexDigit(b % 16));
    HexPairValue(b);
  }

  /** Appending text leaves the first characters where they were. */
  lemma PrefixChars(p: string, rest: string, i: nat)
    requires i + 3 <= |p|
    ensures (p + rest)[i] == p[i] && (p + rest)[i + 1] == p[i + 1] && (p + rest)[i + 2] == p[i + 2]
  {
  }

  /** "%" and two hexadecimal digits read as the byte they spell. */
  lemma ByteAtDigits(s: string, i: nat, hi: char, lo: char)
    requires i + 3 <= |s| && s[i] == '%' && s[i + 1] == hi && s[i + 2] == lo
    requires HexValue(hi) >= 0 && HexValue(lo) >= 0
    ensures ByteAt(s, i) == HexValue(hi) * 16 + HexValue(lo)
  {
  }

  /** The two digits written for a byte read back as the byte. */
  lemma HexPairValue(b: int)
    requires 0 <= b < 256
    ensures HexValue(HexDigit(b / 16)) * 16 + HexValue(HexDigit(b % 16)) == b
  {
    assert HexValue(HexDigit(b / 16)) == b / 16;
    assert HexValue(HexDigit(b % 16)) == b % 16;
  }

  /** Decoding an encoded character gives it back and consumes exactly its encoding. */
  lemma DecodeEncodedChar(c: char, rest: string)
    ensures DecodeFirst(EncodeChar(c) + rest) == Some((c, |EncodeChar(c)|))
  {
    if !Unreserved(c) {
      var b := Utf8(c);
      var s := Percent(b) + rest;
      Utf8Decodes(c);
      forall k | 0 <= k < |b|
        ensures ByteAt(s, 3 * k) == b[k]
      {
        PercentReadsBack(b, rest, k);
      }
      assert s[0] == '%';
      var bytes := seq(|b|, k requires 0 <= k < |b| => ByteAt(s, 3 * k));
      assert bytes == b;
    }
  }

  /** decodeURIComponent undoes encodeURIComponent. */
  lemma {:induction false} DecodeEncode(s: string)
    ensures Decode(EncodeURIComponent(s)) == Some(s)
  {
    if s != [] {
      var e := EncodeURIComponent(s);
      assert e == EncodeChar(s[0]) + EncodeURIComponent(s[1..]);
      DecodeEncodedChar(s[0], EncodeURIComponent(s[1..]));
      assert e[|EncodeChar(s[0])|..] == EncodeURIComponent(s[1..]);
      DecodeEncode(s[1..]);
      assert |EncodeChar(s[0])| >= 1;
      assert [s[0]] + s[1..] == s;
    }
  }

  // ---------------------------------------------------------------- the search box

  const SearchRoute := "/search?query="

  /** handleSearch: nothing for an all-white-space term, otherwise the search page with the encoded trimmed term. */
  function HandleSearch(searchTerm: string): Option<string>
  {
    var q := Trim(searchTerm);
    if q == "" then None else Some(SearchRoute + EncodeURIComponent(q))
  }

  /**
   * The header navigates exactly when the term is not all white space, and
   * the query it writes holds no '&', '#', '+' or space, so the search page
   * reads back the whole trimmed term.
   */
  lemma HandleSearchSpec(searchTerm: string)
    ensures HandleSearch(searchTerm).None? <==> forall i :: 0 <= i < |searchTerm| ==> IsSpace(searchTerm[i])
    ensures HandleSearch(searchTerm).Some? ==>
              var url := HandleSearch(searchTerm).value;
              && StartsWith(url, SearchRoute)
              && (forall i :: |SearchRoute| <= i < |url| ==> url[i] != '&' && url[i] != '#' && url[i] != '+' && url[i] != ' ')
              && Decode(url[|SearchRoute|..]) == Some(Trim(searchTerm))
  {
    TrimEmptyIff(searchTerm);
    var q := Trim(searchTerm);
    if q != "" {
      var e := EncodeURIComponent(q);
      var url := SearchRoute + e;
      assert url[|SearchRoute|..] == e;
      forall i | |SearchRoute| <= i < |url|
        ensures url[i] != '&' && url[i] != '#' && url[i] != '+' && url[i] != ' '
      {
        var j := i - |SearchRoute|;
        assert url[i] == e[j];
        assert Unreserved(e[j]) || e[j] == '%';
      }
      DecodeEncode(q);
    }
  }

  /** The search page, trimming the query it reads back, shows the same products as for the term typed. */
  lemma SearchFromHeader(searchTerm: string, all: seq<Listings.Listing>)
    requires HandleSearch(searchTerm).Some?
    ensures var q := Decode(HandleSearch(searchTerm).value[|SearchRoute|..]);
            q.Some? && Search.Results(q.value, all) == Search.Results(searchTerm, all)
  {
    HandleSearchSpec(searchTerm);
    Search.ResultsOfTrimmed(searchTerm, all);
  }
}
