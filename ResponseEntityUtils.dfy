/** Builds the HTTP response that serves a file: status 200, the file's media type, the bytes
    as body, and a `Content-Disposition` header carrying the file name twice, once reduced to
    ASCII in a quoted `filename` parameter (section 4.1 of RFC 6266) and once percent-encoded
    UTF-8 in an extended `filename*` parameter (section 4.3 of RFC 6266, section 3.2 of
    RFC 8187). */
module ResponseEntityUtils {
  import opened Wrappers
  import opened Domain
  import StringUtils

  type Byte = b: int | 0 <= b < 256

  // ----- UTF-8 and hexadecimal digits -----

  /** The UTF-8 encoding of one Unicode scalar value (section 3 of RFC 3629). */
  function Utf8Char(c: char): (r: seq<Byte>)
    ensures 1 <= |r| <= 4
    ensures |r| == 1 <==> c as int < 0x80
    ensures |r| == 1 ==> r[0] == c as int
    ensures forall i :: 1 <= i < |r| ==> 0x80 <= r[i] < 0xC0
  {
    var n := c as int;
    if n < 0x80 then [n]
    else if n < 0x800 then [0xC0 + n / 0x40, 0x80 + n % 0x40]
    else if n < 0x10000 then [0xE0 + n / 0x1000, 0x80 + (n / 0x40) % 0x40, 0x80 + n % 0x40]
    else [0xF0 + n / 0x40000, 0x80 + (n / 0x1000) % 0x40, 0x80 + (n / 0x40) % 0x40, 0x80 + n % 0x40]
  }

  /** The UTF-8 encoding of a string, character by character. */
  function Utf8(s: string): (r: seq<Byte>)
    ensures |r| >= |s|
  {
    if s == [] then [] else Utf8Char(s[0]) + Utf8(s[1..])
  }

  /** HEXDIG of RFC 5234: a digit or a letter A to F in either case. */
  predicate IsHexDigit(c: char) {
    ('0' <= c <= '9') || ('A' <= c <= 'F') || ('a' <= c <= 'f')
  }

  /** The upper-case hexadecimal digit `URLEncoder` writes for `d`. */
  function HexDigit(d: int): (c: char)
    requires 0 <= d < 16
    ensures IsHexDigit(c) && c != '+' && c != '%'
  {
    if d < 10 then ('0' as int + d) as char else ('A' as int + d - 10) as char
  }

  /** The value of a hexadecimal digit. */
  function HexValue(c: char): (d: int)
    ensures 0 <= d < 16
  {
    if '0' <= c <= '9' then c as int - '0' as int
    else if 'A' <= c <= 'F' then c as int - 'A' as int + 10
    else if 'a' <= c <= 'f' then c as int - 'a' as int + 10
    else 0
  }

  lemma HexDigitValue(d: int)
    requires 0 <= d < 16
    ensures HexValue(HexDigit(d)) == d
  {
  }

  // ----- URLEncoder.encode(s, UTF_8) -----

  /** The characters `URLEncoder` leaves as they are. */
  predicate Unreserved(c: char) {
    ('a' <= c <= 'z') || ('A' <= c <= 'Z') || ('0' <= c <= '9')
    || c == '.' || c == '-' || c == '*' || c == '_'
  }

  /** A character written as itself. `URLEncoder` keeps every unreserved character; the
      strict encoding of `ExtValue` keeps them all but `*`. */
  predicate Literal(c: char, strict: bool) {
    Unreserved(c) && !(strict && c == '*')
  }

  /** Each byte as `%` and two upper-case hexadecimal digits. */
  function PercentEncode(bytes: seq<Byte>): (r: string)
    ensures |r| == 3 * |bytes|
    ensures forall i :: 0 <= i < |r| ==> r[i] != '+' && StringUtils.IsAscii(r[i])
  {
    if bytes == [] then []
    else ['%', HexDigit(bytes[0] / 16), HexDigit(bytes[0] % 16)] + PercentEncode(bytes[1..])
  }

  /** One character: kept, a space as `+`, anything else as its percent-encoded UTF-8 bytes. */
  function EncodeChar(c: char, strict: bool): (r: string)
    ensures forall i :: 0 <= i < |r| ==> StringUtils.IsAscii(r[i])
  {
    if Literal(c, strict) then [c]
    else if c == ' ' then "+"
    else PercentEncode(Utf8Char(c))
  }

  /** `URLEncoder.encode(s, UTF_8)` when `strict` is false. */
  function UrlEncode(s: string, strict: bool): (r: string)
    ensures forall i :: 0 <= i < |r| ==> StringUtils.IsAscii(r[i])
  {
    if s == [] then [] else EncodeChar(s[0], strict) + UrlEncode(s[1..], strict)
  }

  /** `replace("+", "%20")`: every `+` becomes `%20`, nothing else changes. */
  function ReplacePlus(s: string): (r: string)
    ensures forall i :: 0 <= i < |r| ==> r[i] != '+'
    ensures (forall i :: 0 <= i < |s| ==> StringUtils.IsAscii(s[i])) ==>
              forall i :: 0 <= i < |r| ==> StringUtils.IsAscii(r[i])
  {
    if s == [] then []
    else (if s[0] == '+' then "%20" else [s[0]]) + ReplacePlus(s[1..])
  }

  /** The extended file name as the source builds it. */
  function EncodedFilename(filename: string): (r: string)
    ensures forall i :: 0 <= i < |r| ==> r[i] != '+' && StringUtils.IsAscii(r[i])
  {
    ReplacePlus(UrlEncode(filename, false))
  }

  // ----- Percent-decoding (section 2.1 of RFC 3986) -----

  /** The bytes a percent-encoded string stands for: `%` and two hexadecimal digits are one
      byte, any other character stands for its own UTF-8 encoding. */
  function PercentDecode(s: string): seq<Byte>
  {
    if s == [] then []
    else if |s| >= 3 && s[0] == '%' && IsHexDigit(s[1]) && IsHexDigit(s[2]) then
      [HexValue(s[1]) * 16 + HexValue(s[2])] + PercentDecode(s[3..])
    else Utf8Char(s[0]) + PercentDecode(s[1..])
  }

  lemma {:induction false} ReplacePlusAppend(a: string, b: string)
    ensures ReplacePlus(a + b) == ReplacePlus(a) + ReplacePlus(b)
  {
    if a != [] {
      assert (a + b)[1..] == a[1..] + b;
      ReplacePlusAppend(a[1..], b);
    } else {
      assert a + b == b;
    }
  }

  lemma {:induction false} ReplacePlusKeeps(s: string)
    requires forall i :: 0 <= i < |s| ==> s[i] != '+'
    ensures ReplacePlus(s) == s
  {
    if s != [] {
      ReplacePlusKeeps(s[1..]);
    }
  }

  lemma {:induction false} DecodePercentEncoded(bytes: seq<Byte>, rest: string)
    ensures PercentDecode(PercentEncode(bytes) + rest) == bytes + PercentDecode(rest)
  {
    if bytes != [] {
      var b := bytes[0];
      var s := PercentEncode(bytes) + rest;
      HexDigitValue(b / 16);
      HexDigitValue(b % 16);
      assert s[0] == '%' && s[1] == HexDigit(b / 16) && s[2] == HexDigit(b % 16);
      assert s[3..] == PercentEncode(bytes[1..]) + rest;
      DecodePercentEncoded(bytes[1..], rest);
      assert bytes == [b] + bytes[1..];
    } else {
      assert PercentEncode(bytes) + rest == rest;
    }
  }

  /** One encoded character, with its `+` replaced, decodes to the character's UTF-8 bytes. */
  lemma DecodeEncodedChar(c: char, strict: bool, rest: string)
    ensures PercentDecode(ReplacePlus(EncodeChar(c, strict)) + rest) == Utf8Char(c) + PercentDecode(rest)
  {
    if Literal(c, strict) {
      assert ReplacePlus([c]) == [c];
      assert ([c] + rest)[1..] == rest;
    } else if c == ' ' {
      assert ReplacePlus("+") == "%20";
      var s := "%20" + rest;
      assert s[0] == '%' && s[1] == '2' && s[2] == '0' && s[3..] == rest;
    } else {
      ReplacePlusKeeps(PercentEncode(Utf8Char(c)));
      DecodePercentEncoded(Utf8Char(c), rest);
    }
  }

  /** Percent-decoding the encoded name gives back the UTF-8 bytes of the name, in the
      lenient and in the strict encoding alike. */
  lemma {:induction false} DecodeRoundTrip(s: string, strict: bool)
    ensures PercentDecode(ReplacePlus(UrlEncode(s, strict))) == Utf8(s)
  {
    if s != [] {
      ReplacePlusAppend(EncodeChar(s[0], strict), UrlEncode(s[1..], strict));
      DecodeEncodedChar(s[0], strict, ReplacePlus(UrlEncode(s[1..], strict)));
      DecodeRoundTrip(s[1..], strict);
    }
  }

  /** The extended file name has no `+` (a space is `%20`, a literal `+` is `%2B`), only
      ASCII characters, and it percent-decodes to the UTF-8 bytes of the file name. */
  lemma EncodedFilenameDecodes(filename: string)
    ensures forall i :: 0 <= i < |EncodedFilename(filename)| ==> EncodedFilename(filename)[i] != '+'
    ensures PercentDecode(EncodedFilename(filename)) == Utf8(filename)
  {
    DecodeRoundTrip(filename, false);
  }

  // ----- The header and the response -----

  const ContentDisposition := "Content-Disposition"
  const AccessControlExposeHeaders := "Access-Control-Expose-Headers"
  const ContentType := "Content-Type"

  /** The disposition type: `inline` to show the file, `attachment` to download it. */
  function Disposition(inline: bool): (r: string)
    ensures r == "inline" <==> inline
    ensures r == "attachment" <==> !inline
  {
    if inline then "inline" else "attachment"
  }

  /** The value of `Content-Disposition` built by `getHeadersForFile`. The ASCII name comes
      from `StringUtils.toASCII`, which fails on a null name before anything is encoded. */
  function HeaderValue(filename: Option<string>, inline: bool, nfd: string -> string): (r: Result<string, Exception>)
    ensures r.Success? <==> filename.Some?
    ensures r.Failure? ==> r == StringUtils.ToAscii(filename, nfd)
    ensures r.Success? ==>
              var prefix := Disposition(inline) + "; filename=\"";
              var suffix := "\"; filename*=UTF-8''" + EncodedFilename(filename.value);
              |r.value| >= |prefix| + |suffix|
              && r.value[..|prefix|] == prefix
              && r.value[|r.value| - |suffix|..] == suffix
              && r.value[|prefix|..|r.value| - |suffix|] == StringUtils.ToAscii(filename, nfd).value
  {
    match StringUtils.ToAscii(filename, nfd)
    case Failure(e) => Failure(e)
    case Success(safeFilename) =>
      var encodedFilename := EncodedFilename(filename.value);
      Framed(Disposition(inline) + "; filename=\"", safeFilename, "\"; filename*=UTF-8''", encodedFilename);
      Success(Disposition(inline) + "; filename=\"" + safeFilename + "\"; filename*=UTF-8''" + encodedFilename)
  }

  /** A piece framed by a prefix and a two-part suffix is found between them. */
  lemma Framed(prefix: string, middle: string, opening: string, rest: string)
    ensures var v := prefix + middle + opening + rest;
            |v| == |prefix| + |middle| + |opening + rest|
            && v[..|prefix|] == prefix
            && v[|v| - |opening + rest|..] == opening + rest
            && v[|prefix|..|v| - |opening + rest|] == middle
  {
    var v := prefix + middle + opening + rest;
    assert v == prefix + middle + (opening + rest);
  }

  /** `getHeadersForFile`: the disposition header and the CORS header that lets scripts read
      it. `setAccessControlExposeHeaders` joins its list with commas; a one-element list is
      that element. */
  function HeadersForFile(filename: Option<string>, inline: bool, nfd: string -> string): (r: Result<map<string, string>, Exception>)
    ensures r.Success? <==> filename.Some?
    ensures r.Success? ==>
              r.value.Keys == {ContentDisposition, AccessControlExposeHeaders}
              && r.value[ContentDisposition] == HeaderValue(filename, inline, nfd).value
              && r.value[AccessControlExposeHeaders] == ContentDisposition
  {
    match HeaderValue(filename, inline, nfd)
    case Failure(e) => Failure(e)
    case Success(value) => Success(map[ContentDisposition := value, AccessControlExposeHeaders := ContentDisposition])
  }

  /** A `ResponseEntity<ByteArrayResource>`: status, headers (the media type among them) and
      the bytes of the body. */
  datatype ResponseEntity = ResponseEntity(status: nat, headers: map<string, string>, body: seq<Byte>)

  /** `resource(content, filename, mediaType, inline)`. */
  function Resource(content: seq<Byte>, filename: Option<string>, mediaType: string, inline: bool,
                    nfd: string -> string): (r: Result<ResponseEntity, Exception>)
    ensures r.Success? <==> filename.Some?
    ensures r.Success? ==>
              r.value.status == 200 && r.value.body == content
              && r.value.headers.Keys == {ContentType, ContentDisposition, AccessControlExposeHeaders}
              && r.value.headers[ContentType] == mediaType
              && r.value.headers[AccessControlExposeHeaders] == ContentDisposition
              && r.value.headers[ContentDisposition] == HeaderValue(filename, inline, nfd).value
  {
    match HeadersForFile(filename, inline, nfd)
    case Failure(e) => Failure(e)
    case Success(headers) => Success(ResponseEntity(200, map[ContentType := mediaType] + headers, content))
  }

  /** `resource(content, filename, mediaType)`: a download, never shown inline. */
  function Download(content: seq<Byte>, filename: Option<string>, mediaType: string,
                    nfd: string -> string): (r: Result<ResponseEntity, Exception>)
    ensures r == Resource(content, filename, mediaType, false, nfd)
    ensures r.Success? ==>
              var value := r.value.headers[ContentDisposition];
              |value| >= 10 && value[..10] == "attachment"
  {
    Resource(content, filename, mediaType, false, nfd)
  }

  /** The header is parsed back into its parts: the disposition type says `inline` exactly
      when asked to, the quoted parameter holds only ASCII, and the extended parameter
      decodes to the UTF-8 bytes of the name. */
  lemma HeaderValueParts(filename: string, inline: bool, nfd: string -> string)
    ensures var value := HeaderValue(Some(filename), inline, nfd).value;
            (|value| >= 6 && value[..6] == "inline") <==> inline
    ensures var safe := StringUtils.ToAscii(Some(filename), nfd).value;
            forall i :: 0 <= i < |safe| ==> StringUtils.IsAscii(safe[i])
    ensures PercentDecode(EncodedFilename(filename)) == Utf8(filename)
  {
    DispositionNamesInline(HeaderValue(Some(filename), inline, nfd).value, inline);
    StringUtils.ToAsciiIsAscii(Some(filename), nfd);
    EncodedFilenameDecodes(filename);
  }

  /** A value that opens with the disposition type names `inline` exactly when it is inline. */
  lemma DispositionNamesInline(value: string, inline: bool)
    requires var prefix := Disposition(inline) + "; filename=\"";
             |value| >= |prefix| && value[..|prefix|] == prefix
    ensures (|value| >= 6 && value[..6] == "inline") <==> inline
  {
    var prefix := Disposition(inline) + "; filename=\"";
    assert value[..6] == prefix[..6];
    if !inline {
      assert value[0] == prefix[0] == 'a';
    }
  }

  // ----- Conformance of the two parameters -----

  /** attr-char of section 3.2.1 of RFC 8187. */
  predicate AttrChar(c: char) {
    ('a' <= c <= 'z') || ('A' <= c <= 'Z') || ('0' <= c <= '9')
    || c == '!' || c == '#' || c == '$' || c == '&' || c == '+' || c == '-' || c == '.'
    || c == '^' || c == '_' || c == '`' || c == '|' || c == '~'
  }

  /** value-chars of section 3.2.1 of RFC 8187: attr-chars and percent-encoded bytes. */
  predicate ValueChars(s: string)
    decreases |s|
  {
    || s == []
    || (AttrChar(s[0]) && ValueChars(s[1..]))
    || (|s| >= 3 && s[0] == '%' && IsHexDigit(s[1]) && IsHexDigit(s[2]) && ValueChars(s[3..]))
  }

  lemma {:induction false} ValueCharsAppend(a: string, b: string)
    requires ValueChars(a) && ValueChars(b)
    ensures ValueChars(a + b)
    decreases |a|, 1
  {
    if a == [] {
      assert a + b == b;
    } else if AttrChar(a[0]) && ValueChars(a[1..]) {
      ValueCharsAppendAttr(a, b);
    } else {
      ValueCharsAppendTriplet(a, b);
    }
  }

  lemma {:induction false} ValueCharsAppendAttr(a: string, b: string)
    requires a != [] && AttrChar(a[0]) && ValueChars(a[1..]) && ValueChars(b)
    ensures ValueChars(a + b)
    decreases |a|, 0
  {
    ValueCharsAppend(a[1..], b);
    assert (a + b)[0] == a[0] && (a + b)[1..] == a[1..] + b;
  }

  lemma {:induction false} ValueCharsAppendTriplet(a: string, b: string)
    requires |a| >= 3 && a[0] == '%' && IsHexDigit(a[1]) && IsHexDigit(a[2]) && ValueChars(a[3..]) && ValueChars(b)
    ensures ValueChars(a + b)
    decreases |a|, 0
  {
    ValueCharsAppend(a[3..], b);
    assert (a + b)[..3] == a[..3] && (a + b)[3..] == a[3..] + b;
  }

  lemma {:induction false} PercentEncodedIsValueChars(bytes: seq<Byte>)
    ensures ValueChars(PercentEncode(bytes))
  {
    if bytes != [] {
      PercentEncodedIsValueChars(bytes[1..]);
      assert PercentEncode(bytes)[3..] == PercentEncode(bytes[1..]);
    }
  }

  /** As the source has it, `URLEncoder` keeps `*`, which is not an attr-char: the name
      "a*b" gives an extended value outside the grammar of RFC 8187. */
  lemma StarLeftInExtValue()
    ensures EncodedFilename("a*b") == "a*b"
    ensures !ValueChars(EncodedFilename("a*b"))
  {
    assert "a*b"[1..] == "*b" && "*b"[1..] == "b" && "b"[1..] == [];
    assert UrlEncode("a*b", false) == "a*b";
    assert ReplacePlus("a*b") == "a*b";
    assert !ValueChars("*b");
  }

  /** One strictly encoded character, `+` replaced, is value-chars. */
  lemma StrictPieceIsValueChars(c: char)
    ensures ValueChars(ReplacePlus(EncodeChar(c, true)))
  {
    var piece := ReplacePlus(EncodeChar(c, true));
    if Literal(c, true) {
      assert piece == [c] && piece[1..] == [];
    } else if c == ' ' {
      assert piece == "%20" && piece[3..] == [];
    } else {
      ReplacePlusKeeps(PercentEncode(Utf8Char(c)));
      PercentEncodedIsValueChars(Utf8Char(c));
    }
  }

  lemma {:induction false} StrictEncodingIsValueChars(s: string)
    ensures ValueChars(ReplacePlus(UrlEncode(s, true)))
  {
    if s != [] {
      ReplacePlusAppend(EncodeChar(s[0], true), UrlEncode(s[1..], true));
      StrictEncodingIsValueChars(s[1..]);
      StrictPieceIsValueChars(s[0]);
      ValueCharsAppend(ReplacePlus(EncodeChar(s[0], true)), ReplacePlus(UrlEncode(s[1..], true)));
    }
  }

  /** The extended value with `*` percent-encoded as well: it is value-chars for every file
      name and still decodes to the UTF-8 bytes of the name. */
  function ExtValue(filename: string): (r: string)
    ensures ValueChars(r)
    ensures PercentDecode(r) == Utf8(filename)
  {
    StrictEncodingIsValueChars(filename);
    DecodeRoundTrip(filename, true);
    ReplacePlus(UrlEncode(filename, true))
  }

  /** qdtext of section 5.6.4 of RFC 9110: the characters that may stand unescaped between
      the quotes of a quoted-string. */
  predicate QdText(c: char) {
    c == '\t' || c == ' ' || c == '!' || ('#' <= c <= '[') || (']' <= c <= '~')
    || (0x80 <= c as int <= 0xFF)
  }

  /** The characters a quoted-pair may escape (section 5.6.4 of RFC 9110). */
  predicate Escapable(c: char) {
    c == '\t' || (' ' <= c <= '~') || (0x80 <= c as int <= 0xFF)
  }

  /** The inside of a quoted-string: qdtext and backslash-escaped characters. */
  predicate QuotedContent(s: string)
    decreases |s|
  {
    || s == []
    || (QdText(s[0]) && QuotedContent(s[1..]))
    || (|s| >= 2 && s[0] == '\\' && Escapable(s[1]) && QuotedContent(s[2..]))
  }

  /** What a recipient reads from the inside of a quoted-string: each quoted-pair stands for
      the character it escapes. */
  function Unquote(s: string): string {
    if s == [] then []
    else if |s| >= 2 && s[0] == '\\' then [s[1]] + Unquote(s[2..])
    else [s[0]] + Unquote(s[1..])
  }

  /** As the source has it, the ASCII name goes between the quotes unescaped: the name
      `a"b` closes the quoted-string after `a`. */
  lemma QuoteLeftInFilename()
    ensures StringUtils.ToAscii(Some("a\"b"), s => s).value == "a\"b"
    ensures !QuotedContent(StringUtils.ToAscii(Some("a\"b"), s => s).value)
  {
    StringUtils.ToAsciiIsAscii(Some("a\"b"), s => s);
    assert "a\"b"[1..] == "\"b";
    assert !QuotedContent("\"b");
  }

  /** One character of the name inside the quotes: `"` and backslash escaped, the other
      escapable characters as they are, control characters dropped. */
  function QuotePiece(c: char): string {
    if c == '"' || c == '\\' then ['\\', c]
    else if QdText(c) then [c]
    else []
  }

  lemma QuotePiecePrepend(c: char, rest: string)
    requires QuotedContent(rest)
    ensures QuotedContent(QuotePiece(c) + rest)
    ensures Escapable(c) ==> Unquote(QuotePiece(c) + rest) == [c] + Unquote(rest)
  {
    var s := QuotePiece(c) + rest;
    if c == '"' || c == '\\' {
      assert s[0] == '\\' && s[1] == c && s[2..] == rest;
    } else if QdText(c) {
      assert s[0] == c && s[1..] == rest;
    } else {
      assert s == rest;
    }
  }

  /** The quoted file name escaped as a quoted-string needs: always well formed, and read
      back as the name itself when every character of it can be carried. */
  function QuoteFilename(s: string): (r: string)
    ensures QuotedContent(r)
    ensures (forall i :: 0 <= i < |s| ==> Escapable(s[i])) ==> Unquote(r) == s
  {
    if s == [] then []
    else
      var rest := QuoteFilename(s[1..]);
      QuotePiecePrepend(s[0], rest);
      assert (forall i :: 0 <= i < |s| ==> Escapable(s[i])) ==>
               forall i :: 0 <= i < |s[1..]| ==> Escapable(s[1..][i]);
      QuotePiece(s[0]) + rest
  }
}
