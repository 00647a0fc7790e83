/** Null/blank tests, trimming and ASCII filtering of Java strings.
    A Java `String` that may be null is an `Option<string>`. */
module StringUtils {
  import opened Wrappers
  import opened Domain

  /** Java's `Character.isWhitespace`: the Unicode space, line and paragraph separators other
      than the three non-breaking spaces, plus the ASCII controls U+0009..U+000D and
      U+001C..U+001F. */
  predicate IsWhitespace(c: char) {
    var n := c as int;
    || (0x09 <= n <= 0x0D)
    || (0x1C <= n <= 0x20)
    || n == 0x1680
    || (0x2000 <= n <= 0x2006)
    || (0x2008 <= n <= 0x200A)
    || n == 0x2028 || n == 0x2029 || n == 0x205F || n == 0x3000
  }

  /** The characters `String.trim` removes: every code unit at or below U+0020. */
  predicate IsTrimmable(c: char) {
    c as int <= 0x20
  }

  /** `StringUtils.isEmpty`: null or of length zero. */
  function IsEmpty(s: Option<string>): (r: bool)
    ensures r <==> s == None || s == Some([])
  {
    s.None? || |s.value| == 0
  }

  /** `String.isBlank` on a non-null string, written as a recursion over its characters. */
  function AllWhitespace(s: string): (r: bool)
  {
    if s == [] then true else IsWhitespace(s[0]) && AllWhitespace(s[1..])
  }

  /** `StringUtils.isBlank`: null, or every character is Java whitespace. */
  function IsBlank(s: Option<string>): bool {
    s.None? || AllWhitespace(s.value)
  }

  /** AllWhitespace holds exactly when no character of the string is non-whitespace. */
  lemma {:induction false} AllWhitespaceMeans(s: string)
    ensures AllWhitespace(s) <==> forall i :: 0 <= i < |s| ==> IsWhitespace(s[i])
  {
    if s != [] {
      AllWhitespaceMeans(s[1..]);
      assert forall i :: 1 <= i < |s| ==> s[i] == s[1..][i - 1];
    }
  }

  /** `isBlank(s)` holds iff `s` is null or every character of it is whitespace. */
  lemma IsBlankMeans(s: Option<string>)
    ensures IsBlank(s) <==> s.None? || forall i :: 0 <= i < |s.value| ==> IsWhitespace(s.value[i])
  {
    if s.Some? {
      AllWhitespaceMeans(s.value);
    }
  }

  /** An empty (or null) string is blank. */
  lemma EmptyIsBlank(s: Option<string>)
    requires IsEmpty(s)
    ensures IsBlank(s)
  {
  }

  /** The number of leading trimmable characters of `s`. */
  function TrimStart(s: string): (i: nat)
    ensures i <= |s|
    ensures forall k :: 0 <= k < i ==> IsTrimmable(s[k])
    ensures i < |s| ==> !IsTrimmable(s[i])
  {
    if s == [] || !IsTrimmable(s[0]) then 0
    else
      var j := TrimStart(s[1..]);
      assert forall k :: 1 <= k < j + 1 ==> s[k] == s[1..][k - 1];
      j + 1
  }

  /** The length of `s` once its trailing trimmable characters are cut off. */
  function TrimEnd(s: string): (j: nat)
    ensures j <= |s|
    ensures forall k :: j <= k < |s| ==> IsTrimmable(s[k])
    ensures j > 0 ==> !IsTrimmable(s[j - 1])
  {
    if s == [] || !IsTrimmable(s[|s| - 1]) then |s|
    else TrimEnd(s[..|s| - 1])
  }

  /** `String.trim`: the longest slice of `s` that neither starts nor ends with a character
      at or below U+0020; everything cut off is at or below U+0020. */
  function Trim(s: string): (t: string)
    ensures exists i, j :: 0 <= i <= j <= |s| && t == s[i..j]
                           && (forall k :: 0 <= k < i ==> IsTrimmable(s[k]))
                           && (forall k :: j <= k < |s| ==> IsTrimmable(s[k]))
    ensures t != [] ==> !IsTrimmable(t[0]) && !IsTrimmable(t[|t| - 1])
  {
    var i := TrimStart(s);
    var j := TrimEnd(s);
    if j <= i then
      assert forall k :: 0 <= k < |s| ==> IsTrimmable(s[k]);
      s[i..i]
    else
      s[i..j]
  }

  /** A string whose first and last characters are above U+0020 is its own trim. */
  lemma TrimOfTrimmed(s: string)
    requires s == [] || (!IsTrimmable(s[0]) && !IsTrimmable(s[|s| - 1]))
    ensures Trim(s) == s
  {
  }

  /** Trimming twice is trimming once. */
  lemma TrimIdempotent(s: string)
    ensures Trim(Trim(s)) == Trim(s)
  {
    TrimOfTrimmed(Trim(s));
  }

  /** `StringUtils.normalize`: null for a blank string, the trimmed string otherwise. */
  function Normalize(search: Option<string>): (r: Option<string>)
    ensures r.None? <==> IsBlank(search)
    ensures r.Some? ==> search.Some? && r.value == Trim(search.value)
  {
    if IsBlank(search) then None else Some(Trim(search.value))
  }

  /** `trim` and `isBlank` disagree on what counts as space: U+0000 is not whitespace, so
      "\0" is not blank, yet trim removes it, and normalize returns a non-null empty string. */
  lemma NormalizeMayBeEmpty()
    ensures !IsBlank(Some("\0")) && Normalize(Some("\0")) == Some("")
  {
    assert !IsWhitespace('\0');
    assert TrimStart("\0") == 1;
  }

  /** A string with a character that is neither whitespace nor at or below U+0020 normalizes
      to a non-blank string. */
  lemma NormalizeKeepsVisible(s: string, k: nat)
    requires k < |s| && !IsTrimmable(s[k]) && !IsWhitespace(s[k])
    ensures Normalize(Some(s)).Some? && !IsBlank(Normalize(Some(s)))
  {
    AllWhitespaceMeans(s);
    var t := Trim(s);
    var i := TrimStart(s);
    var j := TrimEnd(s);
    assert i <= k < j;
    assert t == s[i..j] && t[k - i] == s[k];
    AllWhitespaceMeans(t);
  }

  /** The Unicode block "Combining Diacritical Marks", U+0300..U+036F. */
  predicate IsCombiningDiacriticalMark(c: char) {
    0x300 <= c as int <= 0x36F
  }

  predicate IsAscii(c: char) {
    c as int < 0x80
  }

  /** `replaceAll("\\p{InCombiningDiacriticalMarks}+", "")`. */
  function RemoveDiacriticalMarks(s: string): (r: string)
    ensures |r| <= |s|
    ensures forall i :: 0 <= i < |r| ==> !IsCombiningDiacriticalMark(r[i])
  {
    if s == [] then []
    else if IsCombiningDiacriticalMark(s[0]) then RemoveDiacriticalMarks(s[1..])
    else [s[0]] + RemoveDiacriticalMarks(s[1..])
  }

  /** `replaceAll("[^\\p{ASCII}]", "")`. */
  function KeepAscii(s: string): (r: string)
    ensures |r| <= |s|
  {
    if s == [] then []
    else if IsAscii(s[0]) then [s[0]] + KeepAscii(s[1..])
    else KeepAscii(s[1..])
  }

  /** `StringUtils.toASCII`: canonical decomposition, then the two filters above. The
      decomposition is done by `java.text.Normalizer`, which is not part of this model and is
      the parameter `nfd`. On a null input the normalizer throws, and toASCII rethrows that as
      an IllegalArgumentException with the message below. */
  function ToAscii(s: Option<string>, nfd: string -> string): Result<string, Exception>
  {
    match s
    case None => Failure(IllegalArgument("Error normalizando la cadena"))
    case Some(v) => Success(KeepAscii(RemoveDiacriticalMarks(nfd(v))))
  }

  /** KeepAscii keeps exactly the ASCII characters, in order. */
  lemma {:induction false} KeepAsciiIsAscii(s: string)
    ensures forall i :: 0 <= i < |KeepAscii(s)| ==> IsAscii(KeepAscii(s)[i])
    ensures (forall i :: 0 <= i < |s| ==> IsAscii(s[i])) ==> KeepAscii(s) == s
  {
    if s != [] {
      KeepAsciiIsAscii(s[1..]);
      if forall i :: 0 <= i < |s| ==> IsAscii(s[i]) {
        assert forall i :: 0 <= i < |s[1..]| ==> IsAscii(s[1..][i]) by {
          forall i | 0 <= i < |s[1..]| ensures IsAscii(s[1..][i]) {
            assert s[1..][i] == s[i + 1];
          }
        }
      }
    }
  }

  /** Removing the diacritical marks first changes nothing: the marks are not ASCII, so the
      second filter drops them anyway. */
  lemma {:induction false} MarksAreNotAscii(s: string)
    ensures KeepAscii(RemoveDiacriticalMarks(s)) == KeepAscii(s)
  {
    if s != [] {
      MarksAreNotAscii(s[1..]);
    }
  }

  /** toASCII fails exactly on null; its result contains only characters below U+0080, and it
      is the decomposed input unchanged when that is already ASCII. */
  lemma ToAsciiIsAscii(s: Option<string>, nfd: string -> string)
    ensures ToAscii(s, nfd).Success? <==> s.Some?
    ensures ToAscii(s, nfd).Success? ==>
              var r := ToAscii(s, nfd).value;
              forall i :: 0 <= i < |r| ==> IsAscii(r[i])
    ensures s.Some? && (forall i :: 0 <= i < |nfd(s.value)| ==> IsAscii(nfd(s.value)[i])) ==>
              ToAscii(s, nfd).value == nfd(s.value)
  {
    if s.Some? {
      MarksAreNotAscii(nfd(s.value));
      KeepAsciiIsAscii(nfd(s.value));
    }
  }
}
