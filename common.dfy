/** Values and string primitives shared by the Java back end and the Vue front end models.
    Strings are sequences of characters; only the ASCII behaviour of the library calls
    (trim, toLowerCase, parseInt, String(n)) is modelled. */
module Common {

  datatype Option<+T> = None | Some(value: T)

  /** An operation that either yields a value or fails with the message the source reports. */
  datatype Result<+T> = Ok(value: T) | Err(message: string)

  // ---------------------------------------------------------------------------
  // Whitespace and trimming
  // ---------------------------------------------------------------------------

  /** Java's String.trim removes every character whose code is at most U+0020. */
  predicate IsJavaTrimmed(c: char) { c <= ' ' }

  /** JavaScript's String.prototype.trim removes WhiteSpace and LineTerminator characters. */
  predicate IsJsWhitespace(c: char)
  {
    c == ' ' || c == '\t' || c == '\n' || c == '\r' || c == '\U{000B}' || c == '\U{000C}'
    || c == '\U{00A0}' || c == '\U{1680}' || ('\U{2000}' <= c <= '\U{200A}')
    || c == '\U{2028}' || c == '\U{2029}' || c == '\U{202F}' || c == '\U{205F}'
    || c == '\U{3000}' || c == '\U{FEFF}'
  }

  function TrimStart(s: string, ws: char -> bool): (r: string)
    ensures |r| <= |s| && r == s[|s| - |r|..]
    ensures r == [] || !ws(r[0])
    ensures forall k :: 0 <= k < |s| - |r| ==> ws(s[k])
  {
    if s != [] && ws(s[0]) then TrimStart(s[1..], ws) else s
  }

  function TrimEnd(s: string, ws: char -> bool): (r: string)
    ensures |r| <= |s| && r == s[..|r|]
    ensures r == [] || !ws(r[|r| - 1])
    ensures forall k :: |r| <= k < |s| ==> ws(s[k])
  {
    if s != [] && ws(s[|s| - 1]) then TrimEnd(s[..|s| - 1], ws) else s
  }

  /** The number of trimmed characters in front of the first kept one. */
  function LeadingCount(s: string, ws: char -> bool): (n: nat)
    ensures n <= |s| && TrimStart(s, ws) == s[n..]
  {
    |s| - |TrimStart(s, ws)|
  }

  /** Trimming on both sides: the result is a contiguous piece of the input that neither
      starts nor ends with a trimmed character, and only trimmed characters were dropped. */
  function Trim(s: string, ws: char -> bool): (r: string)
    ensures |r| <= |s|
    ensures r == [] || (!ws(r[0]) && !ws(r[|r| - 1]))
    ensures LeadingCount(s, ws) + |r| <= |s|
    ensures r == s[LeadingCount(s, ws)..LeadingCount(s, ws) + |r|]
    ensures forall k :: 0 <= k < LeadingCount(s, ws) ==> ws(s[k])
    ensures forall k :: LeadingCount(s, ws) + |r| <= k < |s| ==> ws(s[k])
  {
    TrimEnd(TrimStart(s, ws), ws)
  }

  function JavaTrim(s: string): string { Trim(s, IsJavaTrimmed) }
  function JsTrim(s: string): string { Trim(s, IsJsWhitespace) }

  /** A string is blank when trimming leaves nothing. */
  predicate AllOf(s: string, ws: char -> bool) { forall k :: 0 <= k < |s| ==> ws(s[k]) }

  lemma TrimEmptyIffAll(s: string, ws: char -> bool)
    ensures Trim(s, ws) == [] <==> AllOf(s, ws)
  {
    var r := Trim(s, ws);
    if r != [] {
      var i := LeadingCount(s, ws);
      assert s[i] == r[0] && !ws(s[i]);
    }
  }

  /** Blank in Java's sense: `s.trim().isEmpty()`. */
  predicate JavaBlank(s: string) { forall k :: 0 <= k < |s| ==> s[k] <= ' ' }

  /** Blank in JavaScript's sense: `!s.trim()`. */
  predicate JsBlank(s: string) { forall k :: 0 <= k < |s| ==> IsJsWhitespace(s[k]) }

  lemma JavaBlankIffTrimEmpty(s: string)
    ensures JavaTrim(s) == [] <==> JavaBlank(s)
  {
    TrimEmptyIffAll(s, IsJavaTrimmed);
  }

  lemma JsBlankIffTrimEmpty(s: string)
    ensures JsTrim(s) == [] <==> JsBlank(s)
  {
    TrimEmptyIffAll(s, IsJsWhitespace);
  }

  /** A string that neither starts nor ends with a trimmed character is its own trim. */
  lemma TrimUntouched(s: string, ws: char -> bool)
    requires s == [] || (!ws(s[0]) && !ws(s[|s| - 1]))
    ensures Trim(s, ws) == s
  {
  }

  // ---------------------------------------------------------------------------
  // Case, search and slicing
  // ---------------------------------------------------------------------------

  function AsciiLowerChar(c: char): (r: char)
    ensures 'A' <= c <= 'Z' ==> 'a' <= r <= 'z'
    ensures !('A' <= c <= 'Z') ==> r == c
  {
    if 'A' <= c <= 'Z' then (c as int + 32) as char else c
  }

  function AsciiLower(s: string): (r: string)
    ensures |r| == |s|
    ensures forall k :: 0 <= k < |s| ==> r[k] == AsciiLowerChar(s[k])
  {
    if s == [] then [] else [AsciiLowerChar(s[0])] + AsciiLower(s[1..])
  }

  predicate StartsWith(s: string, prefix: string) { |prefix| <= |s| && s[..|prefix|] == prefix }
  predicate EndsWith(s: string, suffix: string) { |suffix| <= |s| && s[|s| - |suffix|..] == suffix }

  /** JavaScript's `includes` / Java's `contains` on strings. */
  predicate Contains(s: string, part: string)
    decreases |s|
  {
    StartsWith(s, part) || (s != [] && Contains(s[1..], part))
  }

  /** Array.prototype.slice / String.prototype.slice: negative positions count from the end,
      positions are clamped to the length, and an empty range gives the empty sequence. */
  function JsSlice<T>(s: seq<T>, start: int, end: int): (r: seq<T>)
    ensures |r| <= |s|
    ensures 0 <= start <= end ==> |r| <= end - start
    ensures 0 <= start <= end <= |s| ==> r == s[start..end]
  {
    var len := |s|;
    var from := if start < 0 then (if len + start < 0 then 0 else len + start)
                else (if start < len then start else len);
    var to := if end < 0 then (if len + end < 0 then 0 else len + end)
              else (if end < len then end else len);
    if from < to then s[from..to] else []
  }

  /** The page `page` (counted from 1) of `pageSize` items, computed as the source does:
      slice((page - 1) * pageSize, (page - 1) * pageSize + pageSize). */
  function Page<T>(s: seq<T>, page: int, pageSize: int): (r: seq<T>)
    ensures pageSize >= 0 ==> |r| <= pageSize
    ensures page >= 1 && pageSize >= 0 && page * pageSize <= |s| ==>
      r == s[(page - 1) * pageSize..page * pageSize]
  {
    var start := (page - 1) * pageSize;
    PageLength(|s|, page, pageSize);
    JsSlice(s, start, start + pageSize)
  }

  /** With a non-negative page size, a start before 0 only happens when the end is not after 0,
      so the slice never grows past the page size. */
  lemma PageLength(n: nat, page: int, pageSize: int)
    ensures pageSize >= 0 && (page - 1) * pageSize < 0 ==> (page - 1) * pageSize + pageSize <= 0
  {
    if pageSize >= 0 && (page - 1) * pageSize < 0 {
      assert page - 1 < 0;
      assert page <= 0;
      assert page * pageSize <= 0;
    }
  }

  // ---------------------------------------------------------------------------
  // Splitting and joining
  // ---------------------------------------------------------------------------

  /** String.prototype.split with a one-character separator: every piece, empty ones included. */
  function SplitOn(s: string, sep: char): (r: seq<string>)
    ensures |r| >= 1
    ensures forall k :: 0 <= k < |r| ==> sep !in r[k]
    decreases |s|
  {
    if sep !in s then [s]
    else
      var i := IndexOf(s, sep);
      [s[..i]] + SplitOn(s[i + 1..], sep)
  }

  function IndexOf(s: string, c: char): (i: nat)
    requires c in s
    ensures i < |s| && s[i] == c && c !in s[..i]
  {
    if s[0] == c then 0 else 1 + IndexOf(s[1..], c)
  }

  function Join(parts: seq<string>, sep: string): (r: string)
  {
    if parts == [] then ""
    else if |parts| == 1 then parts[0]
    else parts[0] + sep + Join(parts[1..], sep)
  }

  /** Splitting and joining again with the same separator gives back the input. */
  lemma {:induction false} JoinSplitOn(s: string, sep: char)
    ensures Join(SplitOn(s, sep), [sep]) == s
    decreases |s|
  {
    if sep in s {
      var i := IndexOf(s, sep);
      var rest := SplitOn(s[i + 1..], sep);
      JoinSplitOn(s[i + 1..], sep);
      assert SplitOn(s, sep) == [s[..i]] + rest;
      assert s == s[..i] + [sep] + s[i + 1..];
    }
  }

  /** Joining pieces that do not contain the separator and splitting again gives back the pieces. */
  lemma {:induction false} SplitOnJoin(parts: seq<string>, sep: char)
    requires |parts| >= 1
    requires forall k :: 0 <= k < |parts| ==> sep !in parts[k]
    ensures SplitOn(Join(parts, [sep]), sep) == parts
    decreases |parts|
  {
    if |parts| > 1 {
      var tail := Join(parts[1..], [sep]);
      assert Join(parts, [sep]) == parts[0] + [sep] + tail;
      SplitOnHead(parts[0], sep, tail);
      SplitOnJoin(parts[1..], sep);
      assert parts == [parts[0]] + parts[1..];
    }
  }

  /** A piece without the separator, then the separator, splits off as the first piece. */
  lemma SplitOnHead(a: string, sep: char, tail: string)
    requires sep !in a
    ensures SplitOn(a + [sep] + tail, sep) == [a] + SplitOn(tail, sep)
  {
    var s := a + [sep] + tail;
    assert s[|a|] == sep;
    var i := IndexOf(s, sep);
    assert s[..|a|] == a;
    assert i == |a|;
    assert s[i + 1..] == tail;
  }

  /** Java's String.split(String) with a one-character separator: like SplitOn, but trailing
      empty pieces are removed, except that a string without the separator is returned whole. */
  function JavaSplit(s: string, sep: char): (r: seq<string>)
    ensures sep !in s ==> r == [s]
    ensures sep in s ==> r == DropTrailingEmpty(SplitOn(s, sep))
  {
    if sep !in s then [s] else DropTrailingEmpty(SplitOn(s, sep))
  }

  function DropTrailingEmpty(xs: seq<string>): (r: seq<string>)
    ensures |r| <= |xs| && r == xs[..|r|]
    ensures r == [] || r[|r| - 1] != ""
    ensures forall k :: |r| <= k < |xs| ==> xs[k] == ""
  {
    if xs == [] then []
    else if xs[|xs| - 1] == "" then DropTrailingEmpty(xs[..|xs| - 1])
    else xs
  }

  // ---------------------------------------------------------------------------
  // Decimal numbers
  // ---------------------------------------------------------------------------

  predicate IsDigit(c: char) { '0' <= c <= '9' }

  function DigitValue(c: char): nat requires IsDigit(c) { c as int - '0' as int }

  /** The decimal text of a natural number, without leading zeros. */
  function NatToString(n: nat): (r: string)
    ensures |r| >= 1
    ensures forall k :: 0 <= k < |r| ==> IsDigit(r[k])
    ensures |r| > 1 ==> r[0] != '0'
    decreases n
  {
    if n < 10 then [('0' as int + n) as char]
    else NatToString(n / 10) + [('0' as int + n % 10) as char]
  }

  /** Java's String.valueOf(int) and JavaScript's String(n) for integers. */
  function IntToString(i: int): (r: string)
    ensures |r| >= 1
  {
    if i < 0 then "-" + NatToString(-i) else NatToString(i)
  }

  /** The value of a non-empty string of decimal digits, most significant first. */
  function DigitsValue(s: string): nat
    requires forall k :: 0 <= k < |s| ==> IsDigit(s[k])
    decreases |s|
  {
    if s == [] then 0 else DigitsValue(s[..|s| - 1]) * 10 + DigitValue(s[|s| - 1])
  }

  lemma {:induction false} DigitsValueOfNatToString(n: nat)
    ensures DigitsValue(NatToString(n)) == n
    decreases n
  {
    var r := NatToString(n);
    if n >= 10 {
      DigitsValueOfNatToString(n / 10);
      assert r[..|r| - 1] == NatToString(n / 10);
    }
  }

  const IntMin: int := -0x8000_0000
  const IntMax: int := 0x7FFF_FFFF

  /** Java's Integer.parseInt: an optional sign followed by at least one digit, whose value
      fits in 32 bits; anything else throws NumberFormatException, modelled as None. */
  function ParseJavaInt(s: string): (r: Option<int>)
    ensures r.Some? ==> IntMin <= r.value <= IntMax
    ensures r.Some? ==> |s| >= 1
  {
    SignedValue(|s| >= 1 && s[0] == '-', Unsigned(s))
  }

  function SignedValue(neg: bool, body: string): (r: Option<int>)
    ensures r.Some? ==> IntMin <= r.value <= IntMax && body != []
  {
    if body == [] || !AllDigits(body) then None
    else
      var d: int := DigitsValue(body);
      var v := if neg then -d else d;
      if IntMin <= v <= IntMax then Some(v) else None
  }

  /** The text after an optional leading sign. */
  function Unsigned(s: string): (r: string)
    ensures |r| <= |s| && r == s[|s| - |r|..]
  {
    if |s| >= 1 && (s[0] == '-' || s[0] == '+') then s[1..] else s
  }

  predicate AllDigits(s: string) { forall k :: 0 <= k < |s| ==> IsDigit(s[k]) }

  function Abs(i: int): nat { if i < 0 then -i else i }

  lemma UnsignedIntToString(i: int)
    ensures Unsigned(IntToString(i)) == NatToString(Abs(i))
    ensures (IntToString(i)[0] == '-') == (i < 0)
  {
    var s := IntToString(i);
    if i < 0 {
      assert s[1..] == NatToString(-i);
    } else {
      assert IsDigit(s[0]);
    }
  }

  /** Printing a 32-bit integer and parsing it back gives the same integer. */
  lemma ParseIntToString(i: int)
    requires IntMin <= i <= IntMax
    ensures ParseJavaInt(IntToString(i)) == Some(i)
  {
    DigitsValueOfNatToString(Abs(i));
    UnsignedIntToString(i);
    assert SignedValue(i < 0, NatToString(Abs(i))) == Some(i);
  }

  /** A string made only of characters other than digits and signs never parses. */
  lemma ParseNeedsDigit(s: string)
    requires forall k :: 0 <= k < |s| ==> !IsDigit(s[k])
    ensures ParseJavaInt(s) == None
  {
    var body := Unsigned(s);
    if body != [] {
      assert !IsDigit(body[0]);
    }
  }

  // ---------------------------------------------------------------------------
  // Counting
  // ---------------------------------------------------------------------------

  function CountEq<T(==)>(s: seq<T>, x: T): (n: nat)
    ensures n <= |s|
    ensures n == 0 <==> x !in s
  {
    if s == [] then 0 else (if s[0] == x then 1 else 0) + CountEq(s[1..], x)
  }

  function Max(a: int, b: int): int { if a >= b then a else b }
  function Min(a: int, b: int): int { if a <= b then a else b }
}
