/** The few `java.lang.String` and `Integer` operations that the game's text
    protocols and score files rely on, with Java's own edge cases:
    `split` drops trailing empty strings, `parseInt` rejects anything outside
    the 32-bit range, `strip` removes Unicode white space at both ends. */
module JavaText {
  import opened Outcomes

  /** `s.startsWith(prefix)`. */
  predicate StartsWith(s: string, prefix: string) {
    |prefix| <= |s| && s[..|prefix|] == prefix
  }

  /** The parts with `d` written between consecutive parts. */
  function Join(parts: seq<string>, d: char): string
    requires |parts| >= 1
  {
    if |parts| == 1 then parts[0] else parts[0] + [d] + Join(parts[1..], d)
  }

  /** The pieces of `s` between occurrences of `d`, every empty piece kept. */
  function Fields(s: string, d: char): (r: seq<string>)
    ensures |r| >= 1
    ensures Join(r, d) == s
    ensures forall i :: 0 <= i < |r| ==> d !in r[i]
    decreases |s|
  {
    if |s| == 0 then [""]
    else
      var rest := Fields(s[1..], d);
      if s[0] == d then
        assert s == [d] + s[1..];
        [""] + rest
      else
        var first := [s[0]] + rest[0];
        assert s == [s[0]] + s[1..];
        assert ([first] + rest[1..])[1..] == rest[1..];
        [first] + rest[1..]
  }

  /** `parts` without its trailing run of empty strings. */
  function DropTrailingEmpty(parts: seq<string>): (r: seq<string>)
    ensures |r| <= |parts| && r == parts[..|r|]
    ensures r == [] || r[|r| - 1] != ""
    ensures forall i :: |r| <= i < |parts| ==> parts[i] == ""
  {
    if |parts| > 0 && parts[|parts| - 1] == "" then DropTrailingEmpty(parts[..|parts| - 1]) else parts
  }

  /** `s.split(d)` for a one-character literal pattern and limit 0: the whole
      string when `d` does not occur, otherwise the pieces between the
      occurrences with the trailing empty pieces removed. */
  function Split(s: string, d: char): (r: seq<string>)
    ensures d !in s ==> r == [s]
    ensures forall i :: 0 <= i < |r| ==> d !in r[i]
  {
    if d !in s then [s] else DropTrailingEmpty(Fields(s, d))
  }

  lemma {:induction false} FieldsOfDelimiterFree(a: string, d: char)
    requires d !in a
    ensures Fields(a, d) == [a]
    decreases |a|
  {
    if |a| > 0 {
      FieldsOfDelimiterFree(a[1..], d);
      assert [a[0]] + a[1..] == a;
    }
  }

  lemma {:induction false} FieldsAfterDelimiterFree(a: string, d: char, rest: string)
    requires d !in a
    ensures Fields(a + [d] + rest, d) == [a] + Fields(rest, d)
    decreases |a|
  {
    var s := a + [d] + rest;
    if |a| == 0 {
      assert s[1..] == rest;
    } else {
      assert s[1..] == a[1..] + [d] + rest;
      FieldsAfterDelimiterFree(a[1..], d, rest);
      assert [a[0]] + a[1..] == a;
    }
  }

  /** Splitting the joined parts on the joining character gives the parts
      back, provided no part contains it. */
  lemma {:induction false} FieldsOfJoin(parts: seq<string>, d: char)
    requires |parts| >= 1
    requires forall i :: 0 <= i < |parts| ==> d !in parts[i]
    ensures Fields(Join(parts, d), d) == parts
    decreases |parts|
  {
    if |parts| == 1 {
      FieldsOfDelimiterFree(parts[0], d);
    } else {
      FieldsOfJoin(parts[1..], d);
      FieldsAfterDelimiterFree(parts[0], d, Join(parts[1..], d));
      assert [parts[0]] + parts[1..] == parts;
    }
  }

  /** `Join(parts, d).split(d)` is `parts` again when no part contains `d` and
      the last part is not empty (Java would drop it). */
  lemma SplitOfJoin(parts: seq<string>, d: char)
    requires |parts| >= 1
    requires forall i :: 0 <= i < |parts| ==> d !in parts[i]
    requires |parts| == 1 || parts[|parts| - 1] != ""
    ensures Split(Join(parts, d), d) == parts
  {
    FieldsOfJoin(parts, d);
    if |parts| > 1 {
      assert d in Join(parts, d) by {
        assert Join(parts, d) == parts[0] + [d] + Join(parts[1..], d);
        assert Join(parts, d)[|parts[0]|] == d;
      }
    } else {
      FieldsOfDelimiterFree(parts[0], d);
    }
  }

  /** The lines that `BufferedReader.readLine` returns one by one for a text
      whose only line terminator is `'\n'`: a final terminator does not start
      another line, and the empty text has no lines. */
  function ReadLines(text: string): (lines: seq<string>)
    ensures forall i :: 0 <= i < |lines| ==> '\n' !in lines[i]
  {
    if text == [] then []
    else if text[|text| - 1] == '\n' then Fields(text[..|text| - 1], '\n')
    else Fields(text, '\n')
  }

  /** The text a `BufferedWriter` holds after `write(line); newLine()` for each
      line in turn, the line separator being `'\n'`. */
  function WriteLines(lines: seq<string>): string {
    if lines == [] then [] else lines[0] + "\n" + WriteLines(lines[1..])
  }

  /** Writing one more line appends it and its terminator. */
  lemma {:induction false} WriteLinesSnoc(lines: seq<string>, line: string)
    ensures WriteLines(lines + [line]) == WriteLines(lines) + line + "\n"
    decreases |lines|
  {
    if lines != [] {
      assert (lines + [line])[1..] == lines[1..] + [line];
      WriteLinesSnoc(lines[1..], line);
    }
  }

  lemma {:induction false} WriteLinesAsJoin(lines: seq<string>)
    requires |lines| >= 1
    ensures WriteLines(lines) == Join(lines, '\n') + "\n"
    decreases |lines|
  {
    if |lines| > 1 {
      WriteLinesAsJoin(lines[1..]);
    }
  }

  /** Reading back what was written line by line gives the same lines,
      provided none of them contains a line break. */
  lemma ReadWrittenLines(lines: seq<string>)
    requires forall i :: 0 <= i < |lines| ==> '\n' !in lines[i]
    ensures ReadLines(WriteLines(lines)) == lines
  {
    if lines != [] {
      WriteLinesAsJoin(lines);
      var text := WriteLines(lines);
      assert text[..|text| - 1] == Join(lines, '\n');
      FieldsOfJoin(lines, '\n');
    }
  }

  /** The values of the lines that `parse` accepts, in the order of the
      lines; the lines it rejects are skipped. */
  function ParsedLines<T>(lines: seq<string>, parse: string -> Option<T>): (r: seq<T>)
    ensures |r| <= |lines|
  {
    if lines == [] then []
    else
      var last := parse(lines[|lines| - 1]);
      ParsedLines(lines[..|lines| - 1], parse) + if last.Some? then [last.value] else []
  }

  /** One more line adds its value, if it has one, at the end. */
  lemma ParsedLinesSnoc<T>(lines: seq<string>, line: string, parse: string -> Option<T>)
    ensures ParsedLines(lines + [line], parse) ==
      ParsedLines(lines, parse) + if parse(line).Some? then [parse(line).value] else []
  {
    assert (lines + [line])[..|lines|] == lines;
  }

  /** The step of a loop over the lines: the first `i + 1` lines parse to
      what the first `i` do, followed by the value of line `i` if it has one. */
  lemma ParsedLinesStep<T>(lines: seq<string>, i: int, parse: string -> Option<T>)
    requires 0 <= i < |lines|
    ensures ParsedLines(lines[..i + 1], parse) ==
      ParsedLines(lines[..i], parse) + if parse(lines[i]).Some? then [parse(lines[i]).value] else []
  {
    assert lines[..i + 1][..i] == lines[..i];
  }

  /** Parsing is line by line: a line that is rejected takes nothing away
      from the others. */
  lemma {:induction false} ParsedLinesAppend<T>(a: seq<string>, b: seq<string>, parse: string -> Option<T>)
    ensures ParsedLines(a + b, parse) == ParsedLines(a, parse) + ParsedLines(b, parse)
    decreases |b|
  {
    if b != [] {
      var front := b[..|b| - 1];
      assert (a + b)[..|a + b| - 1] == a + front;
      assert (a + b)[|a + b| - 1] == b[|b| - 1];
      ParsedLinesAppend(a, front, parse);
    } else {
      assert a + b == a;
    }
  }

  /** Lines that each parse to the value at the same place parse to the
      whole list. */
  lemma {:induction false} ParsedLinesOfEach<T>(lines: seq<string>, values: seq<T>, parse: string -> Option<T>)
    requires |lines| == |values|
    requires forall i :: 0 <= i < |lines| ==> parse(lines[i]) == Some(values[i])
    ensures ParsedLines(lines, parse) == values
    decreases |lines|
  {
    if lines != [] {
      var n := |lines|;
      ParsedLinesOfEach(lines[..n - 1], values[..n - 1], parse);
      assert values == values[..n - 1] + [values[n - 1]];
    }
  }

  // ---------------------------------------------------------------------
  // Integer.parseInt and Integer.toString

  const IntMin: int := -0x8000_0000
  const IntMax: int := 0x7fff_ffff

  /** The values a Java `int` can hold. */
  predicate InIntRange(n: int) { IntMin <= n <= IntMax }

  predicate IsDigit(c: char) { '0' <= c <= '9' }

  predicate AllDigits(s: string) { forall i :: 0 <= i < |s| ==> IsDigit(s[i]) }

  /** The value of a string of decimal digits, most significant first. */
  function DigitsValue(s: string): nat
    requires AllDigits(s)
    decreases |s|
  {
    if |s| == 0 then 0 else 10 * DigitsValue(s[..|s| - 1]) + (s[|s| - 1] as int - '0' as int)
  }

  /** `Integer.parseInt(s)`: an optional `-` or `+`, then at least one digit,
      and the value must fit in an `int`; `None` where Java throws
      NumberFormatException. */
  function ParseInt(s: string): (r: Option<int>)
    ensures r.Some? ==> InIntRange(r.value)
    ensures r.Some? ==> s != [] && (IsDigit(s[0]) || s[0] == '-' || s[0] == '+')
  {
    var signed := |s| > 0 && (s[0] == '-' || s[0] == '+');
    var digits := if signed then s[1..] else s;
    if |digits| == 0 || !AllDigits(digits) then None
    else
      var v: int := if |s| > 0 && s[0] == '-' then 0 - DigitsValue(digits) as int else DigitsValue(digits) as int;
      if InIntRange(v) then Some(v) else None
  }

  function DigitChar(d: nat): char
    requires d < 10
  {
    ('0' as int + d) as char
  }

  /** The decimal digits of `n` without leading zeros. */
  function NatToString(n: nat): (r: string)
    ensures |r| >= 1 && AllDigits(r)
    ensures DigitsValue(r) == n
    ensures r[0] == '0' ==> n == 0
    decreases n
  {
    if n < 10 then [DigitChar(n)]
    else
      var r := NatToString(n / 10) + [DigitChar(n % 10)];
      assert r[..|r| - 1] == NatToString(n / 10);
      r
  }

  /** `Integer.toString(n)`: a minus sign for negative values, then the digits. */
  function IntToString(n: int): (r: string)
    ensures |r| >= 1
  {
    if n < 0 then "-" + NatToString(-n) else NatToString(n)
  }

  /** The text of an `int` holds only digits and possibly a minus sign. */
  lemma IntToStringChars(n: int)
    ensures forall i :: 0 <= i < |IntToString(n)| ==> IsDigit(IntToString(n)[i]) || IntToString(n)[i] == '-'
  {
    if n < 0 {
      var d := NatToString(-n);
      assert IntToString(n) == "-" + d;
      assert forall i :: 1 <= i < |IntToString(n)| ==> IntToString(n)[i] == d[i - 1];
    }
  }

  /** `Integer.parseInt(Integer.toString(n)) == n` for every `int` value. */
  lemma ParseIntToString(n: int)
    requires InIntRange(n)
    ensures ParseInt(IntToString(n)) == Some(n)
  {
    var s := IntToString(n);
    if n < 0 {
      assert s[1..] == NatToString(-n);
    } else {
      assert IsDigit(s[0]);
    }
  }

  /** `IntToString` never produces a character that the game's text formats
      use as a separator. */
  lemma IntToStringHasNoSeparator(n: int, c: char)
    requires !IsDigit(c) && c != '-'
    ensures c !in IntToString(n)
  {
    IntToStringChars(n);
  }

  // ---------------------------------------------------------------------
  // String.strip

  /** `Character.isWhitespace`: the Unicode space, line and paragraph
      separators other than the no-break spaces, and the ASCII controls
      U+0009 to U+000D and U+001C to U+001F. */
  predicate IsJavaWhitespace(c: char) {
    || ('\t' <= c <= '\r')
    || ('\U{001C}' <= c <= ' ')
    || c == '\U{1680}'
    || ('\U{2000}' <= c <= '\U{2006}')
    || ('\U{2008}' <= c <= '\U{200A}')
    || c == '\U{2028}' || c == '\U{2029}' || c == '\U{205F}' || c == '\U{3000}'
  }

  /** Every character of `s[lo..hi]` is white space. */
  predicate WhiteBetween(s: string, lo: int, hi: int)
    requires 0 <= lo <= hi <= |s|
  {
    forall i :: lo <= i < hi ==> IsJavaWhitespace(s[i])
  }

  /** The first position from `i` on that does not hold white space, or
      `|s|` (`indexOfNonWhitespace`). */
  function SkipWhite(s: string, i: nat): (n: nat)
    requires i <= |s|
    ensures i <= n <= |s| && WhiteBetween(s, i, n)
    ensures n == |s| || !IsJavaWhitespace(s[n])
    decreases |s| - i
  {
    if i < |s| && IsJavaWhitespace(s[i]) then SkipWhite(s, i + 1) else i
  }

  /** The end of `s[..j]` once its trailing white space is dropped
      (`lastIndexOfNonWhitespace`). */
  function TrimWhite(s: string, j: nat): (n: nat)
    requires j <= |s|
    ensures n <= j && WhiteBetween(s, n, j)
    ensures n == 0 || !IsJavaWhitespace(s[n - 1])
  {
    if j > 0 && IsJavaWhitespace(s[j - 1]) then TrimWhite(s, j - 1) else j
  }

  /** `s.strip()`: the part of `s` left after removing white space at both
      ends; what was removed is white space, and what is left neither starts
      nor ends with it. */
  function Strip(s: string): (r: string)
    ensures exists i :: 0 <= i <= |s| - |r| && r == s[i..i + |r|]
                        && WhiteBetween(s, 0, i) && WhiteBetween(s, i + |r|, |s|)
    ensures r == [] || (!IsJavaWhitespace(r[0]) && !IsJavaWhitespace(r[|r| - 1]))
  {
    var lo := SkipWhite(s, 0);
    if lo == |s| then
      assert [] == s[lo..lo + 0];
      []
    else
      var hi := TrimWhite(s, |s|);
      assert lo < hi;
      assert s[lo..hi] == s[lo..lo + (hi - lo)];
      s[lo..hi]
  }

  /** Stripping twice is stripping once. */
  lemma StripIdempotent(s: string)
    ensures Strip(Strip(s)) == Strip(s)
  {
    var r := Strip(s);
    if r != [] {
      assert SkipWhite(r, 0) == 0;
      assert TrimWhite(r, |r|) == |r|;
      assert r[0..|r|] == r;
    }
  }
}
