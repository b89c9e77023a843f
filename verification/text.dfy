/** Characters, strings and the few JavaScript string operations the parsers use
    (trim, split on newline, includes, startsWith, lastIndexOf, case mapping,
    decimal conversion), all over Dafny strings (seq<char>). */
module Text {

  datatype Option<T> = None | Some(value: T)

  predicate IsDigit(c: char) { '0' <= c <= '9' }
  predicate IsUpper(c: char) { 'A' <= c <= 'Z' }
  predicate IsLower(c: char) { 'a' <= c <= 'z' }
  predicate IsHexDigit(c: char) { IsDigit(c) || 'a' <= c <= 'f' || 'A' <= c <= 'F' }

  /** A "word" character of a regular-expression \b boundary. */
  predicate IsWordChar(c: char) { IsDigit(c) || IsUpper(c) || IsLower(c) || c == '_' }

  /** The regular-expression \s class, which is also the set String.prototype.trim
      removes: the WhiteSpace and LineTerminator code points of ECMAScript. */
  predicate IsSpace(c: char) {
    || c == '\t' || c == '\n' || c == '\U{B}' || c == '\U{C}' || c == '\r' || c == ' '
    || c == '\U{A0}' || c == '\U{1680}' || ('\U{2000}' <= c <= '\U{200A}')
    || c == '\U{2028}' || c == '\U{2029}' || c == '\U{202F}' || c == '\U{205F}'
    || c == '\U{3000}' || c == '\U{FEFF}'
  }

  /** The characters a regular-expression `.` does not match. */
  predicate IsLineTerminator(c: char) {
    c == '\n' || c == '\r' || c == '\U{2028}' || c == '\U{2029}'
  }

  function ToLower(c: char): char { if IsUpper(c) then (c as int + 32) as char else c }
  function ToUpper(c: char): char { if IsLower(c) then (c as int - 32) as char else c }

  function LowerString(s: string): (r: string)
    ensures |r| == |s|
    ensures forall i :: 0 <= i < |s| ==> r[i] == ToLower(s[i])
  {
    seq(|s|, i requires 0 <= i < |s| => ToLower(s[i]))
  }

  function UpperString(s: string): (r: string)
    ensures |r| == |s|
    ensures forall i :: 0 <= i < |s| ==> r[i] == ToUpper(s[i])
  {
    seq(|s|, i requires 0 <= i < |s| => ToUpper(s[i]))
  }

  predicate AllDigits(s: string) { forall i :: 0 <= i < |s| ==> IsDigit(s[i]) }
  predicate HasDigit(s: string) { exists i :: 0 <= i < |s| && IsDigit(s[i]) }

  /** `t` occurs in `s` at position i. */
  predicate LitAt(s: string, i: nat, t: string) {
    i + |t| <= |s| && s[i .. i + |t|] == t
  }

  /** `t` occurs in `s` at position i up to ASCII case (a regular expression with the i flag). */
  predicate LitAtCI(s: string, i: nat, t: string) {
    i + |t| <= |s| && LowerString(s[i .. i + |t|]) == LowerString(t)
  }

  /** String.prototype.includes */
  predicate Contains(s: string, t: string) {
    exists i :: 0 <= i <= |s| && LitAt(s, i, t)
  }

  /** String.prototype.startsWith */
  predicate StartsWith(s: string, t: string) { LitAt(s, 0, t) }

  /** The end of the longest run of characters satisfying p that starts at i. */
  function RunEnd(s: string, i: nat, p: char -> bool): (j: nat)
    requires i <= |s|
    ensures i <= j <= |s|
    ensures forall k :: i <= k < j ==> p(s[k])
    ensures j == |s| || !p(s[j])
    decreases |s| - i
  {
    if i == |s| || !p(s[i]) then i else RunEnd(s, i + 1, p)
  }

  /** The start of the longest run of characters satisfying p that ends at j. */
  function RunStart(s: string, j: nat, p: char -> bool): (i: nat)
    requires j <= |s|
    ensures i <= j
    ensures forall k :: i <= k < j ==> p(s[k])
    ensures i == 0 || !p(s[i - 1])
  {
    if j == 0 || !p(s[j - 1]) then j else RunStart(s, j - 1, p)
  }

  predicate AllSpace(s: string) { forall i :: 0 <= i < |s| ==> IsSpace(s[i]) }

  /** String.prototype.trim: the text between the leading and the trailing white space. */
  function Trim(s: string): (r: string)
    ensures exists i, j :: 0 <= i <= j <= |s| && r == s[i..j] && AllSpace(s[..i]) && AllSpace(s[j..])
    ensures r == [] || (!IsSpace(r[0]) && !IsSpace(r[|r| - 1]))
  {
    var i := RunEnd(s, 0, IsSpace);
    var j := RunStart(s, |s|, IsSpace);
    if j <= i then
      assert i == |s|;
      SpaceEnds(s, |s|, |s|);
      s[|s|..|s|]
    else
      SpaceEnds(s, i, j);
      var r := s[i..j];
      assert r[0] == s[i] && r[|r| - 1] == s[j - 1];
      r
  }

  lemma SpaceEnds(s: string, i: nat, j: nat)
    requires i <= j <= |s|
    requires forall k :: 0 <= k < i ==> IsSpace(s[k])
    requires forall k :: j <= k < |s| ==> IsSpace(s[k])
    ensures AllSpace(s[..i]) && AllSpace(s[j..])
  {
    assert forall k :: 0 <= k < i ==> s[..i][k] == s[k];
    assert forall k :: 0 <= k < |s| - j ==> s[j..][k] == s[j + k];
  }

  lemma TrimEmptyIffAllSpace(s: string)
    ensures Trim(s) == [] <==> AllSpace(s)
  {
    var r := Trim(s);
    var i, j :| 0 <= i <= j <= |s| && r == s[i..j] && AllSpace(s[..i]) && AllSpace(s[j..]);
    if r == [] {
      SpaceHalves(s, i);
    } else {
      assert s[i] == r[0];
      assert !IsSpace(s[i]);
    }
  }

  lemma SpaceHalves(s: string, i: nat)
    requires i <= |s| && AllSpace(s[..i]) && AllSpace(s[i..])
    ensures AllSpace(s)
  {
    forall k | 0 <= k < |s| ensures IsSpace(s[k]) {
      if k < i { assert s[k] == s[..i][k]; } else { assert s[k] == s[i..][k - i]; }
    }
  }

  /** Trimming is idempotent. */
  lemma TrimIdempotent(s: string)
    ensures Trim(Trim(s)) == Trim(s)
  {
  }

  /** String.prototype.split('\n'): the pieces between newline characters. */
  function SplitLines(s: string): (r: seq<string>)
    ensures |r| >= 1
    ensures forall k :: 0 <= k < |r| ==> '\n' !in r[k]
    decreases |s|
  {
    var k := RunEnd(s, 0, c => c != '\n');
    if k == |s| then
      assert s[..k] == s;
      [s]
    else
      [s[..k]] + SplitLines(s[k + 1..])
  }

  /** Array.prototype.join(sep). */
  function Join(parts: seq<string>, sep: string): string
  {
    if parts == [] then "" else if |parts| == 1 then parts[0] else parts[0] + sep + Join(parts[1..], sep)
  }

  /** Joining the pieces of a split with newlines gives back the text. */
  lemma {:induction false} JoinSplitLines(s: string)
    ensures Join(SplitLines(s), "\n") == s
    decreases |s|
  {
    var k := RunEnd(s, 0, c => c != '\n');
    if k == |s| {
      assert s[..k] == s;
    } else {
      var rest := SplitLines(s[k + 1..]);
      assert SplitLines(s) == [s[..k]] + rest;
      JoinSplitLines(s[k + 1..]);
      assert ([s[..k]] + rest)[1..] == rest;
      assert s == s[..k] + "\n" + s[k + 1..];
    }
  }

  /** Splitting lines that hold no newline, once joined with newlines, gives them back. */
  lemma {:induction false} SplitJoinLines(parts: seq<string>)
    requires parts != [] && forall k :: 0 <= k < |parts| ==> '\n' !in parts[k]
    ensures SplitLines(Join(parts, "\n")) == parts
    decreases |parts|
  {
    var s := Join(parts, "\n");
    var p := parts[0];
    var k := RunEnd(s, 0, c => c != '\n');
    if |parts| == 1 {
      assert s == p;
      NoNewlineRunEnd(s);
      assert s[..k] == s;
    } else {
      var rest := parts[1..];
      assert s == p + "\n" + Join(rest, "\n");
      assert s[|p|] == '\n';
      assert forall i :: 0 <= i < |p| ==> s[i] == p[i];
      assert k == |p|;
      assert s[..k] == p;
      assert s[k + 1..] == Join(rest, "\n");
      SplitJoinLines(rest);
      assert parts == [p] + rest;
    }
  }

  /** Text without a newline character. */
  predicate OneLine(s: string) { '\n' !in s }

  /** A header line followed by newline-joined rows splits back into the header and the
      rows; with no rows the text ends in a newline, which splits off an empty line. */
  lemma SplitHeaderAndRows(text: string, header: string, rows: seq<string>)
    requires OneLine(header) && forall k :: 0 <= k < |rows| ==> OneLine(rows[k])
    requires text == header + "\n" + Join(rows, "\n")
    ensures var lines := SplitLines(text);
      && lines[0] == header
      && (rows == [] ==> lines == [header, ""])
      && (rows != [] ==> |lines| == |rows| + 1)
      && forall k :: 0 <= k < |rows| ==> lines[k + 1] == rows[k]
  {
    if rows == [] {
      SplitHeaderOnly(header);
    } else {
      SplitHeaderThenRows(header, rows);
      HeadAndTail(SplitLines(text), header, rows);
    }
  }

  lemma SplitHeaderOnly(header: string)
    requires OneLine(header)
    ensures SplitLines(header + "\n" + Join([], "\n")) == [header, ""]
  {
    var parts := [header, ""];
    assert parts[1..] == [""];
    SplitJoinLines(parts);
  }

  lemma SplitHeaderThenRows(header: string, rows: seq<string>)
    requires rows != [] && OneLine(header) && forall k :: 0 <= k < |rows| ==> OneLine(rows[k])
    ensures SplitLines(header + "\n" + Join(rows, "\n")) == [header] + rows
  {
    var parts := [header] + rows;
    assert parts[1..] == rows;
    forall k | 0 <= k < |parts| ensures '\n' !in parts[k] {
      if k > 0 { assert parts[k] == rows[k - 1]; }
    }
    SplitJoinLines(parts);
  }

  lemma HeadAndTail<T>(lines: seq<T>, header: T, rows: seq<T>)
    requires lines == [header] + rows
    ensures lines[0] == header && |lines| == |rows| + 1
    ensures forall k :: 0 <= k < |rows| ==> lines[k + 1] == rows[k]
  {
  }

  /** Three one-line fields joined by commas make one line. */
  lemma CommaRowOneLine(a: string, b: string, c: string)
    requires OneLine(a) && OneLine(b) && OneLine(c)
    ensures OneLine(a + "," + b + "," + c)
  {
  }

  lemma NoNewlineRunEnd(s: string)
    requires '\n' !in s
    ensures RunEnd(s, 0, c => c != '\n') == |s|
  {
  }

  /** The index of the last occurrence of c, or -1 (String.prototype.lastIndexOf). */
  function LastIndexOf(s: string, c: char): (r: int)
    ensures -1 <= r < |s|
    ensures r >= 0 ==> s[r] == c && forall k :: r < k < |s| ==> s[k] != c
    ensures r == -1 ==> c !in s
  {
    var i := RunStart(s, |s|, x => x != c);
    if i == 0 then -1 else i - 1
  }

  /** The text before the first occurrence of c, or all of s. */
  function TakeUntil(s: string, c: char): (r: string)
    ensures r <= s && c !in r
    ensures |r| < |s| ==> s[|r|] == c
  {
    s[..RunEnd(s, 0, x => x != c)]
  }

  function DigitValue(c: char): nat requires IsDigit(c) { c as int - '0' as int }

  /** The value of a decimal numeral. */
  function DigitsValue(s: string): nat
    requires AllDigits(s)
  {
    if s == [] then 0 else 10 * DigitsValue(s[..|s| - 1]) + DigitValue(s[|s| - 1])
  }

  /** The JavaScript decimal rendering of a non-negative integer (Number.prototype.toString). */
  function NatToString(n: nat): (r: string)
    ensures |r| >= 1 && AllDigits(r)
    ensures n >= 10 ==> |r| >= 2
    ensures DigitsValue(r) == n
  {
    var d := ['0' + (n % 10) as char];
    if n < 10 then d else NatToString(n / 10) + d
  }

  lemma NatToStringInjective(m: nat, n: nat)
    requires NatToString(m) == NatToString(n)
    ensures m == n
  {
  }

  /** parseInt applied to a string that starts with a decimal digit: the value of the leading
      digit run; None stands for NaN. */
  function LeadingInt(s: string): (r: Option<nat>)
    ensures r.None? <==> (s == [] || !IsDigit(s[0]))
    ensures AllDigits(s) && s != [] ==> r == Some(DigitsValue(s))
  {
    if s == [] || !IsDigit(s[0]) then None
    else
      var e := RunEnd(s, 0, IsDigit);
      assert AllDigits(s) ==> e == |s| && s[..e] == s;
      Some(DigitsValue(s[..e]))
  }
}
