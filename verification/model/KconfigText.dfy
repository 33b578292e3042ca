/** Configuration files as text: lines, trailing whitespace, and the two forms of an assignment. */
module KconfigText {
  import opened Basics
  import opened KconfigModel
  import opened KconfigStrings

  const PREFIX: string := "CONFIG_"

  // ---- Lines ----

  /** What ends a line of a file that is read with universal newlines. */
  predicate Ends(c: char) { c == '\n' || c == '\r' }

  predicate OneLine(s: string) { forall k :: 0 <= k < |s| ==> !Ends(s[k]) }

  /** The length of the first line. */
  function LineLength(text: string): (n: nat)
    ensures n <= |text| && OneLine(text[..n]) && (n < |text| ==> Ends(text[n]))
  {
    if text == [] || Ends(text[0]) then 0 else 1 + LineLength(text[1..])
  }

  /** The lines of a file; `\r\n` ends one line. */
  function SplitLines(text: string): seq<string>
    decreases |text|
  {
    if text == [] then []
    else
      var n := LineLength(text);
      if n == |text| then [text]
      else if text[n] == '\r' && n + 1 < |text| && text[n + 1] == '\n' then [text[..n]] + SplitLines(text[n + 2..])
      else [text[..n]] + SplitLines(text[n + 1..])
  }

  lemma {:induction false} LengthOfLine(line: string, rest: string)
    requires OneLine(line)
    ensures LineLength(line + "\n" + rest) == |line|
  {
    if line == [] {
      assert line + "\n" + rest == "\n" + rest;
    } else {
      assert OneLine(line[1..]);
      LengthOfLine(line[1..], rest);
      assert (line + "\n" + rest)[1..] == line[1..] + "\n" + rest;
    }
  }

  /** A line that was written is read as one line. */
  lemma FirstLine(line: string, rest: string)
    requires OneLine(line)
    ensures SplitLines(line + "\n" + rest) == [line] + SplitLines(rest)
  {
    var text := line + "\n" + rest;
    LengthOfLine(line, rest);
    assert text[..|line|] == line && text[|line| + 1..] == rest;
  }

  lemma {:induction false} LengthOfAny(line: string, rest: string)
    requires OneLine(line) && rest != [] && Ends(rest[0])
    ensures LineLength(line + rest) == |line|
  {
    if line == [] {
      assert line + rest == rest;
    } else {
      assert OneLine(line[1..]);
      LengthOfAny(line[1..], rest);
      assert (line + rest)[1..] == line[1..] + rest;
    }
  }

  /** A carriage return ends a line as a line feed does, and together they end one line; the last line needs no end. */
  lemma LineEnds(line: string, rest: string)
    requires OneLine(line)
    ensures SplitLines(line + "\r\n" + rest) == [line] + SplitLines(rest)
    ensures !("\n" <= rest) ==> SplitLines(line + "\r" + rest) == [line] + SplitLines(rest)
    ensures line != "" ==> SplitLines(line) == [line]
  {
    var both, one := line + "\r\n" + rest, line + "\r" + rest;
    assert both == line + ("\r\n" + rest) && one == line + ("\r" + rest);
    LengthOfAny(line, "\r\n" + rest);
    LengthOfAny(line, "\r" + rest);
    assert both[..|line|] == line && both[|line| + 2..] == rest;
    assert one[..|line|] == line && one[|line| + 1..] == rest;
    LengthOfAll(line);
  }

  lemma {:induction false} LengthOfAll(line: string)
    requires OneLine(line)
    ensures LineLength(line) == |line|
  {
    if line != [] { LengthOfAll(line[1..]); }
  }

  lemma {:induction false} LinesAreOneLine(text: string)
    ensures forall line :: line in SplitLines(text) ==> OneLine(line)
    decreases |text|
  {
    if text != [] {
      var n := LineLength(text);
      assert text[..|text|] == text;
      if n < |text| {
        if text[n] == '\r' && n + 1 < |text| && text[n + 1] == '\n' {
          LinesAreOneLine(text[n + 2..]);
        } else {
          LinesAreOneLine(text[n + 1..]);
        }
      }
    }
  }

  // ---- Trailing whitespace ----

  /** `str.isspace` of one character. */
  predicate Space(c: char) {
    || '\t' <= c <= '\r' || '\U{1c}' <= c <= ' ' || c == '\U{85}' || c == '\U{a0}' || c == '\U{1680}'
    || '\U{2000}' <= c <= '\U{200a}' || c == '\U{2028}' || c == '\U{2029}' || c == '\U{202f}' || c == '\U{205f}'
    || c == '\U{3000}'
  }

  predicate Trimmed(s: string) { s != [] ==> !Space(s[|s| - 1]) }

  /** `str.rstrip`. */
  function Rstrip(s: string): (r: string)
    ensures Trimmed(r) && r <= s && (Trimmed(s) ==> r == s)
  {
    if Trimmed(s) then s else Rstrip(s[..|s| - 1])
  }

  // ---- CONFIG_X=value ----

  function Split(s: string, c: char): (n: nat)
    ensures n <= |s|
  {
    if s == [] || s[0] == c then 0 else 1 + Split(s[1..], c)
  }

  /** The set_match expression: a name without '=', then the rest of the line. */
  function Assignment(line: string): Option<(string, string)> {
    if !(PREFIX <= line) then None
    else
      var rest := line[|PREFIX|..];
      var n := Split(rest, '=');
      if 0 < n < |rest| then Some((rest[..n], rest[n + 1..])) else None
  }

  function Assigns(name: string, right: string): string { PREFIX + name + "=" + right }

  // ---- # CONFIG_X is not set ----

  const UNSET: string := "# " + PREFIX
  const NOT_SET: string := " is not set"

  /** The unset_match expression: a name without spaces. Whatever follows is not looked at. */
  function Unsetting(line: string): Option<string> {
    if !(UNSET <= line) then None
    else
      var rest := line[|UNSET|..];
      var n := Split(rest, ' ');
      if 0 < n && NOT_SET <= rest[n..] then Some(rest[..n]) else None
  }

  function Unsets(name: string): string { UNSET + name + NOT_SET }

  // ---- Lines that were written are read back ----

  /** Neither '=' nor whitespace: names are made of letters, digits and underscores. */
  predicate PlainName(name: string) {
    name != [] && forall k :: 0 <= k < |name| ==> name[k] != '=' && !Space(name[k])
  }

  lemma {:induction false} SplitName(name: string, c: char, rest: string)
    requires forall k :: 0 <= k < |name| ==> name[k] != c
    ensures Split(name + [c] + rest, c) == |name|
  {
    if name == [] {
      assert name + [c] + rest == [c] + rest;
    } else {
      SplitName(name[1..], c, rest);
      assert (name + [c] + rest)[1..] == name[1..] + [c] + rest;
    }
  }

  lemma AssignmentBack(name: string, right: string)
    requires name != "" && forall k :: 0 <= k < |name| ==> name[k] != '='
    ensures Assignment(Assigns(name, right)) == Some((name, right))
  {
    var line := Assigns(name, right);
    SplitName(name, '=', right);
    var rest := line[|PREFIX|..];
    assert PREFIX <= line && rest == name + "=" + right;
    assert rest[..|name|] == name && rest[|name| + 1..] == right;
  }

  lemma UnsettingBack(name: string)
    requires PlainName(name)
    ensures Unsetting(Unsets(name)) == Some(name) && Assignment(Unsets(name)) == None
  {
    var line := Unsets(name);
    var rest := line[|UNSET|..];
    assert UNSET <= line && rest == name + NOT_SET && NOT_SET == " " + NOT_SET[1..];
    SplitName(name, ' ', NOT_SET[1..]);
    assert rest == name + [' '] + NOT_SET[1..];
    assert rest[..|name|] == name && rest[|name|..] == NOT_SET;
    assert line[0] == '#' && PREFIX[0] == 'C';
  }

  lemma {:induction false} SplitFinds(s: string, c: char)
    ensures forall k :: 0 <= k < Split(s, c) ==> s[k] != c
    ensures Split(s, c) < |s| ==> s[Split(s, c)] == c
  {
    if s != [] && s[0] != c {
      SplitFinds(s[1..], c);
      forall k | 0 < k < Split(s, c) ensures s[k] != c { assert s[k] == s[1..][k - 1]; }
    }
  }

  lemma AssignmentWas(line: string, name: string, right: string)
    requires Assignment(line) == Some((name, right))
    ensures line == Assigns(name, right) && name != "" && forall k :: 0 <= k < |name| ==> name[k] != '='
  {
    var rest := line[|PREFIX|..];
    SplitFinds(rest, '=');
    assert line == PREFIX + rest && rest == name + "=" + right;
  }

  /** The lines that are assignments: a name without '=', then '=' and anything. */
  lemma AssignmentExact(line: string, name: string, right: string)
    ensures Assignment(line) == Some((name, right)) <==>
            line == Assigns(name, right) && name != "" && forall k :: 0 <= k < |name| ==> name[k] != '='
  {
    if Assignment(line) == Some((name, right)) { AssignmentWas(line, name, right); }
    if name != "" && forall k :: 0 <= k < |name| ==> name[k] != '=' { AssignmentBack(name, right); }
  }

  lemma PartsJoin(line: string, a: string, name: string, b: string, n: nat)
    requires a <= line && n <= |line[|a|..]| && name == line[|a|..][..n] && b <= line[|a|..][n..]
    ensures a + name + b <= line
  {
    var tail := line[|a|..][n..];
    assert line == a + name + tail && tail == b + tail[|b|..];
  }

  lemma PartsApart(line: string, a: string, name: string, c: char, b: string)
    requires a + name + ([c] + b) <= line
    ensures a <= line && |name| <= |line[|a|..]| && line[|a|..][..|name|] == name && [c] + b <= line[|a|..][|name|..]
    ensures exists tail :: line[|a|..] == name + [c] + tail
  {
    var after := line[|a + name + ([c] + b)|..];
    assert line == a + name + ([c] + b) + after;
    assert line[|a|..] == name + [c] + (b + after) && line[|a|..][|name|..] == [c] + b + after;
  }

  /** The lines that unset a symbol: a name without spaces, " is not set" right behind it, and anything after that. */
  lemma UnsettingExact(line: string, name: string)
    ensures Unsetting(line) == Some(name) <==>
            Unsets(name) <= line && name != "" && forall k :: 0 <= k < |name| ==> name[k] != ' '
  {
    if Unsetting(line) == Some(name) {
      SplitFinds(line[|UNSET|..], ' ');
      PartsJoin(line, UNSET, name, NOT_SET, Split(line[|UNSET|..], ' '));
    }
    if Unsets(name) <= line && name != "" && forall k :: 0 <= k < |name| ==> name[k] != ' ' {
      assert NOT_SET == [' '] + NOT_SET[1..];
      PartsApart(line, UNSET, name, ' ', NOT_SET[1..]);
      var tail :| line[|UNSET|..] == name + [' '] + tail;
      SplitName(name, ' ', tail);
    }
  }

  lemma NameIsLine(name: string)
    requires PlainName(name)
    ensures OneLine(name)
  {
  }

  lemma AssignsOnLine(name: string, right: string)
    requires PlainName(name)
    ensures OneLine(Assigns(name, right)) <==> OneLine(right)
    ensures Trimmed(Assigns(name, right)) <==> Trimmed(right)
  {
    NameIsLine(name);
    OneLineConcat(PREFIX, name);
    OneLineConcat(PREFIX + name, "=");
    OneLineConcat(PREFIX + name + "=", right);
  }

  lemma UnsetsOnLine(name: string)
    requires PlainName(name)
    ensures OneLine(Unsets(name)) && Trimmed(Unsets(name))
  {
    NameIsLine(name);
    OneLineConcat(UNSET, name);
    OneLineConcat(UNSET + name, NOT_SET);
    assert Unsets(name)[|Unsets(name)| - 1] == NOT_SET[|NOT_SET| - 1] == 't';
  }

  lemma InQuotesOnLine(s: string)
    ensures OneLine(InQuotes(s)) <==> OneLine(s)
    ensures Trimmed(InQuotes(s))
  {
    EscapeOneLine(s);
    OneLineConcat("\"", Escape(s));
    OneLineConcat("\"" + Escape(s), "\"");
  }

  // ---- What is read from one line stays within it ----

  lemma RightSideClean(line: string)
    requires OneLine(line) && Trimmed(line) && Assignment(line).Some?
    ensures OneLine(Assignment(line).value.1) && Trimmed(Assignment(line).value.1)
  {
    var right := Assignment(line).value.1;
    assert forall k :: 0 <= k < |right| ==> right[k] == line[|line| - |right| + k];
  }

  lemma {:induction false} UnescapeOneLine(s: string)
    requires OneLine(s)
    ensures OneLine(Unescape(s))
    decreases |s|
  {
    if s != [] {
      if s[0] == '\\' && |s| > 1 && s[1] != '\n' {
        assert OneLine(s[2..]);
        UnescapeOneLine(s[2..]);
      } else {
        assert OneLine(s[1..]);
        UnescapeOneLine(s[1..]);
      }
    }
  }

  lemma LiteralOneLine(s: string)
    requires OneLine(s) && Literal(s).Some?
    ensures OneLine(Unescape(Literal(s).value))
  {
    assert OneLine(Literal(s).value);
    UnescapeOneLine(Literal(s).value);
  }

  lemma {:induction false} EscapeOneLine(s: string)
    ensures OneLine(Escape(s)) <==> OneLine(s)
  {
    if s != [] {
      EscapeHead(s);
      EscapeOneLine(s[1..]);
      OneLineConcat(EscapeChar(s[0]), Escape(s[1..]));
      OneLineConcat([s[0]], s[1..]);
      assert [s[0]] + s[1..] == s;
    }
  }

  lemma OneLineConcat(a: string, b: string)
    ensures OneLine(a + b) <==> OneLine(a) && OneLine(b)
  {
    if OneLine(a + b) {
      assert forall k :: 0 <= k < |a| ==> a[k] == (a + b)[k];
      assert forall k :: 0 <= k < |b| ==> b[k] == (a + b)[|a| + k];
    }
  }
}
