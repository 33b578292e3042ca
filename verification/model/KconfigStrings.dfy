/** String values in configuration files: escaping, quoting, and reading them back. */
module KconfigStrings {
  import opened Basics
  import opened KconfigModel

  /** `s.replace(c, r)`. */
  function Replace(s: string, c: char, r: string): string {
    if s == [] then [] else (if s[0] == c then r else [s[0]]) + Replace(s[1..], c, r)
  }

  /** `escape`: backslashes first, then quotes. */
  function Escape(s: string): string {
    Replace(Replace(s, '\\', "\\\\"), '"', "\\\"")
  }

  /** `unescape`: each backslash that another character follows is dropped, and that character kept. */
  function Unescape(s: string): string {
    if s == [] then []
    else if s[0] == '\\' && |s| > 1 && s[1] != '\n' then [s[1]] + Unescape(s[2..])
    else [s[0]] + Unescape(s[1..])
  }

  /** The longest run of plain and escaped characters at the start of `s`. */
  function Body(s: string): (n: nat)
    ensures n <= |s|
  {
    if s == [] || s[0] == '"' then 0
    else if s[0] != '\\' then 1 + Body(s[1..])
    else if |s| > 1 && s[1] != '\n' then 2 + Body(s[2..])
    else 0
  }

  /** What is between the quotes of the string literal that `s` starts with. */
  function Literal(s: string): Option<string> {
    if s != [] && s[0] == '"' && 1 + Body(s[1..]) < |s| && s[1 + Body(s[1..])] == '"'
    then Some(s[1..1 + Body(s[1..])]) else None
  }

  function InQuotes(s: string): string { "\"" + Escape(s) + "\"" }

  /** Escaping one character. */
  function EscapeChar(c: char): string {
    if c == '\\' then "\\\\" else if c == '"' then "\\\"" else [c]
  }

  lemma {:induction false} ReplaceConcat(a: string, b: string, c: char, r: string)
    ensures Replace(a + b, c, r) == Replace(a, c, r) + Replace(b, c, r)
  {
    if a == [] {
      assert a + b == b;
    } else {
      ReplaceConcat(a[1..], b, c, r);
      assert (a + b)[1..] == a[1..] + b;
    }
  }

  /** The two passes do not get in each other's way. */
  lemma {:induction false} EscapeHead(s: string)
    requires s != []
    ensures Escape(s) == EscapeChar(s[0]) + Escape(s[1..])
  {
    var first := if s[0] == '\\' then "\\\\" else [s[0]];
    ReplaceConcat(first, Replace(s[1..], '\\', "\\\\"), '"', "\\\"");
    ReplaceOne(first);
  }

  lemma ReplaceOne(s: string)
    requires s == "\\\\" || |s| == 1
    ensures Replace(s, '"', "\\\"") == if s == "\"" then "\\\"" else s
  {
    if |s| == 2 {
      assert s[1..] == "\\" && s[1..][1..] == "";
    }
  }

  lemma {:induction false} UnescapeStep(c: char, tail: string)
    ensures Unescape(EscapeChar(c) + tail) == [c] + Unescape(tail)
  {
    var e := EscapeChar(c) + tail;
    if c == '\\' || c == '"' { assert e[2..] == tail; } else { assert e[1..] == tail; }
  }

  lemma {:induction false} UnescapeEscape(s: string)
    ensures Unescape(Escape(s)) == s
  {
    if s != [] {
      EscapeHead(s);
      UnescapeEscape(s[1..]);
      UnescapeStep(s[0], Escape(s[1..]));
    }
  }

  lemma {:induction false} BodyStep(c: char, tail: string)
    ensures Body(EscapeChar(c) + tail) == |EscapeChar(c)| + Body(tail)
  {
    var e := EscapeChar(c) + tail;
    if c == '\\' || c == '"' { assert e[2..] == tail; } else { assert e[1..] == tail; }
  }

  lemma {:induction false} BodyCons(c: char, e: string, rest: string)
    requires Body(e + rest) == |e|
    ensures Body(EscapeChar(c) + e + rest) == |EscapeChar(c) + e|
  {
    BodyStep(c, e + rest);
    assert EscapeChar(c) + e + rest == EscapeChar(c) + (e + rest);
  }

  /** The literal ends at its own closing quote, whatever comes behind it. */
  lemma {:induction false} BodyOfEscaped(s: string, rest: string)
    requires rest != [] && rest[0] == '"'
    ensures Body(Escape(s) + rest) == |Escape(s)|
  {
    if s == [] {
      assert Escape(s) + rest == rest;
    } else {
      EscapeHead(s);
      BodyOfEscaped(s[1..], rest);
      BodyCons(s[0], Escape(s[1..]), rest);
    }
  }

  /** Every string comes back from the file. */
  lemma {:induction false} StringRoundTrip(s: string, rest: string)
    ensures Literal(InQuotes(s) + rest) == Some(Escape(s)) && Unescape(Escape(s)) == s
  {
    UnescapeEscape(s);
    BodyOfEscaped(s, "\"" + rest);
    var text, n := InQuotes(s) + rest, |Escape(s)|;
    assert text[1..] == Escape(s) + ("\"" + rest);
    assert text[1 + n] == '"' && text[1..1 + n] == Escape(s);
  }
}
