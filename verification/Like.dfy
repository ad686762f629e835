/**
 * The search pattern of the admin page and the database's LIKE that reads it back:
 * escapeLike of internal/database/admin_submissions.go, section 8.5 of ISO/IEC 9075-2.
 */
module Like {
  import opened Wrappers
  import opened Strings

  const ESCAPE := '\\'

  /** The substring specifiers a pattern is made of. */
  datatype Specifier = AnyString | AnyChar | Literal(c: char)

  predicate IsSpecial(c: char) {
    c == ESCAPE || c == '%' || c == '_'
  }

  /** None when an escape is not followed by a character it may escape. */
  function Specifiers(pattern: string): Option<seq<Specifier>> {
    if pattern == "" then Some([])
    else if pattern[0] == ESCAPE then
      if |pattern| < 2 || !IsSpecial(pattern[1]) then None else Prepend(Literal(pattern[1]), Specifiers(pattern[2..]))
    else
      var first := if pattern[0] == '%' then AnyString else if pattern[0] == '_' then AnyChar else Literal(pattern[0]);
      Prepend(first, Specifiers(pattern[1..]))
  }

  function Prepend(first: Specifier, rest: Option<seq<Specifier>>): Option<seq<Specifier>> {
    if rest.None? then None else Some([first] + rest.value)
  }

  /** The string splits into substrings, one for each specifier. */
  predicate Matches(s: string, specifiers: seq<Specifier>)
    decreases |specifiers|
  {
    if specifiers == [] then s == ""
    else
      match specifiers[0]
      case AnyString => exists n :: 0 <= n <= |s| && Matches(s[n..], specifiers[1..])
      case AnyChar => s != "" && Matches(s[1..], specifiers[1..])
      case Literal(c) => s != "" && s[0] == c && Matches(s[1..], specifiers[1..])
  }

  /** `s LIKE pattern ESCAPE '\'`; None is the database's error. */
  function LikeResult(s: string, pattern: string): Option<bool> {
    match Specifiers(pattern)
    case None => None
    case Some(specifiers) => Some(Matches(s, specifiers))
  }

  function EscapeChar(c: char): string {
    if IsSpecial(c) then [ESCAPE, c] else [c]
  }

  /** The replacer's three one-character rules. */
  function EscapeLike(value: string): string {
    if value == "" then "" else EscapeChar(value[0]) + EscapeLike(value[1..])
  }

  function SearchPattern(text: string): string {
    "%" + EscapeLike(text) + "%"
  }

  function Literals(text: string): seq<Specifier> {
    seq(|text|, i requires 0 <= i < |text| => Literal(text[i]))
  }

  /** An escaped character reads back as itself, in front of any pattern. */
  lemma EscapedCharReads(c: char, rest: string)
    ensures Specifiers(EscapeChar(c) + rest) == Prepend(Literal(c), Specifiers(rest))
  {
    var pattern := EscapeChar(c) + rest;
    assert pattern[|EscapeChar(c)|..] == rest;
  }

  lemma WildcardReads(c: char, rest: string)
    requires c == '%' || c == '_'
    ensures Specifiers([c] + rest) == Prepend(if c == '%' then AnyString else AnyChar, Specifiers(rest))
  {
    assert ([c] + rest)[1..] == rest;
  }

  lemma PercentReads()
    ensures Specifiers("%") == Some([AnyString])
  {
    WildcardReads('%', "");
    assert ['%'] + "" == "%";
    assert Prepend(AnyString, Some([])) == Some([AnyString] + []) && [AnyString] + [] == [AnyString];
  }

  lemma {:induction false} EscapedReads(text: string, rest: string)
    requires Specifiers(rest).Some?
    ensures Specifiers(EscapeLike(text) + rest) == Some(Literals(text) + Specifiers(rest).value)
  {
    if text == "" {
      assert EscapeLike(text) + rest == rest && Literals(text) + Specifiers(rest).value == Specifiers(rest).value;
    } else {
      var tail := EscapeLike(text[1..]) + rest;
      EscapedReads(text[1..], rest);
      EscapedCharReads(text[0], tail);
      assert EscapeLike(text) + rest == EscapeChar(text[0]) + tail;
      assert Literals(text) + Specifiers(rest).value == [Literal(text[0])] + (Literals(text[1..]) + Specifiers(rest).value);
    }
  }

  lemma {:induction false} LiteralsMatch(s: string, text: string, rest: seq<Specifier>)
    ensures Matches(s, Literals(text) + rest) <==> HasPrefix(s, text) && Matches(s[|text|..], rest)
    decreases |text|
  {
    if text == "" {
      assert Literals(text) + rest == rest && s[0..] == s;
    } else {
      var specifiers := Literals(text) + rest;
      assert specifiers[0] == Literal(text[0]);
      assert specifiers[1..] == Literals(text[1..]) + rest;
      if s != "" && s[0] == text[0] {
        LiteralsMatch(s[1..], text[1..], rest);
        assert HasPrefix(s, text) <==> HasPrefix(s[1..], text[1..]) by {
          assert s == [s[0]] + s[1..] && text == [text[0]] + text[1..];
        }
        assert HasPrefix(s, text) ==> s[1..][|text[1..]|..] == s[|text|..];
      }
    }
  }

  lemma AnyStringMatches(s: string)
    ensures Matches(s, [AnyString])
  {
    assert s[|s|..] == "";
    assert Matches(s[|s|..], [AnyString][1..]);
  }

  /**
   * For every text the pattern is well formed and matches exactly the strings that contain
   * the text, special characters included.
   */
  lemma SearchIsContains(s: string, text: string)
    ensures LikeResult(s, SearchPattern(text)) == Some(Contains(s, text))
  {
    var inner := EscapeLike(text) + "%";
    PercentReads();
    EscapedReads(text, "%");
    WildcardReads('%', inner);
    assert SearchPattern(text) == ['%'] + inner;
    var tail := Literals(text) + [AnyString];
    assert Specifiers(SearchPattern(text)) == Some([AnyString] + tail);
    assert ([AnyString] + tail)[1..] == tail;
    forall n | 0 <= n <= |s|
      ensures Matches(s[n..], tail) <==> HasPrefix(s[n..], text)
    {
      LiteralsMatch(s[n..], text, [AnyString]);
      if HasPrefix(s[n..], text) {
        AnyStringMatches(s[n..][|text|..]);
      }
    }
  }

  /** Different searches give different patterns. */
  lemma PatternsDiffer(a: string, b: string)
    requires SearchPattern(a) == SearchPattern(b)
    ensures a == b
  {
    SearchIsContains(a, a);
    SearchIsContains(a, b);
    SearchIsContains(b, a);
    SearchIsContains(b, b);
    SelfContained(a);
    SelfContained(b);
    ContainsBothWays(a, b);
  }

  lemma SelfContained(a: string)
    ensures Contains(a, a)
  {
    assert a[0..] == a;
  }

  lemma ContainsBothWays(a: string, b: string)
    requires Contains(a, b) && Contains(b, a)
    ensures a == b
  {
  }

  /** Without the escaping an underscore would match any character. */
  lemma RawUnderscore()
    ensures LikeResult("a", "%_%") == Some(true) && !Contains("a", "_")
  {
    PercentReads();
    WildcardReads('_', "%");
    WildcardReads('%', "_%");
    assert "%_%" == ['%'] + "_%" && "_%" == ['_'] + "%";
    assert [AnyString] + ([AnyChar] + [AnyString]) == [AnyString, AnyChar, AnyString];
    AnyStringMatches("");
    assert "a"[1..] == "" && "a"[0..] == "a";
    assert [AnyString, AnyChar, AnyString][1..] == [AnyChar, AnyString] && [AnyChar, AnyString][1..] == [AnyString];
    assert Matches("a", [AnyChar, AnyString]);
    assert Matches("a"[0..], [AnyString, AnyChar, AnyString][1..]);
  }
}
