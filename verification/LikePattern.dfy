/** Escaping of the schema and table name patterns sent to Unity Catalog (backend/validation.go). */
module LikePattern {
  import opened Wrappers
  import opened QuerySql

  /** The three successive replacements. */
  function EscapeLike(value: string): string
  {
    ReplaceAll(ReplaceAll(ReplaceAll(value, '\\', "\\\\"), '%', "\\%"), '_', "\\_")
  }

  predicate Special(c: char)
  {
    c == '\\' || c == '%' || c == '_'
  }

  /** One pass, one character at a time. */
  function Escaped(value: string): string
  {
    if value == "" then "" else (if Special(value[0]) then ['\\', value[0]] else [value[0]]) + Escaped(value[1..])
  }

  lemma {:induction false} ReplaceConcat(a: string, b: string, needle: char, sub: string)
    ensures ReplaceAll(a + b, needle, sub) == ReplaceAll(a, needle, sub) + ReplaceAll(b, needle, sub)
  {
    if a == "" {
      assert a + b == b;
    } else {
      assert (a + b)[1..] == a[1..] + b;
      ReplaceConcat(a[1..], b, needle, sub);
    }
  }

  lemma ReplacePair(c: char, d: char, needle: char, sub: string)
    requires c != needle && d != needle
    ensures ReplaceAll([c, d], needle, sub) == [c, d]
  {
    ReplaceAbsent([c, d], needle, sub);
  }

  /** No replacement disturbs what an earlier one wrote, so their order cannot matter. */
  lemma {:induction false} SuccessiveIsCharacterwise(value: string)
    ensures EscapeLike(value) == Escaped(value)
  {
    if value != "" {
      var c, tail := value[0], value[1..];
      SuccessiveIsCharacterwise(tail);
      assert value == [c] + tail;
      ReplaceConcat([c], tail, '\\', "\\\\");
      var a, ta := ReplaceAll([c], '\\', "\\\\"), ReplaceAll(tail, '\\', "\\\\");
      ReplaceConcat(a, ta, '%', "\\%");
      var b, tb := ReplaceAll(a, '%', "\\%"), ReplaceAll(ta, '%', "\\%");
      ReplaceConcat(b, tb, '_', "\\_");
      EscapeOne(c);
    }
  }

  lemma EscapeOne(c: char)
    ensures EscapeLike([c]) == if Special(c) then ['\\', c] else [c]
  {
    if c == '\\' {
      ReplacePair('\\', '\\', '%', "\\%");
      ReplacePair('\\', '\\', '_', "\\_");
    } else if c == '%' {
      ReplacePair('\\', '%', '_', "\\_");
    }
  }

  /** The LIKE predicate of section 8.5 of ISO/IEC 9075-2 with a backslash as the escape character. */
  predicate Like(pattern: string, text: string)
    decreases |pattern|, |text|
  {
    if pattern == "" then text == ""
    else if pattern[0] == '\\' then
      |pattern| >= 2 && Special(pattern[1]) && text != "" && text[0] == pattern[1] && Like(pattern[2..], text[1..])
    else if pattern[0] == '%' then Like(pattern[1..], text) || (text != "" && Like(pattern, text[1..]))
    else text != "" && (pattern[0] == '_' || text[0] == pattern[0]) && Like(pattern[1..], text[1..])
  }

  lemma {:induction false} EscapedMatchesOnlyItself(value: string, text: string)
    ensures Like(Escaped(value), text) <==> text == value
  {
    if value != "" {
      var rest := Escaped(value[1..]);
      if Special(value[0]) {
        assert Escaped(value)[2..] == rest;
      } else {
        assert Escaped(value)[1..] == rest;
      }
      if text != "" {
        EscapedMatchesOnlyItself(value[1..], text[1..]);
        assert text == [text[0]] + text[1..] && value == [value[0]] + value[1..];
      }
    }
  }

  /** What the name patterns rely on: the escaped pattern selects exactly the literal name. */
  lemma EscapeLikeIsLiteral(value: string, text: string)
    ensures Like(EscapeLike(value), text) <==> text == value
  {
    SuccessiveIsCharacterwise(value);
    EscapedMatchesOnlyItself(value, text);
  }

  predicate NoSpecial(value: string)
  {
    forall i :: 0 <= i < |value| ==> !Special(value[i])
  }

  /** Some text that a pattern matches, if it matches any: no text for '%', an 'x' for '_'. */
  function Sample(pattern: string): Option<string>
  {
    if pattern == "" then Some("")
    else if pattern[0] == '\\' then
      if |pattern| >= 2 && Special(pattern[1]) then Prefixed([pattern[1]], Sample(pattern[2..])) else None
    else if pattern[0] == '%' then Sample(pattern[1..])
    else Prefixed(if pattern[0] == '_' then "x" else [pattern[0]], Sample(pattern[1..]))
  }

  function Prefixed(head: string, rest: Option<string>): Option<string>
  {
    if rest.Some? then Some(head + rest.value) else None
  }

  lemma {:induction false} SampleMatches(pattern: string)
    requires Sample(pattern).Some?
    ensures Like(pattern, Sample(pattern).value)
  {
    if pattern != "" {
      var rest := if pattern[0] == '\\' then pattern[2..] else pattern[1..];
      SampleMatches(rest);
      if pattern[0] != '%' {
        assert Sample(pattern).value[1..] == Sample(rest).value;
      }
    }
  }

  lemma {:induction false} MalformedMatchesNothing(pattern: string, text: string)
    requires Sample(pattern).None?
    ensures !Like(pattern, text)
    decreases |pattern|, |text|
  {
    if pattern[0] == '%' {
      MalformedMatchesNothing(pattern[1..], text);
      if text != "" {
        MalformedMatchesNothing(pattern, text[1..]);
      }
    } else if text != "" && (pattern[0] != '\\' || (|pattern| >= 2 && Special(pattern[1]))) {
      MalformedMatchesNothing(if pattern[0] == '\\' then pattern[2..] else pattern[1..], text[1..]);
    }
  }

  /** The sample is the pattern itself only when nothing in the pattern is special. */
  lemma {:induction false} SampleDiffers(pattern: string)
    requires Sample(pattern).Some?
    ensures |Sample(pattern).value| <= |pattern|
    ensures Sample(pattern).value == pattern ==> NoSpecial(pattern)
  {
    if pattern != "" {
      var rest := if pattern[0] == '\\' then pattern[2..] else pattern[1..];
      SampleDiffers(rest);
      if Sample(pattern).value == pattern {
        assert Sample(pattern).value[0] == pattern[0] && Sample(pattern).value[1..] == Sample(rest).value;
      }
    }
  }

  lemma {:induction false} PlainIsEscaped(value: string)
    requires NoSpecial(value)
    ensures Escaped(value) == value
  {
    if value != "" {
      PlainIsEscaped(value[1..]);
    }
  }

  /** Matching this text is the same as being this value. */
  predicate MatchesAs(value: string, text: string)
  {
    Like(value, text) <==> text == value
  }

  /** Left unescaped, a value selects exactly itself if and only if it holds no '%', '_' or backslash. */
  lemma UnescapedIsLiteralIff(value: string)
    ensures (forall text :: MatchesAs(value, text)) <==> NoSpecial(value)
  {
    if NoSpecial(value) {
      PlainIsEscaped(value);
      forall text
        ensures MatchesAs(value, text)
      {
        EscapedMatchesOnlyItself(value, text);
      }
    } else if Sample(value).Some? {
      SampleMatches(value);
      SampleDiffers(value);
      var other := Sample(value).value;
      assert !MatchesAs(value, other);
    } else {
      MalformedMatchesNothing(value, value);
      assert !MatchesAs(value, value);
    }
  }
}
