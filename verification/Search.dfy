/** The search pattern and the LIKE predicate that reads it (ISO/IEC 9075-2, section 8.5, with the
    escape character `\`). Like SQLite's, it ignores the case of ASCII letters. */
module Search {
  import opened Ascii

  predicate Same(a: string, b: string) {
    |a| == |b| && forall k :: 0 <= k < |a| ==> Fold(a[k]) == Fold(b[k])
  }

  const ESCAPE: char := '\\'

  predicate IsSpecial(c: char) {
    c == ESCAPE || c == '%' || c == '_'
  }

  /** `text LIKE pattern ESCAPE '\'`. A pattern that ends in a lone escape character matches nothing. */
  predicate Like(pattern: string, text: string)
    decreases |pattern| + |text|
  {
    if pattern == [] then text == []
    else if pattern[0] == '%' then
      Like(pattern[1..], text) || (text != [] && Like(pattern, text[1..]))
    else if pattern[0] == ESCAPE then
      && |pattern| > 1 && text != []
      && Fold(pattern[1]) == Fold(text[0])
      && Like(pattern[2..], text[1..])
    else
      && text != []
      && (pattern[0] == '_' || Fold(pattern[0]) == Fold(text[0]))
      && Like(pattern[1..], text[1..])
  }

  ghost function Escaped(query: string): string {
    if query == [] then []
    else (if IsSpecial(query[0]) then [ESCAPE, query[0]] else [query[0]]) + Escaped(query[1..])
  }

  lemma {:induction false} EscapedPush(query: string, c: char)
    ensures Escaped(query + [c]) == Escaped(query) + if IsSpecial(c) then [ESCAPE, c] else [c]
  {
    if query == [] {
      assert [c][1..] == [];
      assert query + [c] == [c];
    } else {
      assert (query + [c])[1..] == query[1..] + [c];
      EscapedPush(query[1..], c);
    }
  }

  /** What the strings.Replacer of the search makes of a query. */
  method Escape(query: string) returns (escaped: string)
    ensures escaped == Escaped(query)
  {
    escaped := "";
    for i := 0 to |query|
      invariant escaped == Escaped(query[..i])
    {
      EscapedPush(query[..i], query[i]);
      assert query[..i + 1] == query[..i] + [query[i]];
      if IsSpecial(query[i]) {
        escaped := escaped + [ESCAPE];
      }
      escaped := escaped + [query[i]];
    }
    assert query[..|query|] == query;
  }

  method Pattern(query: string) returns (pattern: string)
    ensures pattern == "%" + Escaped(query) + "%"
  {
    var escaped := Escape(query);
    pattern := "%" + escaped + "%";
  }

  ghost predicate StartsWith(text: string, query: string) {
    |query| <= |text| && Same(text[..|query|], query)
  }

  /** `query` stands somewhere in `text`, up to the case of ASCII letters. */
  ghost predicate Contains(text: string, query: string) {
    exists i :: 0 <= i <= |text| && StartsWith(text[i..], query)
  }

  lemma {:induction false} PercentMatchesAll(text: string)
    ensures Like("%", text)
  {
    if text != [] {
      PercentMatchesAll(text[1..]);
    }
  }

  /** An escaped query followed by a wildcard matches the texts that start with the query. */
  lemma {:induction false} EscapedMatchesPrefix(query: string, text: string)
    ensures Like(Escaped(query) + "%", text) <==> StartsWith(text, query)
  {
    var pattern := Escaped(query) + "%";
    if query == [] {
      assert pattern == "%";
      PercentMatchesAll(text);
    } else {
      var n := if IsSpecial(query[0]) then 2 else 1;
      assert pattern[n..] == Escaped(query[1..]) + "%";
      if text != [] {
        EscapedMatchesPrefix(query[1..], text[1..]);
        PrefixStep(query, text);
      }
    }
  }

  lemma PrefixStep(query: string, text: string)
    requires query != [] && text != []
    ensures StartsWith(text, query) <==> Fold(query[0]) == Fold(text[0]) && StartsWith(text[1..], query[1..])
  {
    if |query| <= |text| {
      assert forall k :: 1 <= k < |query| ==> text[k] == text[1..][k - 1] && query[k] == query[1..][k - 1];
      assert forall k :: 0 <= k < |query| - 1 ==> text[1..][k] == text[k + 1] && query[1..][k] == query[k + 1];
    }
  }

  lemma {:induction false} PercentFindsSuffix(rest: string, text: string)
    ensures Like("%" + rest, text) <==> exists i :: 0 <= i <= |text| && Like(rest, text[i..])
  {
    var pattern := "%" + rest;
    assert pattern[1..] == rest;
    assert text[0..] == text;
    if text != [] {
      PercentFindsSuffix(rest, text[1..]);
      if i :| 0 <= i <= |text[1..]| && Like(rest, text[1..][i..]) {
        assert text[1..][i..] == text[i + 1..];
      }
      if i :| 1 <= i <= |text| && Like(rest, text[i..]) {
        assert text[i..] == text[1..][i - 1..];
      }
    }
  }

  /** Search is literal: whatever `%`, `_` and `\` the query or the text contains, the pattern made of
      a query matches exactly the texts that contain it, up to ASCII case. */
  lemma SearchIsLiteral(query: string, text: string)
    ensures Like("%" + Escaped(query) + "%", text) <==> Contains(text, query)
  {
    var rest := Escaped(query) + "%";
    assert "%" + Escaped(query) + "%" == "%" + rest;
    PercentFindsSuffix(rest, text);
    forall i | 0 <= i <= |text| ensures Like(rest, text[i..]) <==> StartsWith(text[i..], query) {
      EscapedMatchesPrefix(query, text[i..]);
    }
  }

  /** Different queries make different patterns. */
  lemma {:induction false} EscapeIsInjective(a: string, b: string)
    requires Escaped(a) == Escaped(b)
    ensures a == b
  {
    if a != [] && b != [] {
      var n := if IsSpecial(a[0]) then 2 else 1;
      assert Escaped(a)[0] == if IsSpecial(a[0]) then ESCAPE else a[0];
      assert Escaped(b)[0] == if IsSpecial(b[0]) then ESCAPE else b[0];
      assert IsSpecial(a[0]) ==> Escaped(a)[1] == a[0];
      assert IsSpecial(b[0]) ==> Escaped(b)[1] == b[0];
      assert a[0] == b[0];
      assert Escaped(a)[n..] == Escaped(a[1..]) && Escaped(b)[n..] == Escaped(b[1..]);
      EscapeIsInjective(a[1..], b[1..]);
    }
  }
}
