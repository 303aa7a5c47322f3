/** Grid search (packages/db/src/grid-view-query.ts:105-125): the escaped
    pattern, read by SQL's LIKE, means "contains". */
module SearchPattern {
  const ESCAPE: char := '\\'

  predicate IsSpecial(c: char) {
    c == ESCAPE || c == '%' || c == '_'
  }

  // ---- building the pattern ---------------------------------------------------

  function ReplaceAll(text: string, what: char, replacement: string): string {
    if text == "" then ""
    else (if text[0] == what then replacement else [text[0]]) + ReplaceAll(text[1..], what, replacement)
  }

  /** The three successive calls, in their order. */
  function Escape(query: string): string {
    ReplaceAll(ReplaceAll(ReplaceAll(query, ESCAPE, [ESCAPE, ESCAPE]), '%', [ESCAPE, '%']), '_', [ESCAPE, '_'])
  }

  function Pattern(query: string): string {
    "%" + Escape(query) + "%"
  }

  // ---- reading it -------------------------------------------------------------

  /** LIKE with the backslash as its escape character; a pattern that ends in an
      escape character matches nothing. */
  predicate Like(pattern: string, text: string)
    decreases |pattern| + |text|
  {
    if pattern == "" then text == ""
    else if pattern[0] == ESCAPE then
      |pattern| > 1 && text != "" && text[0] == pattern[1] && Like(pattern[2..], text[1..])
    else if pattern[0] == '%' then
      Like(pattern[1..], text) || (text != "" && Like(pattern, text[1..]))
    else if pattern[0] == '_' then
      text != "" && Like(pattern[1..], text[1..])
    else
      text != "" && text[0] == pattern[0] && Like(pattern[1..], text[1..])
  }

  function Fold(text: string, lower: char -> char): (r: string)
    ensures |r| == |text|
  {
    if text == "" then "" else [lower(text[0])] + Fold(text[1..], lower)
  }

  predicate ILike(text: string, pattern: string, lower: char -> char) {
    Like(Fold(pattern, lower), Fold(text, lower))
  }

  /** buildGridSearchPredicate for the search texts of a row's cells. */
  ghost predicate Selects(query: string, cellTexts: set<string>, lower: char -> char) {
    exists text :: text in cellTexts && text != "" && ILike(text, Pattern(query), lower)
  }

  // ---- the escaped form -------------------------------------------------------

  function EscapeChar(c: char): string {
    if IsSpecial(c) then [ESCAPE, c] else [c]
  }

  /** Every special character preceded by one backslash. */
  function EscapeChars(query: string): string {
    if query == "" then "" else EscapeChar(query[0]) + EscapeChars(query[1..])
  }

  lemma {:induction false} ReplaceConcatenation(a: string, b: string, what: char, replacement: string)
    ensures ReplaceAll(a + b, what, replacement) == ReplaceAll(a, what, replacement) + ReplaceAll(b, what, replacement)
  {
    if a == "" {
      assert a + b == b;
    } else {
      assert (a + b)[1..] == a[1..] + b;
      ReplaceConcatenation(a[1..], b, what, replacement);
    }
  }

  lemma ReplaceShort(c: char, d: char, what: char, replacement: string)
    ensures ReplaceAll([c], what, replacement) == if c == what then replacement else [c]
    ensures c != what && d != what ==> ReplaceAll([c, d], what, replacement) == [c, d]
  {
    assert [c, d][1..] == [d] && [d][1..] == "" && [c][1..] == "";
  }

  /** No later replacement touches what an earlier one inserted. */
  lemma {:induction false} EscapeIsCharwise(query: string)
    ensures Escape(query) == EscapeChars(query)
  {
    if query != "" {
      var c, rest := query[0], query[1..];
      var one := ReplaceAll([c], ESCAPE, [ESCAPE, ESCAPE]);
      var two := ReplaceAll(one, '%', [ESCAPE, '%']);
      assert query == [c] + rest;
      ReplaceConcatenation([c], rest, ESCAPE, [ESCAPE, ESCAPE]);
      ReplaceConcatenation(one, ReplaceAll(rest, ESCAPE, [ESCAPE, ESCAPE]), '%', [ESCAPE, '%']);
      ReplaceConcatenation(two, ReplaceAll(ReplaceAll(rest, ESCAPE, [ESCAPE, ESCAPE]), '%', [ESCAPE, '%']), '_',
                           [ESCAPE, '_']);
      OneCharacter(c);
      EscapeIsCharwise(rest);
    }
  }

  lemma OneCharacter(c: char)
    ensures ReplaceAll(ReplaceAll(ReplaceAll([c], ESCAPE, [ESCAPE, ESCAPE]), '%', [ESCAPE, '%']), '_', [ESCAPE, '_']) ==
            EscapeChar(c)
  {
    ReplaceShort(c, c, ESCAPE, [ESCAPE, ESCAPE]);
    ReplaceShort(c, c, '%', [ESCAPE, '%']);
    ReplaceShort(c, c, '_', [ESCAPE, '_']);
    ReplaceShort(ESCAPE, ESCAPE, '%', [ESCAPE, '%']);
    ReplaceShort(ESCAPE, ESCAPE, '_', [ESCAPE, '_']);
    ReplaceShort(ESCAPE, '%', '_', [ESCAPE, '_']);
  }

  // ---- folding case -----------------------------------------------------------

  /** Lower-casing neither changes a special character nor makes one. */
  ghost predicate KeepsSpecials(lower: char -> char) {
    forall c :: (IsSpecial(c) ==> lower(c) == c) && (IsSpecial(lower(c)) ==> IsSpecial(c))
  }

  lemma {:induction false} FoldConcatenation(a: string, b: string, lower: char -> char)
    ensures Fold(a + b, lower) == Fold(a, lower) + Fold(b, lower)
  {
    if a == "" {
      assert a + b == b;
    } else {
      assert (a + b)[1..] == a[1..] + b;
      FoldConcatenation(a[1..], b, lower);
    }
  }

  lemma {:induction false} FoldEscaped(query: string, lower: char -> char)
    requires KeepsSpecials(lower)
    ensures Fold(EscapeChars(query), lower) == EscapeChars(Fold(query, lower))
  {
    if query != "" {
      var c := query[0];
      FoldEscaped(query[1..], lower);
      FoldConcatenation(EscapeChar(c), EscapeChars(query[1..]), lower);
      assert Fold(EscapeChar(c), lower) == EscapeChar(lower(c)) by {
        assert [ESCAPE, c][1..] == [c] && [c][1..] == "";
        assert Fold([c], lower) == [lower(c)];
        assert lower(ESCAPE) == ESCAPE;
      }
    }
  }

  // ---- matching ---------------------------------------------------------------

  /** An escaped query followed by more pattern matches a text that starts with
      the query and continues as the rest says. */
  lemma {:induction false} EscapedMatchesLiterally(query: string, rest: string, text: string)
    ensures Like(EscapeChars(query) + rest, text) <==>
            |query| <= |text| && text[..|query|] == query && Like(rest, text[|query|..])
    decreases |query|
  {
    if query == "" {
      assert EscapeChars(query) + rest == rest && text[0..] == text;
    } else {
      var c := query[0];
      var pattern := EscapeChars(query) + rest;
      var tail := EscapeChars(query[1..]) + rest;
      assert pattern == EscapeChar(c) + tail;
      assert Like(pattern, text) <==> text != "" && text[0] == c && Like(tail, text[1..]) by {
        if IsSpecial(c) { assert pattern[2..] == tail; } else { assert pattern[1..] == tail; }
      }
      if text != "" && text[0] == c {
        EscapedMatchesLiterally(query[1..], rest, text[1..]);
        PrefixSteps(query, text);
      }
    }
  }

  lemma PrefixSteps(query: string, text: string)
    requires query != "" && text != "" && text[0] == query[0]
    ensures |query| <= |text| && text[..|query|] == query <==>
              |query[1..]| <= |text[1..]| && text[1..][..|query[1..]|] == query[1..]
    ensures |query| <= |text| ==> text[1..][|query[1..]|..] == text[|query|..]
  {
    if |query| <= |text| {
      assert text[..|query|] == [text[0]] + text[1..][..|query| - 1];
      assert query == [query[0]] + query[1..];
    }
  }

  lemma {:induction false} PercentMatchesAll(text: string)
    ensures Like("%", text)
  {
    assert "%"[1..] == "";
    if text != "" { PercentMatchesAll(text[1..]); }
  }

  predicate StartsAt(text: string, query: string, at: nat) {
    at + |query| <= |text| && text[at..at + |query|] == query
  }

  predicate Contains(text: string, query: string) {
    exists at :: 0 <= at <= |text| && StartsAt(text, query, at)
  }

  lemma {:induction false} PercentSearches(query: string, text: string)
    ensures Like("%" + EscapeChars(query) + "%", text) <==> Contains(text, query)
  {
    var tail := EscapeChars(query) + "%";
    var pattern := "%" + EscapeChars(query) + "%";
    assert pattern[1..] == tail;
    EscapedMatchesLiterally(query, "%", text);
    if |query| <= |text| { PercentMatchesAll(text[|query|..]); }
    assert Like(tail, text) <==> StartsAt(text, query, 0);
    if text == "" {
      assert Contains(text, query) <==> StartsAt(text, query, 0);
    } else {
      PercentSearches(query, text[1..]);
      assert Like(pattern, text) <==> StartsAt(text, query, 0) || Contains(text[1..], query);
      LaterOccurrence(query, text);
    }
  }

  lemma LaterOccurrence(query: string, text: string)
    requires text != ""
    ensures Contains(text, query) <==> StartsAt(text, query, 0) || Contains(text[1..], query)
  {
    if Contains(text[1..], query) {
      var at :| 0 <= at <= |text[1..]| && StartsAt(text[1..], query, at);
      assert text[1..][at..at + |query|] == text[at + 1..at + 1 + |query|];
      assert StartsAt(text, query, at + 1);
    }
    if Contains(text, query) && !StartsAt(text, query, 0) {
      var at :| 0 <= at <= |text| && StartsAt(text, query, at);
      assert text[1..][at - 1..at - 1 + |query|] == text[at..at + |query|];
      assert StartsAt(text[1..], query, at - 1);
    }
  }

  /** The search pattern matches exactly the texts that contain the query, after
      case folding, whatever special characters either holds. */
  lemma PatternMeansContains(query: string, text: string, lower: char -> char)
    requires KeepsSpecials(lower)
    ensures ILike(text, Pattern(query), lower) <==> Contains(Fold(text, lower), Fold(query, lower))
  {
    hide ReplaceAll;
    EscapeIsCharwise(query);
    FoldConcatenation("%" + Escape(query), "%", lower);
    FoldConcatenation("%", Escape(query), lower);
    assert "%"[1..] == "" && lower('%') == '%';
    FoldEscaped(query, lower);
    PercentSearches(Fold(query, lower), Fold(text, lower));
  }

  /** A row is found exactly when one of its cells contains the query. */
  lemma SearchFindsExactly(query: string, cellTexts: set<string>, lower: char -> char)
    requires KeepsSpecials(lower) && query != ""
    ensures Selects(query, cellTexts, lower) <==>
            exists text :: text in cellTexts && Contains(Fold(text, lower), Fold(query, lower))
  {
    forall text | text in cellTexts
      ensures text != "" && ILike(text, Pattern(query), lower) <==> Contains(Fold(text, lower), Fold(query, lower))
    {
      PatternMeansContains(query, text, lower);
    }
    if text :| text in cellTexts && Contains(Fold(text, lower), Fold(query, lower)) {
      assert text != "" && ILike(text, Pattern(query), lower);
    }
  }
}
