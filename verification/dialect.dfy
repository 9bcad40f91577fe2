/**
 * The Lebanese-dialect helpers of utils/dialect.py: a table of romanized
 * tokens with English glosses, a detector and a token rewriter.
 */
module Dialect {
  import opened Text

  /** `LEB_PATTERNS`, in the table's iteration order. */
  const LebPatterns: seq<(string, string)> := [
    ("keef", "how"),
    ("kifak", "how are you"),
    ("nharak", "your day"),
    ("lyom", "today"),
    ("mnee7", "good"),
    ("shou", "what"),
    ("akhbarak", "your news"),
    ("habib", "dear"),
    ("sah", "right")
  ]

  /** Every token of the table is non-empty. */
  predicate NonEmptyTokens(table: seq<(string, string)>)
  {
    forall i :: 0 <= i < |table| ==> table[i].0 != []
  }

  /** Every token holds a lower-case letter after its first character. */
  predicate LowerAfterFirst(table: seq<(string, string)>)
  {
    forall i :: 0 <= i < |table| ==> |table[i].0| >= 2 && IsLowerAscii(table[i].0[1])
  }

  /** One step of the rewrite: the lower-case token, then its Capitalized form. */
  function RewriteToken(text: string, token: string, gloss: string): string
    requires token != []
  {
    Replace(Replace(text, token, gloss), Capitalize(token), gloss)
  }

  /** The rewrite over a whole table: each step works on the previous step's output. */
  function RewriteAll(text: string, table: seq<(string, string)>): string
    requires NonEmptyTokens(table)
    decreases |table|
  {
    if table == [] then text
    else RewriteAll(RewriteToken(text, table[0].0, table[0].1), table[1..])
  }

  /** The table's tokens are non-empty and lower-case after their first letter. */
  lemma LebPatternsWellFormed()
    ensures NonEmptyTokens(LebPatterns) && LowerAfterFirst(LebPatterns)
  {
    forall i | 0 <= i < |LebPatterns|
      ensures |LebPatterns[i].0| >= 2 && IsLowerAscii(LebPatterns[i].0[1])
    {
      assert i in {0, 1, 2, 3, 4, 5, 6, 7, 8};
    }
  }

  /** One step of `RewriteAll` from position `i` of the table. */
  lemma RewriteAllAt(text: string, table: seq<(string, string)>, i: nat)
    requires NonEmptyTokens(table) && i < |table|
    ensures NonEmptyTokens(table[i..]) && NonEmptyTokens(table[i + 1..])
    ensures RewriteAll(text, table[i..])
         == RewriteAll(RewriteToken(text, table[i].0, table[i].1), table[i + 1..])
  {
    assert table[i..][1..] == table[i + 1..];
  }

  /** `normalize_for_embedding`: the table's rewrites applied in order. */
  method NormalizeForEmbedding(text: string) returns (out: string)
    ensures out == RewriteAll(text, LebPatterns)
  {
    LebPatternsWellFormed();
    out := text;
    for i := 0 to |LebPatterns|
      invariant RewriteAll(out, LebPatterns[i..]) == RewriteAll(text, LebPatterns)
    {
      var (pat, repl) := LebPatterns[i];
      RewriteAllAt(out, LebPatterns, i);
      out := Replace(Replace(out, pat, repl), Capitalize(pat), repl);
    }
  }

  /** No token of `table` occurs in `text`, in lower-case or in Capitalized form. */
  predicate Absent(text: string, table: seq<(string, string)>)
  {
    forall i :: 0 <= i < |table| ==> !Contains(text, table[i].0) && !Contains(text, Capitalize(table[i].0))
  }

  /** Text holding no token of the table, in either handled casing, is returned unchanged. */
  lemma {:induction false} RewriteAllWithoutTokens(text: string, table: seq<(string, string)>)
    requires NonEmptyTokens(table)
    requires Absent(text, table)
    ensures RewriteAll(text, table) == text
    decreases |table|
  {
    if table != [] {
      assert RewriteToken(text, table[0].0, table[0].1) == text;
      assert forall i :: 0 <= i < |table[1..]| ==> table[1..][i] == table[i + 1];
      RewriteAllWithoutTokens(text, table[1..]);
    }
  }

  /** Tokens absent from the text are skipped: the rewrite goes on from the first one present. */
  lemma {:induction false} RewriteAllSkipsAbsent(text: string, table: seq<(string, string)>, i: nat)
    requires NonEmptyTokens(table) && i <= |table|
    requires Absent(text, table[..i])
    ensures NonEmptyTokens(table[i..])
    ensures RewriteAll(text, table) == RewriteAll(text, table[i..])
    decreases i
  {
    if i > 0 {
      var prefix := table[..i];
      assert prefix[0] == table[0];
      assert RewriteToken(text, table[0].0, table[0].1) == text;
      assert RewriteAll(text, table) == RewriteAll(text, table[1..]);
      var rest := table[1..];
      var restPrefix := rest[..i - 1];
      forall j | 0 <= j < i - 1
        ensures !Contains(text, restPrefix[j].0) && !Contains(text, Capitalize(restPrefix[j].0))
      {
        assert restPrefix[j] == prefix[j + 1];
      }
      RewriteAllSkipsAbsent(text, rest, i - 1);
      assert rest[i - 1..] == table[i..];
    }
  }

  /**
   * A message that is exactly one token of the table comes out as that
   * token's gloss, provided no earlier token occurs in it, its own
   * Capitalized form does not occur in its gloss, and no later token
   * occurs in the gloss.
   */
  lemma TokenBecomesGloss(table: seq<(string, string)>, i: nat)
    requires NonEmptyTokens(table) && i < |table|
    requires Absent(table[i].0, table[..i])
    requires !Contains(table[i].1, Capitalize(table[i].0))
    requires Absent(table[i].1, table[i + 1..])
    ensures RewriteAll(table[i].0, table) == table[i].1
  {
    var (token, gloss) := table[i];
    RewriteAllSkipsAbsent(token, table, i);
    RewriteAllAt(token, table, i);
    ReplaceWhole(token, gloss);
    assert RewriteToken(token, token, gloss) == gloss;
    RewriteAllWithoutTokens(gloss, table[i + 1..]);
  }

  /** A pattern holding a lower-case letter never occurs in text without one. */
  lemma NoLowerNoOccurrence(text: string, p: string, j: int)
    requires 0 <= j < |p| && IsLowerAscii(p[j])
    requires forall k :: 0 <= k < |text| ==> !IsLowerAscii(text[k])
    ensures !Contains(text, p)
  {
  }

  /**
   * Text in other casings (say all capitals) is never rewritten: only the
   * lower-case and Capitalized forms are replaced.
   */
  lemma {:induction false} UpperCaseNotRewritten(text: string, table: seq<(string, string)>)
    requires NonEmptyTokens(table) && LowerAfterFirst(table)
    requires forall k :: 0 <= k < |text| ==> !IsLowerAscii(text[k])
    ensures RewriteAll(text, table) == text
  {
    forall i | 0 <= i < |table|
      ensures !Contains(text, table[i].0) && !Contains(text, Capitalize(table[i].0))
    {
      NoLowerNoOccurrence(text, table[i].0, 1);
      NoLowerNoOccurrence(text, Capitalize(table[i].0), 1);
    }
    RewriteAllWithoutTokens(text, table);
  }

  /** A Capitalized lower-case word never occurs in text without capitals. */
  lemma NoUpperNoCapitalized(text: string, token: string)
    requires token != [] && IsLowerAscii(token[0])
    requires forall k :: 0 <= k < |text| ==> !IsUpperAscii(text[k])
    ensures !Contains(text, Capitalize(token))
  {
    assert IsUpperAscii(Capitalize(token)[0]);
  }

  /** "keef" on its own is normalized to "how". */
  lemma KeefBecomesHow()
    ensures RewriteAll("keef", LebPatterns) == "how"
  {
    LebPatternsWellFormed();
    var later := LebPatterns[1..];
    forall j | 0 <= j < |later|
      ensures !Contains("how", later[j].0) && !Contains("how", Capitalize(later[j].0))
    {
      assert j in {0, 1, 2, 3, 4, 5, 6, 7};
      NoUpperNoCapitalized("how", later[j].0);
    }
    TokenBecomesGloss(LebPatterns, 0);
  }

  /** `any(tok in low for tok in table)`, scanning the table in order. */
  function AnyTokenIn(low: string, table: seq<(string, string)>): (r: bool)
    ensures r <==> exists i :: 0 <= i < |table| && Contains(low, table[i].0)
    decreases |table|
  {
    if table == [] then false
    else if Contains(low, table[0].0) then true
    else
      var r := AnyTokenIn(low, table[1..]);
      assert forall i :: 1 <= i < |table| ==> table[i] == table[1..][i - 1];
      r
  }

  /** `detect_leb_chat`: some token of the table occurs in the lower-cased text. */
  function DetectLebChat(text: string): (r: bool)
    ensures r <==> exists i :: 0 <= i < |LebPatterns| && Contains(Lower(text), LebPatterns[i].0)
  {
    AnyTokenIn(Lower(text), LebPatterns)
  }

  /** The empty message is never taken for dialect. */
  lemma EmptyIsNotDialect()
    ensures !DetectLebChat("")
  {
    LebPatternsWellFormed();
    forall i | 0 <= i < |LebPatterns|
      ensures !Contains("", LebPatterns[i].0)
    {
      NothingInEmpty(LebPatterns[i].0);
    }
  }

  /** "KEEF" is detected as dialect, yet the rewrite leaves it as it is. */
  lemma ShoutedTokenDetectedNotRewritten()
    ensures DetectLebChat("KEEF")
    ensures RewriteAll("KEEF", LebPatterns) == "KEEF"
  {
    assert Lower("KEEF") == "keef";
    assert OccursAt("keef", LebPatterns[0].0, 0);
    LebPatternsWellFormed();
    UpperCaseNotRewritten("KEEF", LebPatterns);
  }
}
