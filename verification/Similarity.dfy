/** Word tokens of a summary, and the similarity of two summaries. */
module Similarity {

  predicate Word(c: char) {
    'a' <= c <= 'z' || '0' <= c <= '9' || c == '_'
  }

  function Lower(c: char): char {
    if 'A' <= c <= 'Z' then c + ('a' - 'A') else c
  }

  function LowerAll(text: string): string {
    seq(|text|, i requires 0 <= i < |text| => Lower(text[i]))
  }

  function TokensFrom(text: string, start: nat, k: nat): set<string>
    requires start <= k <= |text|
    decreases |text| - k
  {
    var run := if start < k then {text[start..k]} else {};
    if k == |text| then run
    else if Word(text[k]) then TokensFrom(text, start, k + 1)
    else run + TokensFrom(text, k + 1, k + 1)
  }

  /** `frozenset(re.findall("[a-z0-9_]+", text.lower()))`. */
  function Tokenize(text: string): set<string> {
    TokensFrom(LowerAll(text), 0, 0)
  }

  /** A stretch of word characters that cannot be extended on either side. */
  ghost predicate MaximalRun(text: string, i: nat, j: nat) {
    && i < j <= |text|
    && (forall k | i <= k < j :: Word(text[k]))
    && (i == 0 || !Word(text[i - 1]))
    && (j == |text| || !Word(text[j]))
  }

  ghost predicate RunFrom(text: string, start: nat, t: string) {
    exists i: nat, j: nat :: start <= i && MaximalRun(text, i, j) && t == text[i..j]
  }

  lemma {:induction false} TokensFromAreRuns(text: string, start: nat, k: nat, t: string)
    requires start <= k <= |text| && (forall i | start <= i < k :: Word(text[i])) && (start == 0 || !Word(text[start - 1]))
    ensures t in TokensFrom(text, start, k) <==> RunFrom(text, start, t)
    decreases |text| - k
  {
    if k < |text| && Word(text[k]) {
      TokensFromAreRuns(text, start, k + 1, t);
    } else {
      if k < |text| {
        TokensFromAreRuns(text, k + 1, k + 1, t);
      }
      if start < k {
        assert MaximalRun(text, start, k);
      }
      if i: nat, j: nat :| start <= i && MaximalRun(text, i, j) && t == text[i..j] {
        if i <= k {
          RunStartsAtStart(text, start, k, i, j);
        } else {
          assert RunFrom(text, k + 1, t);
        }
      }
    }
  }

  lemma RunStartsAtStart(text: string, start: nat, k: nat, i: nat, j: nat)
    requires start <= i <= k <= |text| && MaximalRun(text, i, j)
    requires (forall m | start <= m < k :: Word(text[m])) && (k == |text| || !Word(text[k]))
    ensures i == start && j == k
  {
    var before := if i > start then i - 1 else start;
    assert before < k ==> Word(text[before]);
  }

  /** A letter of either case, a digit or an underscore. */
  predicate Written(c: char) {
    'a' <= c <= 'z' || 'A' <= c <= 'Z' || '0' <= c <= '9' || c == '_'
  }

  /** A stretch of such characters that cannot be extended on either side. */
  ghost predicate WrittenRun(text: string, i: nat, j: nat) {
    && i < j <= |text|
    && (forall k | i <= k < j :: Written(text[k]))
    && (i == 0 || !Written(text[i - 1]))
    && (j == |text| || !Written(text[j]))
  }

  /** `t` is the stretch with its capital letters made small. */
  ghost predicate IsSmall(text: string, i: nat, j: nat, t: string)
    requires i <= j <= |text|
  {
    && |t| == j - i
    && forall k | 0 <= k < |t| ::
         t[k] as int == text[i + k] as int + if 'A' <= text[i + k] <= 'Z' then 'a' as int - 'A' as int else 0
  }

  lemma SmallIsSlice(text: string, i: nat, j: nat, t: string)
    requires i <= j <= |text|
    ensures IsSmall(text, i, j, t) <==> t == LowerAll(text)[i..j]
  {
    var slice := LowerAll(text)[i..j];
    forall k | 0 <= k < |slice|
      ensures slice[k] as int == text[i + k] as int + if 'A' <= text[i + k] <= 'Z' then 'a' as int - 'A' as int else 0
    {
      assert slice[k] == Lower(text[i + k]);
    }
    if IsSmall(text, i, j, t) {
      assert |t| == |slice|;
      forall k | 0 <= k < |t|
        ensures t[k] == slice[k]
      {
        assert t[k] as int == slice[k] as int;
      }
    }
  }

  lemma RunsAreWritten(text: string, i: nat, j: nat)
    ensures MaximalRun(LowerAll(text), i, j) <==> WrittenRun(text, i, j)
  {
    forall k | 0 <= k < |text|
      ensures Word(LowerAll(text)[k]) <==> Written(text[k])
    {
    }
  }

  /** On the text itself: a token is a maximal stretch of letters, digits and underscores, in small letters. */
  lemma TokensOfText(text: string, t: string)
    ensures t in Tokenize(text) <==> exists i: nat, j: nat :: WrittenRun(text, i, j) && IsSmall(text, i, j, t)
  {
    TokensAreMaximalRuns(text, t);
    if i: nat, j: nat :| MaximalRun(LowerAll(text), i, j) && t == LowerAll(text)[i..j] {
      RunsAreWritten(text, i, j);
      SmallIsSlice(text, i, j, t);
    }
    if i: nat, j: nat :| WrittenRun(text, i, j) && IsSmall(text, i, j, t) {
      RunsAreWritten(text, i, j);
      SmallIsSlice(text, i, j, t);
    }
  }

  /** The tokens are exactly the maximal runs of word characters in the lowercased text. */
  lemma TokensAreMaximalRuns(text: string, t: string)
    ensures t in Tokenize(text) <==> RunFrom(LowerAll(text), 0, t)
  {
    TokensFromAreRuns(LowerAll(text), 0, 0, t);
  }

  function Jaccard(a: set<string>, b: set<string>): real {
    if a == {} && b == {} then 1.0 else |a * b| as real / |a + b| as real
  }

  /** The number of common tokens over the number of all tokens. */
  lemma JaccardMeans(a: set<string>, b: set<string>)
    ensures a + b == {} ==> Jaccard(a, b) == 1.0
    ensures a + b != {} ==> Jaccard(a, b) * |a + b| as real == |a * b| as real
  {
    if a + b != {} {
      assert |a + b| > 0;
    }
  }

  lemma Scaled(x: real, y: real, u: real)
    requires x <= y && u >= 0.0
    ensures x * u <= y * u
  {
  }

  lemma SimilarMeans(a: set<string>, b: set<string>, threshold: real)
    requires Jaccard(a, b) >= threshold
    ensures if a + b == {} then threshold <= 1.0 else threshold * |a + b| as real <= |a * b| as real
  {
    JaccardMeans(a, b);
    Scaled(threshold, Jaccard(a, b), |a + b| as real);
  }

  lemma JaccardLaws(a: set<string>, b: set<string>)
    ensures 0.0 <= Jaccard(a, b) <= 1.0
    ensures Jaccard(a, b) == Jaccard(b, a)
    ensures Jaccard(a, b) == 1.0 <==> a == b
    ensures Jaccard(a, b) == 0.0 <==> a * b == {} && a + b != {}
  {
    assert a * b == b * a && a + b == b + a;
    assert a + b == a * b + ((a - b) + (b - a));
    assert |a + b| == |a * b| + |(a - b) + (b - a)|;
    if a == b {
      assert a * b == a && a + b == a;
    } else if a + b != {} {
      assert (a - b) + (b - a) != {};
      Proper(|a * b|, |a + b|);
    }
  }

  lemma Proper(n: nat, d: nat)
    requires n < d
    ensures 0.0 <= n as real / d as real < 1.0
    ensures n as real / d as real == 0.0 <==> n == 0
  {
    assert (n as real / d as real) * d as real == n as real;
  }
}
