/**
  The top-K word counter: split a document into words, tally them in a map,
  copy the tally into an array, sort it in place by count (largest first)
  and then by word, and return the first K entries.
*/
module TextProc {
  import opened Seqs
  import opened GoStrings
  import opened Tokenizer

  /** How many times a word is observed in a document. */
  datatype WordCount = WordCount(word: string, count: int)

  /* ---------- Counting ---------- */

  /** The number of times `w` occurs in `ws`. */
  function Occurrences(ws: seq<string>, w: string): nat {
    if ws == [] then 0
    else Occurrences(ws[..|ws| - 1], w) + (if ws[|ws| - 1] == w then 1 else 0)
  }

  /** The distinct words of a token sequence. */
  function Vocabulary(ws: seq<string>): set<string> {
    set w | w in ws
  }

  /** The count agrees with the multiplicity of `w` in the multiset of the tokens. */
  lemma {:induction false} OccurrencesIsMultiplicity(ws: seq<string>, w: string)
    ensures Occurrences(ws, w) == multiset(ws)[w]
    decreases |ws|
  {
    if ws != [] {
      var init := ws[..|ws| - 1];
      assert ws == init + [ws[|ws| - 1]];
      OccurrencesIsMultiplicity(init, w);
    }
  }

  /** A word occurs in the tokens exactly when it is counted at least once. */
  lemma OccursIffCounted(ws: seq<string>, w: string)
    ensures w in ws <==> Occurrences(ws, w) > 0
  {
    OccurrencesIsMultiplicity(ws, w);
  }

  /** The counting loop of `topWords`: `counts[word]++` for every token. */
  method CountTokens(tokens: seq<string>) returns (counts: map<string, int>)
    ensures counts.Keys == Vocabulary(tokens)
    ensures forall w :: w in counts ==> counts[w] == Occurrences(tokens, w)
  {
    counts := map[];
    for i := 0 to |tokens|
      invariant counts.Keys == Vocabulary(tokens[..i])
      invariant forall w :: w in counts ==> counts[w] == Occurrences(tokens[..i], w)
    {
      var word := tokens[i];
      // a missing key reads as Go's zero value
      var c := if word in counts then counts[word] else 0;
      counts := counts[word := c + 1];
      assert tokens[..i + 1] == tokens[..i] + [word];
      assert tokens[..i + 1][..i] == tokens[..i];
      OccursIffCounted(tokens[..i], word);
    }
    assert tokens[..|tokens|] == tokens;
  }

  /* ---------- Ordering ---------- */

  /** The comparator of `sortWordCounts`: `x` goes before `y`. */
  predicate RanksBefore(x: WordCount, y: WordCount) {
    if x.count == y.count then LexLess(x.word, y.word) else x.count > y.count
  }

  lemma RanksBeforeAsymmetric(x: WordCount, y: WordCount)
    ensures !(RanksBefore(x, y) && RanksBefore(y, x))
  {
    LexLessAsymmetric(x.word, y.word);
  }

  /** Entries with different words are always ordered one way or the other. */
  lemma RanksBeforeTotal(x: WordCount, y: WordCount)
    requires x.word != y.word
    ensures RanksBefore(x, y) || RanksBefore(y, x)
  {
    LexLessTotal(x.word, y.word);
  }

  /** "Does not go after" is transitive. */
  lemma NotAfterTransitive(x: WordCount, y: WordCount, z: WordCount)
    requires !RanksBefore(y, x) && !RanksBefore(z, y)
    ensures !RanksBefore(z, x)
  {
    LexLessEqIsOrder(x.word, y.word, z.word);
  }

  function Words(s: seq<WordCount>): seq<string> {
    seq(|s|, i requires 0 <= i < |s| => s[i].word)
  }

  /** Every neighbour pair is in order. */
  ghost predicate SortedAdjacent(s: seq<WordCount>) {
    forall k :: 0 < k < |s| ==> !RanksBefore(s[k], s[k - 1])
  }

  /** No entry goes before an entry to its left. */
  ghost predicate Sorted(s: seq<WordCount>) {
    forall k, l :: 0 <= k < l < |s| ==> !RanksBefore(s[l], s[k])
  }

  /** Every entry goes before every entry to its right. */
  ghost predicate StrictlySorted(s: seq<WordCount>) {
    forall k, l :: 0 <= k < l < |s| ==> RanksBefore(s[k], s[l])
  }

  lemma {:induction false} AdjacentToSorted(s: seq<WordCount>)
    requires SortedAdjacent(s)
    ensures Sorted(s)
    decreases |s|
  {
    if |s| > 1 {
      var init := s[..|s| - 1];
      AdjacentToSorted(init);
      forall k | 0 <= k < |s| - 1 ensures !RanksBefore(s[|s| - 1], s[k]) {
        if k < |s| - 2 {
          NotAfterTransitive(s[k], s[|s| - 2], s[|s| - 1]);
        }
      }
    }
  }

  /** With no word repeated, a sorted sequence is strictly sorted. */
  lemma SortedDistinctIsStrict(s: seq<WordCount>)
    requires Sorted(s) && Distinct(Words(s))
    ensures StrictlySorted(s)
  {
    forall k, l | 0 <= k < l < |s| ensures RanksBefore(s[k], s[l]) {
      assert Words(s)[k] != Words(s)[l];
      RanksBeforeTotal(s[k], s[l]);
    }
  }

  /* ---------- sortWordCounts ---------- */

  /**
    The state of insertion sort while it moves entry `j` left through the
    sorted prefix `s[..i + 1]`: both sides of `j` are in order, and the
    neighbours of `j` are in order with each other.
  */
  ghost predicate Inserting(s: seq<WordCount>, i: nat, j: nat) {
    && j <= i < |s|
    && SortedAdjacent(s[..j])
    && SortedAdjacent(s[j..i + 1])
    && (0 < j < i ==> !RanksBefore(s[j + 1], s[j - 1]))
  }

  /** Swapping the moving entry with a larger left neighbour keeps the insertion state. */
  lemma InsertStep(s: seq<WordCount>, i: nat, j: nat)
    requires Inserting(s, i, j) && 0 < j && RanksBefore(s[j], s[j - 1])
    ensures Inserting(s[j - 1 := s[j]][j := s[j - 1]], i, j - 1)
    ensures s[j - 1 := s[j]][j := s[j - 1]][i + 1..] == s[i + 1..]
  {
    var t := s[j - 1 := s[j]][j := s[j - 1]];
    RanksBeforeAsymmetric(s[j], s[j - 1]);
    assert t[..j - 1] == s[..j - 1];
    var moved, right := t[j - 1..i + 1], s[j..i + 1];
    forall k | 0 < k < |moved| ensures !RanksBefore(moved[k], moved[k - 1]) {
      if k == 2 {
        assert moved[k] == s[j + 1] && moved[k - 1] == s[j - 1];
      } else if k > 2 {
        assert moved[k] == right[k - 1] && moved[k - 1] == right[k - 2];
      }
    }
    if 0 < j - 1 {
      assert s[..j][j - 1] == s[j - 1] && s[..j][j - 2] == s[j - 2];
    }
  }

  /** When the moving entry has stopped, the prefix `s[..i + 1]` is in order. */
  lemma InsertDone(s: seq<WordCount>, i: nat, j: nat)
    requires Inserting(s, i, j)
    requires j == 0 || !RanksBefore(s[j], s[j - 1])
    ensures SortedAdjacent(s[..i + 1])
  {
    var done, left, right := s[..i + 1], s[..j], s[j..i + 1];
    forall k | 0 < k < |done| ensures !RanksBefore(done[k], done[k - 1]) {
      if k < j {
        assert left[k] == s[k] && left[k - 1] == s[k - 1];
      } else if k > j {
        assert right[k - j] == s[k] && right[k - j - 1] == s[k - 1];
      }
    }
  }

  /** Sorts the entries in place by count, largest first, ties broken by word. */
  method SortWordCounts(a: array<WordCount>)
    modifies a
    ensures Sorted(a[..])
    ensures multiset(a[..]) == old(multiset(a[..]))
  {
    for i := 0 to a.Length
      invariant SortedAdjacent(a[..i])
      invariant multiset(a[..]) == old(multiset(a[..]))
    {
      InsertEntry(a, i);
    }
    assert a[..a.Length] == a[..];
    AdjacentToSorted(a[..]);
  }

  /** One pass of insertion sort: moves `a[i]` left into the sorted prefix `a[..i]`. */
  method InsertEntry(a: array<WordCount>, i: nat)
    requires i < a.Length && SortedAdjacent(a[..i])
    modifies a
    ensures SortedAdjacent(a[..i + 1])
    ensures multiset(a[..]) == old(multiset(a[..]))
    ensures a[i + 1..] == old(a[i + 1..])
  {
    var j: nat := i;
    assert a[..i + 1][..i] == a[..i];
    while j > 0 && RanksBefore(a[j], a[j - 1])
      invariant Inserting(a[..], i, j)
      invariant multiset(a[..]) == old(multiset(a[..]))
      invariant a[i + 1..] == old(a[i + 1..])
    {
      ghost var before := a[..];
      InsertStep(before, i, j);
      a[j - 1], a[j] := a[j], a[j - 1];
      assert a[..] == before[j - 1 := before[j]][j := before[j - 1]];
      j := j - 1;
    }
    InsertDone(a[..], i, j);
  }

  /* ---------- From the tally to the ranking ---------- */

  /** The loop of `topWords` that copies the tally into a slice, in the map's (unspecified) order. */
  method CollectWordCounts(counts: map<string, int>) returns (a: array<WordCount>)
    ensures fresh(a)
    ensures a.Length == |counts|
    ensures forall i :: 0 <= i < a.Length ==> a[i].word in counts && a[i].count == counts[a[i].word]
    ensures forall w :: w in counts ==> WordCount(w, counts[w]) in a[..]
    ensures Distinct(Words(a[..]))
  {
    a := new WordCount[|counts|];
    var rest := counts.Keys;
    var i := 0;
    while rest != {}
      invariant rest <= counts.Keys
      invariant i + |rest| == |counts|
      invariant forall j :: 0 <= j < i ==> a[j].word in counts && a[j].word !in rest && a[j].count == counts[a[j].word]
      invariant forall w :: w in counts && w !in rest ==> WordCount(w, counts[w]) in a[..i]
      invariant forall j, l :: 0 <= j < l < i ==> a[j].word != a[l].word
      decreases |rest|
    {
      var w :| w in rest;
      a[i] := WordCount(w, counts[w]);
      rest := rest - {w};
      i := i + 1;
      assert a[..i] == a[..i - 1] + [WordCount(w, counts[w])];
    }
    assert a[..i] == a[..];
    assert forall j, l :: 0 <= j < l < a.Length ==> Words(a[..])[j] != Words(a[..])[l];
  }

  /** `x` is a word of the tokens with its true number of occurrences. */
  ghost predicate Tallied(x: WordCount, tokens: seq<string>) {
    x.word in tokens && x.count == Occurrences(tokens, x.word)
  }

  /**
    The full sorted list of `topWords` before truncation: every distinct word
    of the tokens exactly once with its count, strictly in comparator order.
  */
  ghost predicate IsRanking(s: seq<WordCount>, tokens: seq<string>) {
    && (forall i :: 0 <= i < |s| ==> Tallied(s[i], tokens))
    && (forall w :: w in tokens ==> WordCount(w, Occurrences(tokens, w)) in s)
    && Distinct(Words(s))
    && StrictlySorted(s)
  }

  /** Sorting a complete tally with one entry per word yields the ranking. */
  lemma SortedTallyIsRanking(before: seq<WordCount>, after: seq<WordCount>, tokens: seq<string>)
    requires forall i :: 0 <= i < |before| ==> Tallied(before[i], tokens)
    requires forall w :: w in tokens ==> WordCount(w, Occurrences(tokens, w)) in before
    requires Distinct(Words(before))
    requires multiset(after) == multiset(before)
    requires Sorted(after)
    ensures IsRanking(after, tokens)
  {
    forall i | 0 <= i < |after| ensures Tallied(after[i], tokens) {
      assert after[i] in multiset(before);
    }
    forall w | w in tokens ensures WordCount(w, Occurrences(tokens, w)) in after {
      assert WordCount(w, Occurrences(tokens, w)) in multiset(after);
    }
    assert Distinct(before) by {
      forall i, j | 0 <= i < j < |before| ensures before[i] != before[j] {
        assert Words(before)[i] != Words(before)[j];
      }
    }
    PermutationPreservesDistinct(before, after);
    forall i, j | 0 <= i < j < |after| ensures Words(after)[i] != Words(after)[j] {
      assert Tallied(after[i], tokens) && Tallied(after[j], tokens);
    }
    SortedDistinctIsStrict(after);
  }

  /** Two rankings of the same tokens are equal: the result does not depend on the map's order or on the sort's instability. */
  lemma {:induction false} RankingIsUnique(s: seq<WordCount>, t: seq<WordCount>, tokens: seq<string>)
    requires IsRanking(s, tokens) && IsRanking(t, tokens)
    ensures s == t
  {
    forall x ensures x in s <==> x in t {
      if x in s {
        var i :| 0 <= i < |s| && s[i] == x;
        assert Tallied(x, tokens);
      }
      if x in t {
        var i :| 0 <= i < |t| && t[i] == x;
        assert Tallied(x, tokens);
      }
    }
    RankingLength(s, tokens);
    RankingLength(t, tokens);
    StrictlySortedUnique(s, t);
  }

  lemma {:induction false} StrictlySortedUnique(s: seq<WordCount>, t: seq<WordCount>)
    requires StrictlySorted(s) && StrictlySorted(t) && |s| == |t|
    requires forall x :: x in s <==> x in t
    ensures s == t
    decreases |s|
  {
    if s != [] {
      assert s[0] in t;
      assert t[0] in s;
      if s[0] != t[0] {
        var p :| 0 <= p < |s| && s[p] == t[0];
        var q :| 0 <= q < |t| && t[q] == s[0];
        RanksBeforeAsymmetric(s[0], t[0]);
        assert false;
      }
      forall x ensures x in s[1..] <==> x in t[1..] {
        LexLessIrreflexive(x.word);
        if x in s[1..] {
          var p :| 1 <= p < |s| && s[p] == x;
          assert x in s;
          var q :| 0 <= q < |t| && t[q] == x;
          assert q != 0;
          assert t[1..][q - 1] == x;
        }
        if x in t[1..] {
          var q :| 1 <= q < |t| && t[q] == x;
          assert x in t;
          var p :| 0 <= p < |s| && s[p] == x;
          assert p != 0;
          assert s[1..][p - 1] == x;
        }
      }
      StrictlySortedUnique(s[1..], t[1..]);
    }
  }

  /* ---------- Totals ---------- */

  /** The sum of the counts of the entries. */
  function SumCounts(s: seq<WordCount>): int {
    if s == [] then 0 else SumCounts(s[..|s| - 1]) + s[|s| - 1].count
  }

  /** The sum, over the words `ws`, of their occurrences in `tokens`. */
  function SumOccurrences(tokens: seq<string>, ws: seq<string>): nat {
    if ws == [] then 0 else SumOccurrences(tokens, ws[..|ws| - 1]) + Occurrences(tokens, ws[|ws| - 1])
  }

  lemma {:induction false} SumOccurrencesSnoc(tokens: seq<string>, x: string, ws: seq<string>)
    ensures SumOccurrences(tokens + [x], ws) == SumOccurrences(tokens, ws) + Occurrences(ws, x)
    decreases |ws|
  {
    if ws != [] {
      SumOccurrencesSnoc(tokens, x, ws[..|ws| - 1]);
      assert (tokens + [x])[..|tokens|] == tokens;
    }
  }

  /** Over a list of distinct words that covers every token, the occurrences add up to the number of tokens. */
  lemma {:induction false} SumOccurrencesCoversTokens(tokens: seq<string>, ws: seq<string>)
    requires Distinct(ws)
    requires forall t :: t in tokens ==> t in ws
    ensures SumOccurrences(tokens, ws) == |tokens|
    decreases |tokens|
  {
    if tokens == [] {
      SumOccurrencesNoTokens(ws);
    } else {
      var init, x := tokens[..|tokens| - 1], tokens[|tokens| - 1];
      assert tokens == init + [x];
      SumOccurrencesCoversTokens(init, ws);
      SumOccurrencesSnoc(init, x, ws);
      OccurrencesIsMultiplicity(ws, x);
      DistinctMultiplicity(ws, x);
    }
  }

  lemma {:induction false} SumOccurrencesNoTokens(ws: seq<string>)
    ensures SumOccurrences([], ws) == 0
    decreases |ws|
  {
    if ws != [] {
      SumOccurrencesNoTokens(ws[..|ws| - 1]);
    }
  }

  lemma {:induction false} SumCountsOfTallied(s: seq<WordCount>, tokens: seq<string>)
    requires forall i :: 0 <= i < |s| ==> Tallied(s[i], tokens)
    ensures SumCounts(s) == SumOccurrences(tokens, Words(s))
    decreases |s|
  {
    if s != [] {
      var init := s[..|s| - 1];
      assert Words(s)[..|s| - 1] == Words(init);
      SumCountsOfTallied(init, tokens);
    }
  }

  /** The counts of a ranking add up to the number of tokens scanned. */
  lemma RankingCountsAllTokens(s: seq<WordCount>, tokens: seq<string>)
    requires IsRanking(s, tokens)
    ensures SumCounts(s) == |tokens|
  {
    SumCountsOfTallied(s, tokens);
    forall t | t in tokens ensures t in Words(s) {
      var x := WordCount(t, Occurrences(tokens, t));
      assert x in s;
      var i :| 0 <= i < |s| && s[i] == x;
      assert Words(s)[i] == t;
    }
    SumOccurrencesCoversTokens(tokens, Words(s));
  }

  /** A ranking has one entry per distinct word. */
  lemma RankingLength(s: seq<WordCount>, tokens: seq<string>)
    requires IsRanking(s, tokens)
    ensures |s| == |Vocabulary(tokens)|
  {
    var ws := Words(s);
    assert (set w | w in ws) == Vocabulary(tokens) by {
      forall w | w in ws ensures w in tokens {
        var i :| 0 <= i < |ws| && ws[i] == w;
        assert Tallied(s[i], tokens);
      }
      forall w | w in tokens ensures w in ws {
        var i :| 0 <= i < |s| && s[i] == WordCount(w, Occurrences(tokens, w));
        assert ws[i] == w;
      }
    }
    DistinctCardinality(ws);
  }

  lemma {:induction false} DistinctCardinality(ws: seq<string>)
    requires Distinct(ws)
    ensures |set w | w in ws| == |ws|
    decreases |ws|
  {
    if ws != [] {
      var init := ws[..|ws| - 1];
      assert ws == init + [ws[|ws| - 1]];
      DistinctCardinality(init);
      assert (set w | w in ws) == (set w | w in init) + {ws[|ws| - 1]};
    }
  }

  /* ---------- topWords ---------- */

  /** The K most frequent words of `text`, most frequent first, ties broken by word. */
  method TopWords(text: string, k: int) returns (top: seq<WordCount>)
    requires k >= 0
    ensures |top| == if k < |Vocabulary(Tokens(text))| then k else |Vocabulary(Tokens(text))|
    ensures exists ranking :: IsRanking(ranking, Tokens(text)) && |top| <= |ranking| && top == ranking[..|top|]
    ensures forall i :: 0 <= i < |top| ==> IsWord(top[i].word) && Tallied(top[i], Tokens(text))
    ensures Distinct(Words(top)) && StrictlySorted(top)
    ensures forall w, i :: w in Tokens(text) && w !in Words(top) && 0 <= i < |top| ==>
              RanksBefore(top[i], WordCount(w, Occurrences(Tokens(text), w)))
    ensures k >= |Vocabulary(Tokens(text))| ==>
              (forall w :: w in Tokens(text) ==> WordCount(w, Occurrences(Tokens(text), w)) in top) &&
              SumCounts(top) == |Tokens(text)|
  {
    var tokens := Tokens(text);
    var counts := CountTokens(tokens);
    var wordCounts := CollectWordCounts(counts);
    ghost var collected := wordCounts[..];
    SortWordCounts(wordCounts);
    SortedTallyIsRanking(collected, wordCounts[..], tokens);
    var n := k;
    if n > wordCounts.Length {
      n := wordCounts.Length;
    }
    top := wordCounts[..n];
    TruncatedRanking(text, k, wordCounts[..], top);
  }

  /** The first `min(k, |ranking|)` entries of the ranking of a document's words. */
  lemma TruncatedRanking(text: string, k: nat, ranking: seq<WordCount>, top: seq<WordCount>)
    requires IsRanking(ranking, Tokens(text))
    requires top == ranking[..if k < |ranking| then k else |ranking|]
    ensures |top| == if k < |Vocabulary(Tokens(text))| then k else |Vocabulary(Tokens(text))|
    ensures forall i :: 0 <= i < |top| ==> IsWord(top[i].word) && Tallied(top[i], Tokens(text))
    ensures Distinct(Words(top)) && StrictlySorted(top)
    ensures forall w, i :: w in Tokens(text) && w !in Words(top) && 0 <= i < |top| ==>
              RanksBefore(top[i], WordCount(w, Occurrences(Tokens(text), w)))
    ensures k >= |Vocabulary(Tokens(text))| ==>
              (forall w :: w in Tokens(text) ==> WordCount(w, Occurrences(Tokens(text), w)) in top) &&
              SumCounts(top) == |Tokens(text)|
  {
    var tokens := Tokens(text);
    RankingLength(ranking, tokens);
    RankingPrefixFacts(ranking, tokens, |top|);
    TokensAreWords(text);
    forall i | 0 <= i < |top| ensures IsWord(top[i].word) {
      assert Tallied(top[i], tokens);
    }
    if k >= |Vocabulary(tokens)| {
      assert top == ranking;
      RankingCountsAllTokens(top, tokens);
    }
  }

  /** What a prefix of the ranking inherits from it. */
  lemma RankingPrefixFacts(s: seq<WordCount>, tokens: seq<string>, n: nat)
    requires IsRanking(s, tokens) && n <= |s|
    ensures forall i :: 0 <= i < n ==> Tallied(s[..n][i], tokens)
    ensures Distinct(Words(s[..n])) && StrictlySorted(s[..n])
    ensures forall w, i :: w in tokens && w !in Words(s[..n]) && 0 <= i < n ==>
              RanksBefore(s[..n][i], WordCount(w, Occurrences(tokens, w)))
  {
    var top := s[..n];
    forall i, j | 0 <= i < j < n ensures Words(top)[i] != Words(top)[j] {
      assert Words(top)[i] == Words(s)[i] && Words(top)[j] == Words(s)[j];
    }
    forall w, i | w in tokens && w !in Words(top) && 0 <= i < n
      ensures RanksBefore(top[i], WordCount(w, Occurrences(tokens, w)))
    {
      var x := WordCount(w, Occurrences(tokens, w));
      var p :| 0 <= p < |s| && s[p] == x;
      forall j | 0 <= j < n ensures s[j] != x {
        assert Words(top)[j] in Words(top);
        assert Words(top)[j] == s[j].word;
      }
      assert i < p;
    }
  }
}
