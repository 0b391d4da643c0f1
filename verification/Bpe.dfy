/** Byte-pair merging: always the leftmost of the pairs of least rank, until none is in the table. */
module Bpe {
  import opened Common
  import opened ByteText

  const INT_MAX := 0x7FFF_FFFF

  /** The source joins the two halves of a pair with a newline to look the pair up. */
  function BpeKey(a: Str, b: Str): Str { a + [10] + b }

  type Ranks = map<Str, int>

  predicate Mergeable(ranks: Ranks, s: seq<Str>, i: nat) {
    i + 1 < |s| && BpeKey(s[i], s[i + 1]) in ranks && ranks[BpeKey(s[i], s[i + 1])] < INT_MAX
  }

  function RankAt(ranks: Ranks, s: seq<Str>, i: nat): int
    requires Mergeable(ranks, s, i)
  {
    ranks[BpeKey(s[i], s[i + 1])]
  }

  ghost predicate IsBest(ranks: Ranks, s: seq<Str>, i: nat) {
    && Mergeable(ranks, s, i)
    && forall j: nat | Mergeable(ranks, s, j) ::
         RankAt(ranks, s, i) <= RankAt(ranks, s, j) && (j < i ==> RankAt(ranks, s, i) < RankAt(ranks, s, j))
  }

  ghost predicate NoneMergeable(ranks: Ranks, s: seq<Str>) { forall j: nat :: !Mergeable(ranks, s, j) }

  /** The scan over the first n pairs; |s| when none of them is in the table. */
  function Best(ranks: Ranks, s: seq<Str>, n: nat): (b: nat)
    requires n <= |s|
    ensures b == |s| || (b < n && Mergeable(ranks, s, b))
    ensures forall j: nat | j < n && Mergeable(ranks, s, j) ::
              b < |s| && RankAt(ranks, s, b) <= RankAt(ranks, s, j) && (j < b ==> RankAt(ranks, s, b) < RankAt(ranks, s, j))
  {
    if n == 0 then |s|
    else
      var b := Best(ranks, s, n - 1);
      if Mergeable(ranks, s, n - 1) && (b == |s| || RankAt(ranks, s, n - 1) < RankAt(ranks, s, b)) then n - 1 else b
  }

  /** The scan finds the one pair that is best, and none exactly when there is none. */
  lemma BestIsBest(ranks: Ranks, s: seq<Str>, i: nat)
    ensures IsBest(ranks, s, i) <==> i < |s| && i == Best(ranks, s, |s|)
    ensures NoneMergeable(ranks, s) <==> Best(ranks, s, |s|) == |s|
  {
    var b := Best(ranks, s, |s|);
    if b < |s| {
      assert IsBest(ranks, s, b);
    }
  }

  function MergeAt(s: seq<Str>, i: nat): (r: seq<Str>)
    requires i + 1 < |s|
    ensures |r| == |s| - 1 && r[i] == s[i] + s[i + 1]
    ensures (forall j | 0 <= j < i :: r[j] == s[j]) && forall j | i < j < |r| :: r[j] == s[j + 1]
  {
    s[..i] + [s[i] + s[i + 1]] + s[i + 2..]
  }

  function Merged(ranks: Ranks, s: seq<Str>): seq<Str>
    decreases |s|
  {
    var b := Best(ranks, s, |s|);
    if b == |s| then s else Merged(ranks, MergeAt(s, b))
  }

  /** A complete run from s: the pairs merged, each best when its turn comes, and none left at the end. */
  ghost predicate IsRun(ranks: Ranks, s: seq<Str>, merges: seq<nat>, end: seq<Str>)
    decreases |merges|
  {
    if merges == [] then end == s && NoneMergeable(ranks, s)
    else IsBest(ranks, s, merges[0]) && IsRun(ranks, MergeAt(s, merges[0]), merges[1..], end)
  }

  /** All runs from the same symbols end in the same symbols. */
  lemma {:induction false} RunsAgree(ranks: Ranks, s: seq<Str>, merges: seq<nat>, end: seq<Str>)
    requires IsRun(ranks, s, merges, end)
    ensures end == Merged(ranks, s) && |end| + |merges| == |s|
    decreases |merges|
  {
    if merges == [] {
      BestIsBest(ranks, s, 0);
    } else {
      BestIsBest(ranks, s, merges[0]);
      RunsAgree(ranks, MergeAt(s, merges[0]), merges[1..], end);
    }
  }

  predicate AllWhole(s: seq<Str>) { forall i | 0 <= i < |s| :: s[i] != [] && Whole(s[i]) }

  lemma MergeKeepsText(s: seq<Str>, i: nat)
    requires i + 1 < |s|
    ensures Concat(MergeAt(s, i)) == Concat(s)
  {
    hide Concat;
    Around(s, i);
    ConcatTwo(s[i], s[i + 1]);
    ConcatOne(s[i] + s[i + 1]);
    ConcatReplace(s[..i], [s[i], s[i + 1]], [s[i] + s[i + 1]], s[i + 2..]);
  }

  lemma Around<T>(s: seq<T>, i: nat)
    requires i + 1 < |s|
    ensures s[..i] + [s[i], s[i + 1]] + s[i + 2..] == s
  {
  }

  lemma ConcatTwo(a: Str, b: Str)
    ensures Concat([a, b]) == a + b
  {
    assert [a] + [b] == [a, b];
    hide Concat;
    ConcatAppend([a], [b]);
    ConcatOne(a);
    ConcatOne(b);
  }

  lemma ConcatReplace(front: seq<Str>, a: seq<Str>, b: seq<Str>, back: seq<Str>)
    requires Concat(a) == Concat(b)
    ensures Concat(front + a + back) == Concat(front + b + back)
  {
    hide Concat;
    ConcatAppend(front, a);
    ConcatAppend(front, b);
    ConcatAppend(front + a, back);
    ConcatAppend(front + b, back);
  }

  lemma MergeKeepsWhole(s: seq<Str>, i: nat)
    requires i + 1 < |s| && AllWhole(s)
    ensures AllWhole(MergeAt(s, i))
  {
    hide Whole;
    WholeAppend(s[i], s[i + 1]);
  }

  /** Merging keeps the text and its codepoint boundaries, and leaves no pair that is in the table. */
  lemma {:induction false} MergedKeeps(ranks: Ranks, s: seq<Str>)
    ensures Concat(Merged(ranks, s)) == Concat(s)
    ensures AllWhole(s) ==> AllWhole(Merged(ranks, s))
    ensures NoneMergeable(ranks, Merged(ranks, s)) && |Merged(ranks, s)| <= |s|
    decreases |s|
  {
    hide AllWhole, Concat, MergeAt;
    var b := Best(ranks, s, |s|);
    BestIsBest(ranks, s, b);
    if b < |s| {
      MergeKeepsText(s, b);
      if AllWhole(s) {
        MergeKeepsWhole(s, b);
      }
      MergedKeeps(ranks, MergeAt(s, b));
    }
  }

  method FindBest(ranks: Ranks, symbols: seq<Str>) returns (bestIdx: nat)
    ensures bestIdx == Best(ranks, symbols, |symbols|)
  {
    var bestRank := INT_MAX;
    bestIdx := |symbols|;
    for i := 0 to |symbols|
      invariant bestIdx == Best(ranks, symbols, i)
      invariant bestRank == if bestIdx == |symbols| then INT_MAX else RankAt(ranks, symbols, bestIdx)
    {
      if i + 1 < |symbols| {
        var key := BpeKey(symbols[i], symbols[i + 1]);
        if key in ranks && ranks[key] < bestRank {
          bestRank := ranks[key];
          bestIdx := i;
        }
      }
    }
  }

  /** The merge loop; the number of symbols is its measure. */
  method MergeSymbols(ranks: Ranks, input: seq<Str>) returns (symbols: seq<Str>)
    ensures symbols == Merged(ranks, input)
  {
    symbols := input;
    while |symbols| > 1
      invariant Merged(ranks, symbols) == Merged(ranks, input)
      decreases |symbols|
    {
      var bestIdx := FindBest(ranks, symbols);
      if bestIdx == |symbols| {
        return;
      }
      assert MergeAt(symbols, bestIdx)
          == symbols[bestIdx := symbols[bestIdx] + symbols[bestIdx + 1]][..bestIdx + 1] + symbols[bestIdx + 2..];
      symbols := symbols[bestIdx := symbols[bestIdx] + symbols[bestIdx + 1]];
      symbols := symbols[..bestIdx + 1] + symbols[bestIdx + 2..];
    }
  }

  // ---- The merge table ----

  const NEWLINE: byte := 10

  /** A line of the merge list joins two halves with its first blank. */
  predicate Joins(merge: Str, a: Str, b: Str) { BLANK !in a && merge == a + [BLANK] + b }

  /** The rank of a pair is the number of the last line that joins it, and pairs on no line have none. */
  ghost predicate RankIs(merges: seq<Str>, n: nat, ranks: Ranks, a: Str, b: Str)
    requires n <= |merges|
  {
    if BpeKey(a, b) in ranks then
      var r := ranks[BpeKey(a, b)];
      0 <= r < n && Joins(merges[r], a, b) && forall m | r < m < n :: !Joins(merges[m], a, b)
    else forall m | 0 <= m < n :: !Joins(merges[m], a, b)
  }

  lemma MarkAt(mark: byte, a: Str, b: Str)
    requires mark !in a
    ensures var s := a + [mark] + b;
            |s| == |a| + 1 + |b| && s[|a|] == mark && (forall i | 0 <= i < |a| :: s[i] != mark) && s[..|a|] == a && s[|a| + 1..] == b
  {
  }

  /** Two halves joined by a mark the first does not contain can be told apart again. */
  lemma MarkSplits(mark: byte, a: Str, b: Str, a': Str, b': Str)
    requires mark !in a && mark !in a' && a + [mark] + b == a' + [mark] + b'
    ensures a == a' && b == b'
  {
    MarkAt(mark, a, b);
    MarkAt(mark, a', b');
    assert |a| == |a'|;
  }

  method FindBlank(merge: Str) returns (sp: nat)
    ensures sp <= |merge| && BLANK !in merge[..sp] && (sp < |merge| ==> merge[sp] == BLANK)
  {
    sp := 0;
    while sp < |merge| && merge[sp] != BLANK
      invariant sp <= |merge| && BLANK !in merge[..sp]
    {
      assert merge[..sp + 1] == merge[..sp] + [merge[sp]];
      sp := sp + 1;
    }
  }

  /** Every pair without a newline in its first half has its rank. */
  ghost predicate AllRanked(merges: seq<Str>, n: nat, ranks: Ranks)
    requires n <= |merges|
  {
    forall a: Str, b: Str | NEWLINE !in a :: RankIs(merges, n, ranks, a, b)
  }

  /** No line has a newline before its first blank. */
  ghost predicate CleanLines(merges: seq<Str>) {
    forall m, a: Str, b: Str | 0 <= m < |merges| && Joins(merges[m], a, b) :: NEWLINE !in a
  }

  /** The table as the loader fills it from the list of merges. */
  method BuildRanks(merges: seq<Str>) returns (ranks: Ranks)
    ensures CleanLines(merges) ==> AllRanked(merges, |merges|, ranks)
  {
    hide BpeKey, AllRanked;
    ghost var clean := CleanLines(merges);
    ranks := map[];
    NoneRanked(merges);
    for m := 0 to |merges|
      invariant clean ==> AllRanked(merges, m, ranks)
    {
      var sp := FindBlank(merges[m]);
      if sp < |merges[m]| {
        var left, right := merges[m][..sp], merges[m][sp + 1..];
        assert Joins(merges[m], left, right);
        if clean {
          RanksSet(merges, m, ranks, left, right);
        }
        ranks := ranks[BpeKey(left, right) := m];
      } else if clean {
        RanksKept(merges, m, ranks);
      }
    }
  }

  lemma NoneRanked(merges: seq<Str>)
    ensures AllRanked(merges, 0, map[])
  {
  }

  lemma RanksKept(merges: seq<Str>, n: nat, ranks: Ranks)
    requires n < |merges| && AllRanked(merges, n, ranks) && BLANK !in merges[n]
    ensures AllRanked(merges, n + 1, ranks)
  {
    hide BpeKey;
    forall a: Str, b: Str {:trigger RankIs(merges, n + 1, ranks, a, b)} | NEWLINE !in a ensures RankIs(merges, n + 1, ranks, a, b) {
      assert RankIs(merges, n, ranks, a, b);
      assert BLANK in a + [BLANK] + b;
    }
  }

  lemma RanksSet(merges: seq<Str>, n: nat, ranks: Ranks, left: Str, right: Str)
    requires n < |merges| && AllRanked(merges, n, ranks) && Joins(merges[n], left, right) && NEWLINE !in left
    ensures AllRanked(merges, n + 1, ranks[BpeKey(left, right) := n])
  {
    hide BpeKey, Joins;
    var now := ranks[BpeKey(left, right) := n];
    forall a: Str, b: Str {:trigger RankIs(merges, n + 1, now, a, b)} | NEWLINE !in a ensures RankIs(merges, n + 1, now, a, b) {
      assert RankIs(merges, n, ranks, a, b);
      SamePair(merges[n], left, right, a, b);
    }
  }

  /** A pair has the key of the joined one exactly when the line joins it too. */
  lemma SamePair(merge: Str, left: Str, right: Str, a: Str, b: Str)
    requires Joins(merge, left, right) && NEWLINE !in left && NEWLINE !in a
    ensures BpeKey(a, b) == BpeKey(left, right) <==> Joins(merge, a, b)
  {
    if BpeKey(a, b) == BpeKey(left, right) {
      MarkSplits(NEWLINE, a, b, left, right);
    }
    if Joins(merge, a, b) {
      MarkSplits(BLANK, a, b, left, right);
    }
  }
}
