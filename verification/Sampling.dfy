/**
 Top-k / top-p sampling over exact numbers.

 The fast path scans the logits once with a bounded heap. It is proved to keep exactly the k largest
 finite values as a multiset, which is what sorting keeps; the nucleus is then the shortest prefix
 whose mass exceeds p, and the sampled token lies in it.
 */
module Sampling {
  import opened Common

  /** A logit is a number or something the scan must skip (infinite or not a number). */
  datatype Logit = Finite(v: real) | NonFinite

  datatype TokenProb = TokenProb(id: nat, prob: real)

  // ---- The k largest values of a multiset ----

  ghost predicate Dominates(kept: multiset<real>, rest: multiset<real>) {
    forall x, y | x in kept && y in rest :: x >= y
  }

  /** `all` splits into k kept values (or all of them, if fewer) and a rest that none of them is below. */
  ghost predicate IsTopK(kept: multiset<real>, rest: multiset<real>, all: multiset<real>, k: nat) {
    all == kept + rest && |kept| == Min(k, |all|) && Dominates(kept, rest)
  }

  /** The k largest values are determined by the values, whatever the order they were found in. */
  lemma TopKIsUnique(a: multiset<real>, ra: multiset<real>, b: multiset<real>, rb: multiset<real>, all: multiset<real>, k: nat)
    requires IsTopK(a, ra, all, k) && IsTopK(b, rb, all, k)
    ensures a == b
  {
    if x :| x in a && a[x] > b[x] {
      InRest(a, ra, b, rb, x);
      if y :| y in b && b[y] > a[y] {
        InRest(b, rb, a, ra, y);
      } else {
        NotAbove(b, a);
      }
    } else {
      NotAbove(a, b);
    }
  }

  lemma InRest(a: multiset<real>, ra: multiset<real>, b: multiset<real>, rb: multiset<real>, x: real)
    requires a + ra == b + rb && a[x] > b[x]
    ensures x in rb
  {
    assert (a + ra)[x] == (b + rb)[x];
  }

  lemma NotAbove(a: multiset<real>, b: multiset<real>)
    requires |a| == |b| && forall x | x in a :: a[x] <= b[x]
    ensures a == b
  {
    forall x ensures a[x] <= b[x] {
      if x !in a {
        assert a[x] == 0;
      }
    }
    assert a <= b;
    assert b == a + (b - a);
    assert |b - a| == 0;
  }

  /** A new value when fewer than k are kept: everything is kept. */
  lemma TopKGrows(kept: multiset<real>, rest: multiset<real>, all: multiset<real>, k: nat, v: real)
    requires IsTopK(kept, rest, all, k) && |kept| < k
    ensures IsTopK(kept + multiset{v}, rest, all + multiset{v}, k)
  {
    assert |all| == |kept| + |rest|;
    assert rest == multiset{};
  }

  /** A new value beside k kept ones: it replaces the least of them if it is larger ... */
  lemma TopKReplaces(kept: multiset<real>, rest: multiset<real>, all: multiset<real>, k: nat, v: real, least: real)
    requires 0 < k && IsTopK(kept, rest, all, k) && |kept| == k && v > least
    requires least in kept && forall x | x in kept :: least <= x
    ensures IsTopK(kept - multiset{least} + multiset{v}, rest + multiset{least}, all + multiset{v}, k)
  {
    assert kept == kept - multiset{least} + multiset{least};
  }

  /** ... and joins the rest if it is not. */
  lemma TopKKeeps(kept: multiset<real>, rest: multiset<real>, all: multiset<real>, k: nat, v: real, least: real)
    requires 0 < k && IsTopK(kept, rest, all, k) && |kept| == k && v <= least
    requires forall x | x in kept :: least <= x
    ensures IsTopK(kept, rest + multiset{v}, all + multiset{v}, k)
  {
  }

  // ---- Candidate lists ----

  function Probs(c: seq<TokenProb>): (ps: seq<real>)
    ensures |ps| == |c| && forall i | 0 <= i < |c| :: ps[i] == c[i].prob
  {
    seq(|c|, i requires 0 <= i < |c| => c[i].prob)
  }

  /** The values of a candidate list, as a multiset. */
  ghost function Vals(c: seq<TokenProb>): (vs: multiset<real>)
    ensures |vs| == |c|
  {
    multiset(Probs(c))
  }

  lemma ValsAppend(c: seq<TokenProb>, x: TokenProb)
    ensures Vals(c + [x]) == Vals(c) + multiset{x.prob}
  {
    assert Probs(c + [x]) == Probs(c) + [x.prob];
  }

  lemma ValsConcat(a: seq<TokenProb>, b: seq<TokenProb>)
    ensures Vals(a + b) == Vals(a) + Vals(b)
  {
    assert Probs(a + b) == Probs(a) + Probs(b);
  }

  /** The same candidates in another order. */
  ghost predicate SameCandidates(a: seq<TokenProb>, b: seq<TokenProb>) {
    |a| == |b| && multiset(a) == multiset(b) && Vals(a) == Vals(b)
  }

  function Scaled(l: Logit, invT: real): real
    requires l.Finite?
  {
    l.v * invT
  }

  /** The finite values of the logits, scaled. */
  ghost function Values(logits: seq<Logit>, invT: real): multiset<real> {
    if logits == [] then multiset{}
    else
      var last, rest := logits[|logits| - 1], Values(logits[..|logits| - 1], invT);
      if last.Finite? then rest + multiset{Scaled(last, invT)} else rest
  }

  lemma ValuesStep(logits: seq<Logit>, i: nat, invT: real)
    requires i < |logits|
    ensures logits[i].Finite? ==> Values(logits[..i + 1], invT) == Values(logits[..i], invT) + multiset{Scaled(logits[i], invT)}
    ensures logits[i].NonFinite? ==> Values(logits[..i + 1], invT) == Values(logits[..i], invT)
  {
    var front := logits[..i + 1];
    assert front[..|front| - 1] == logits[..i] && front[|front| - 1] == logits[i];
  }

  /**
   Candidates carry the scaled logits of the tokens they name, tokens below i, and no token is named
   twice: equal ids have equal values, so that is to say that every candidate occurs once.
   */
  ghost predicate Carries(c: multiset<TokenProb>, logits: seq<Logit>, i: nat, invT: real) {
    forall x | x in c :: IsLogitOf(x, logits, i, invT) && c[x] == 1
  }

  ghost predicate IsLogitOf(c: TokenProb, logits: seq<Logit>, i: nat, invT: real) {
    c.id < i && c.id < |logits| && logits[c.id].Finite? && c.prob == Scaled(logits[c.id], invT)
  }

  lemma CarriesNext(c: multiset<TokenProb>, logits: seq<Logit>, i: nat, invT: real, x: TokenProb)
    requires Carries(c, logits, i, invT) && IsLogitOf(x, logits, i + 1, invT) && x.id == i
    ensures Carries(c + multiset{x}, logits, i + 1, invT) && Carries(c, logits, i + 1, invT)
    ensures forall y | y in c :: Carries(c - multiset{y} + multiset{x}, logits, i + 1, invT)
  {
    assert x !in c;
  }

  // ---- Which tokens are kept ----

  ghost predicate Named(c: multiset<TokenProb>, j: nat) { exists x | x in c :: x.id == j }

  /** No finite logit among the first i that is let go exceeds a kept one; below k candidates none is let go. */
  ghost predicate Unbeaten(c: multiset<TokenProb>, logits: seq<Logit>, i: nat, k: nat, invT: real) {
    && (forall j: nat, x | j < i && j < |logits| && logits[j].Finite? && !Named(c, j) && x in c :: x.prob >= Scaled(logits[j], invT))
    && (|c| < k ==> forall j: nat | j < i && j < |logits| && logits[j].Finite? :: Named(c, j))
  }

  lemma UnbeatenGrows(c: multiset<TokenProb>, logits: seq<Logit>, i: nat, k: nat, invT: real, x: TokenProb)
    requires Unbeaten(c, logits, i, k, invT) && |c| < k && x.id == i
    ensures Unbeaten(c + multiset{x}, logits, i + 1, k, invT)
  {
    forall j: nat | j < i + 1 && j < |logits| && logits[j].Finite? ensures Named(c + multiset{x}, j) {
      if j == i {
        assert x in c + multiset{x};
      } else {
        var y :| y in c && y.id == j;
        assert y in c + multiset{x};
      }
    }
  }

  lemma UnbeatenReplaces(c: multiset<TokenProb>, logits: seq<Logit>, i: nat, k: nat, invT: real, x: TokenProb, least: TokenProb)
    requires Unbeaten(c, logits, i, k, invT) && |c| >= k && x.id == i && Carries(c, logits, i, invT)
    requires least in c && (forall y | y in c :: least.prob <= y.prob) && least.prob < x.prob
    ensures Unbeaten(c - multiset{least} + multiset{x}, logits, i + 1, k, invT)
  {
    hide Scaled;
    var c' := c - multiset{least} + multiset{x};
    forall j: nat, y | j < i + 1 && j < |logits| && logits[j].Finite? && !Named(c', j) && y in c'
      ensures y.prob >= Scaled(logits[j], invT)
    {
      LetGo(c, logits, i, k, invT, x, least, j);
    }
    assert |c'| == |c|;
  }

  /** A token let go when x replaces the least: it was let go before, or it is the least itself. */
  lemma LetGo(c: multiset<TokenProb>, logits: seq<Logit>, i: nat, k: nat, invT: real, x: TokenProb, least: TokenProb, j: nat)
    requires Unbeaten(c, logits, i, k, invT) && Carries(c, logits, i, invT) && x.id == i && least in c
    requires j <= i && j < |logits| && logits[j].Finite? && !Named(c - multiset{least} + multiset{x}, j)
    ensures j < i && least.prob >= Scaled(logits[j], invT)
  {
    hide Scaled;
    var c' := c - multiset{least} + multiset{x};
    assert x in c';
    if Named(c, j) {
      var z :| z in c && z.id == j;
      assert z == least || z in c';
    }
  }

  lemma UnbeatenKeeps(c: multiset<TokenProb>, logits: seq<Logit>, i: nat, k: nat, invT: real, v: real)
    requires Unbeaten(c, logits, i, k, invT) && |c| >= k && i < |logits|
    requires logits[i].Finite? ==> v == Scaled(logits[i], invT) && forall y | y in c :: v <= y.prob
    ensures Unbeaten(c, logits, i + 1, k, invT)
  {
  }

  lemma UnbeatenSkips(c: multiset<TokenProb>, logits: seq<Logit>, i: nat, k: nat, invT: real)
    requires Unbeaten(c, logits, i, k, invT) && i < |logits| && logits[i].NonFinite?
    ensures Unbeaten(c, logits, i + 1, k, invT)
  {
  }

  // ---- The library calls, by what the scan relies on ----

  ghost predicate FrontIsLeast(c: seq<TokenProb>) {
    forall i | 0 <= i < |c| :: c[0].prob <= c[i].prob
  }

  function Swap(c: seq<TokenProb>, i: nat, j: nat): (r: seq<TokenProb>)
    requires i < |c| && j < |c|
    ensures SameCandidates(r, c) && r == c[i := c[j]][j := c[i]]
  {
    assert Probs(c[i := c[j]][j := c[i]]) == Probs(c)[i := Probs(c)[j]][j := Probs(c)[i]];
    c[i := c[j]][j := c[i]]
  }

  /** push_heap: the last element joins the heap before it. */
  method PushHeap(c: seq<TokenProb>) returns (r: seq<TokenProb>)
    requires c != [] && FrontIsLeast(c[..|c| - 1])
    ensures SameCandidates(r, c) && FrontIsLeast(r)
  {
    var n := |c| - 1;
    r := if c[n].prob < c[0].prob then Swap(c, 0, n) else c;
    forall i | 0 <= i < n ensures c[0].prob <= c[i].prob {
      assert c[..n][0].prob <= c[..n][i].prob;
    }
  }

  /** pop_heap: the least element moves to the back, the others form a heap. */
  method PopHeap(c: seq<TokenProb>) returns (r: seq<TokenProb>)
    requires c != [] && FrontIsLeast(c)
    ensures SameCandidates(r, c) && r[|r| - 1] == c[0] && FrontIsLeast(r[..|r| - 1])
  {
    var n := |c| - 1;
    r := Swap(c, 0, n);
    if n > 0 {
      var m := 0;
      for i := 0 to n
        invariant m < n && forall j | 0 <= j < i :: r[m].prob <= r[j].prob
      {
        if r[i].prob < r[m].prob {
          m := i;
        }
      }
      r := Swap(r, 0, m);
    }
  }

  ghost predicate Descending(c: seq<TokenProb>) {
    forall i, j | 0 <= i < j < |c| :: c[i].prob >= c[j].prob
  }

  lemma DescendingCons(x: TokenProb, rest: seq<TokenProb>)
    requires Descending(rest) && forall y | y in multiset(rest) :: x.prob >= y.prob
    ensures Descending([x] + rest)
  {
    forall i, j | 0 <= i < j < |[x] + rest| ensures ([x] + rest)[i].prob >= ([x] + rest)[j].prob {
      assert rest[j - 1] in multiset(rest);
    }
  }

  function Insert(c: seq<TokenProb>, x: TokenProb): (r: seq<TokenProb>)
    requires Descending(c)
    ensures Descending(r) && SameCandidates(r, [x] + c)
  {
    if c == [] then [x]
    else if x.prob > c[0].prob then
      assert Descending([x] + c) by { AllBelowFirst(c); DescendingCons(x, c); }
      [x] + c
    else
      var rest := Insert(c[1..], x);
      assert Descending([c[0]] + rest) && SameCandidates([c[0]] + rest, [x] + c) by { InsertStep(c, x, rest); }
      [c[0]] + rest
  }

  lemma InsertStep(c: seq<TokenProb>, x: TokenProb, rest: seq<TokenProb>)
    requires c != [] && Descending(c) && x.prob <= c[0].prob
    requires Descending(rest) && SameCandidates(rest, [x] + c[1..])
    ensures Descending([c[0]] + rest) && SameCandidates([c[0]] + rest, [x] + c)
  {
    AllBelowFirst(c);
    forall y | y in multiset(rest) ensures c[0].prob >= y.prob {
      assert y in multiset([x] + c[1..]);
      assert y == x || y in c[1..];
    }
    DescendingCons(c[0], rest);
    InsertCandidates(c, x, rest);
  }

  lemma InsertCandidates(c: seq<TokenProb>, x: TokenProb, rest: seq<TokenProb>)
    requires c != [] && SameCandidates(rest, [x] + c[1..])
    ensures SameCandidates([c[0]] + rest, [x] + c)
  {
    var head, tail := [c[0]], c[1..];
    assert c == head + tail;
    assert multiset([x] + tail) == multiset([x]) + multiset(tail);
    assert multiset([x] + c) == multiset([x]) + multiset(c);
    ValsConcat(head, rest);
    ValsConcat([x], tail);
    ValsConcat(head, tail);
    ValsConcat([x], c);
  }

  lemma AllBelowFirst(c: seq<TokenProb>)
    requires c != [] && Descending(c)
    ensures forall y | y in multiset(c) :: c[0].prob >= y.prob
  {
    forall y | y in multiset(c) ensures c[0].prob >= y.prob {
      var i :| 0 <= i < |c| && c[i] == y;
    }
  }

  /** sort with a.prob > b.prob. */
  function Sorted(c: seq<TokenProb>): (r: seq<TokenProb>)
    ensures Descending(r) && SameCandidates(r, c)
  {
    if c == [] then []
    else
      var rest := Sorted(c[1..]);
      assert SameCandidates([c[0]] + rest, c) by {
        assert c == [c[0]] + c[1..];
        ValsConcat([c[0]], rest);
        ValsConcat([c[0]], c[1..]);
      }
      Insert(rest, c[0])
  }

  // ---- The scan ----

  /** What the heap holds, and what was let go, after the first i logits. */
  ghost predicate Scanned(c: seq<TokenProb>, rest: multiset<real>, logits: seq<Logit>, i: nat, k: nat, invT: real)
    requires i <= |logits|
  {
    && FrontIsLeast(c) && Carries(multiset(c), logits, i, invT) && Unbeaten(multiset(c), logits, i, k, invT)
    && IsTopK(Vals(c), rest, Values(logits[..i], invT), k)
  }

  lemma FrontIsLeastValue(c: seq<TokenProb>)
    requires c != [] && FrontIsLeast(c)
    ensures c[0].prob in Vals(c) && forall v | v in Vals(c) :: c[0].prob <= v
    ensures c[0] in multiset(c) && forall y | y in multiset(c) :: c[0].prob <= y.prob
  {
    forall y | y in multiset(c) ensures c[0].prob <= y.prob {
      var j :| 0 <= j < |c| && c[j] == y;
    }
    assert Probs(c)[0] == c[0].prob;
    forall v | v in Vals(c) ensures c[0].prob <= v {
      var i :| 0 <= i < |c| && Probs(c)[i] == v;
    }
  }

  /** One pass over the logits with a heap of at most k candidates. */
  method ScanTopK(logits: seq<Logit>, k: nat, invT: real) returns (c: seq<TokenProb>, ghost rest: multiset<real>)
    requires k > 0
    ensures Carries(multiset(c), logits, |logits|, invT) && Unbeaten(multiset(c), logits, |logits|, k, invT)
    ensures IsTopK(Vals(c), rest, Values(logits, invT), k)
  {
    c, rest := [], multiset{};
    for i := 0 to |logits|
      invariant Scanned(c, rest, logits, i, k, invT)
    {
      ValuesStep(logits, i, invT);
      if logits[i].Finite? {
        c, rest := Offer(c, rest, k, TokenProb(i, Scaled(logits[i], invT)), logits, i, invT);
      } else {
        UnbeatenSkips(multiset(c), logits, i, k, invT);
      }
    }
    assert logits[..|logits|] == logits;
  }

  /** The heap step for one finite logit. */
  method Offer(c: seq<TokenProb>, ghost rest: multiset<real>, k: nat, x: TokenProb, ghost logits: seq<Logit>,
               ghost i: nat, ghost invT: real) returns (r: seq<TokenProb>, ghost rest': multiset<real>)
    requires k > 0 && i < |logits| && x.id == i && IsLogitOf(x, logits, i + 1, invT)
    requires Scanned(c, rest, logits, i, k, invT)
    ensures Scanned(r, rest', logits, i + 1, k, invT)
  {
    hide Scaled, Values, Unbeaten, Carries, FrontIsLeast, Vals;
    ghost var all := Values(logits[..i], invT);
    ValuesStep(logits, i, invT);
    CarriesNext(multiset(c), logits, i, invT, x);
    if |c| < k {
      TopKGrows(Vals(c), rest, all, k, x.prob);
      UnbeatenGrows(multiset(c), logits, i, k, invT, x);
      r := Push(c, x);
      rest' := rest;
    } else {
      FrontIsLeastValue(c);
      if x.prob > c[0].prob {
        TopKReplaces(Vals(c), rest, all, k, x.prob, c[0].prob);
        UnbeatenReplaces(multiset(c), logits, i, k, invT, x, c[0]);
        r := Replace(c, x);
        rest' := rest + multiset{c[0].prob};
      } else {
        TopKKeeps(Vals(c), rest, all, k, x.prob, c[0].prob);
        UnbeatenKeeps(multiset(c), logits, i, k, invT, x.prob);
        r, rest' := c, rest + multiset{x.prob};
      }
    }
  }

  method Push(c: seq<TokenProb>, x: TokenProb) returns (r: seq<TokenProb>)
    requires FrontIsLeast(c)
    ensures FrontIsLeast(r) && multiset(r) == multiset(c) + multiset{x} && Vals(r) == Vals(c) + multiset{x.prob}
  {
    assert (c + [x])[..|c|] == c;
    ValsAppend(c, x);
    r := PushHeap(c + [x]);
  }

  method Replace(c: seq<TokenProb>, x: TokenProb) returns (r: seq<TokenProb>)
    requires c != [] && FrontIsLeast(c)
    ensures FrontIsLeast(r) && multiset(r) == multiset(c) - multiset{c[0]} + multiset{x}
    ensures Vals(r) == Vals(c) - multiset{c[0].prob} + multiset{x.prob}
  {
    var p := PopHeap(c);
    var kept := p[..|p| - 1];
    assert p == kept + [c[0]];
    ValsAppend(kept, c[0]);
    r := Push(kept, x);
  }

  // ---- Sorting keeps the same values ----

  /** The first k of the sorted candidates; all of them when k is out of range. */
  method TopKFilter(c: seq<TokenProb>, k: int) returns (r: seq<TokenProb>, n: nat)
    ensures SameCandidates(r, c) && n <= |r|
    ensures if k <= 0 || k >= |c| then n == |c| else n == k && Descending(r[..n])
    ensures IsTopK(Vals(r[..n]), Vals(r[n..]), Vals(c), n)
  {
    if k <= 0 || k >= |c| {
      assert c[..|c|] == c && c[|c|..] == [];
      return c, |c|;
    }
    r, n := Sorted(c), k;
    PrefixIsTopK(r, n);
  }

  lemma PrefixIsTopK(r: seq<TokenProb>, n: nat)
    requires n <= |r| && Descending(r)
    ensures IsTopK(Vals(r[..n]), Vals(r[n..]), Vals(r), n)
  {
    assert r == r[..n] + r[n..];
    ValsConcat(r[..n], r[n..]);
    forall x, y | x in Vals(r[..n]) && y in Vals(r[n..]) ensures x >= y {
      var i :| 0 <= i < n && Probs(r[..n])[i] == x;
      var j :| 0 <= j < |r| - n && Probs(r[n..])[j] == y;
      assert r[i].prob >= r[n + j].prob;
    }
  }

  /** The bounded heap and the partial sort keep the same values of the same candidates. */
  lemma HeapEqualsSorting(heap: seq<TokenProb>, heapRest: multiset<real>, sorted: seq<TokenProb>, sortedRest: multiset<real>,
                          all: seq<TokenProb>, k: nat)
    requires 0 < k < |all|
    requires IsTopK(Vals(heap), heapRest, Vals(all), k) && IsTopK(Vals(sorted), sortedRest, Vals(all), k)
    ensures Vals(heap) == Vals(sorted) && |heap| == |sorted| == k
  {
    TopKIsUnique(Vals(heap), heapRest, Vals(sorted), sortedRest, Vals(all), k);
  }

  // ---- Nucleus and draw ----

  function Mass(c: seq<TokenProb>, n: nat): real
    requires n <= |c|
  {
    if n == 0 then 0.0 else Mass(c, n - 1) + c[n - 1].prob
  }

  /** n is the shortest prefix whose mass exceeds p, or everything if no prefix does. */
  ghost predicate IsNucleus(c: seq<TokenProb>, p: real, n: nat) {
    && n <= |c|
    && (forall j | 0 <= j < n :: Mass(c, j) <= p || j == 0)
    && (n < |c| ==> 0 < n && Mass(c, n) > p)
  }

  method TopPFilter(c: seq<TokenProb>, p: real) returns (cutoff: nat)
    ensures IsNucleus(c, p, cutoff)
  {
    var cumsum := 0.0;
    cutoff := |c|;
    for i := 0 to |c|
      invariant cumsum == Mass(c, i) && cutoff == |c|
      invariant forall j | 0 < j <= i :: Mass(c, j) <= p
    {
      cumsum := cumsum + c[i].prob;
      if cumsum > p {
        cutoff := i + 1;
        break;
      }
    }
  }

  /** Candidate j is drawn by r: the first whose cumulative mass reaches r, or the last one. */
  ghost predicate IsDrawn(c: seq<TokenProb>, n: nat, r: real, j: nat)
    requires n <= |c|
  {
    && j < n && (forall i | 0 < i <= j :: Mass(c, i) < r)
    && (Mass(c, j + 1) >= r || j == n - 1)
  }

  /** The draw over the first n candidates; u in [0, 1) is the uniform random number. */
  method SampleFrom(c: seq<TokenProb>, n: nat, u: real) returns (id: nat, ghost j: nat)
    requires 0 < n <= |c|
    ensures IsDrawn(c, n, u * Mass(c, n), j) && id == c[j].id
  {
    var total := 0.0;
    for i := 0 to n
      invariant total == Mass(c, i)
    {
      total := total + c[i].prob;
    }
    var r := u * total;
    var cumsum := 0.0;
    for i := 0 to n
      invariant cumsum == Mass(c, i)
      invariant forall k | 0 < k <= i :: Mass(c, k) < r
    {
      cumsum := cumsum + c[i].prob;
      if cumsum >= r {
        return c[i].id, i;
      }
    }
    return c[n - 1].id, n - 1;
  }

  ghost predicate IsGreedy(logits: seq<Logit>, best: nat) {
    if forall i | 0 <= i < |logits| :: logits[i].NonFinite? then best == 0
    else
      && best < |logits| && logits[best].Finite?
      && (forall i | 0 <= i < |logits| && logits[i].Finite? :: logits[i].v <= logits[best].v)
      && (forall i | 0 <= i < best && logits[i].Finite? :: logits[i].v < logits[best].v)
  }

  /** The leftmost largest finite logit; 0 if there is none. */
  method SampleGreedy(logits: seq<Logit>) returns (best: nat)
    ensures IsGreedy(logits, best)
  {
    best := 0;
    var bestVal: Option<real> := None;   // None stands for minus infinity
    for i := 0 to |logits|
      invariant bestVal.None? ==> best == 0 && forall j | 0 <= j < i :: logits[j].NonFinite?
      invariant bestVal.Some? ==> best < i && logits[best] == Finite(bestVal.value)
      invariant bestVal.Some? ==> forall j | 0 <= j < i && logits[j].Finite? :: logits[j].v <= bestVal.value
      invariant bestVal.Some? ==> forall j | 0 <= j < best && logits[j].Finite? :: logits[j].v < bestVal.value
    {
      if logits[i].Finite? && (bestVal.None? || logits[i].v > bestVal.value) {
        best, bestVal := i, Some(logits[i].v);
      }
    }
  }

  // ---- The fast path ----

  function Softmax(c: seq<TokenProb>, expf: real -> real): (r: seq<TokenProb>)
    requires c != []
    ensures |r| == |c|
  {
    seq(|c|, i requires 0 <= i < |c| => TokenProb(c[i].id, expf(c[i].prob - c[0].prob)))
  }

  function Scale(c: seq<TokenProb>, f: real): (r: seq<TokenProb>)
    ensures |r| == |c|
  {
    seq(|c|, i requires 0 <= i < |c| => TokenProb(c[i].id, c[i].prob * f))
  }

  lemma ScaleKeepsIds(c: seq<TokenProb>, expf: real -> real, f: real, j: nat)
    requires j < |c|
    ensures Scale(Softmax(c, expf), f)[j].id == c[j].id
  {
  }

  /** Weights divided by their sum. */
  ghost function Distribution(ranked: seq<TokenProb>, expf: real -> real): (d: seq<TokenProb>)
    requires ranked != [] && Mass(Softmax(ranked, expf), |ranked|) > 0.0
    ensures |d| == |ranked|
  {
    Scale(Softmax(ranked, expf), 1.0 / Mass(Softmax(ranked, expf), |ranked|))
  }

  /** The tokens keep their places, their probabilities are proportional to the exponentials, and add up to one. */
  lemma DistributionLaw(ranked: seq<TokenProb>, expf: real -> real)
    requires ranked != [] && Mass(Softmax(ranked, expf), |ranked|) > 0.0
    ensures var d, z := Distribution(ranked, expf), Mass(Softmax(ranked, expf), |ranked|);
            && (forall j | 0 <= j < |ranked| :: d[j].id == ranked[j].id)
            && (forall j | 0 <= j < |ranked| :: d[j].prob * z == expf(ranked[j].prob - ranked[0].prob))
            && Mass(d, |d|) == 1.0
  {
    hide Scale, Softmax, Mass;
    var w := Softmax(ranked, expf);
    var z := Mass(w, |w|);
    forall j | 0 <= j < |ranked|
      ensures Scale(w, 1.0 / z)[j].id == ranked[j].id
      ensures Scale(w, 1.0 / z)[j].prob * z == expf(ranked[j].prob - ranked[0].prob)
    {
      WeightAt(ranked, expf, j);
      ScaleAt(w, 1.0 / z, z, j);
    }
    MassScales(w, 1.0 / z, |w|);
    DivMul(z, z);
  }

  lemma WeightAt(ranked: seq<TokenProb>, expf: real -> real, j: nat)
    requires j < |ranked|
    ensures Softmax(ranked, expf)[j] == TokenProb(ranked[j].id, expf(ranked[j].prob - ranked[0].prob))
  {
  }

  lemma ScaleAt(c: seq<TokenProb>, f: real, z: real, j: nat)
    requires j < |c| && z > 0.0 && f == 1.0 / z
    ensures Scale(c, f)[j].id == c[j].id && Scale(c, f)[j].prob * z == c[j].prob
  {
    DivMul(c[j].prob, z);
  }

  lemma DivMul(x: real, z: real)
    requires z > 0.0
    ensures x * (1.0 / z) * z == x
    ensures z * (1.0 / z) == 1.0
  {
    assert (1.0 / z) * z == 1.0;
    assert x * (1.0 / z) * z == x * ((1.0 / z) * z);
  }

  lemma {:induction false} MassScales(c: seq<TokenProb>, f: real, n: nat)
    requires n <= |c|
    ensures Mass(Scale(c, f), n) == Mass(c, n) * f
  {
    if n > 0 {
      MassScales(c, f, n - 1);
    }
  }

  /** The returned token is candidate `drawn` of the nucleus of the first `cut` ranked candidates. */
  datatype Draw = Draw(cut: nat, drawn: nat)

  ghost predicate Explains(ranked: seq<TokenProb>, dist: seq<TokenProb>, d: Draw, p: real, u: real, id: nat) {
    && |dist| == |ranked| && IsNucleus(dist, p, d.cut)
    && IsDrawn(dist, d.cut, u * Mass(dist, d.cut), d.drawn)
    && id == ranked[d.drawn].id
  }

  /**
   On the logits themselves: the candidates name different tokens with finite logits, in descending
   order; no other finite logit exceeds any of theirs, and there are k of them unless all are named.
   */
  ghost predicate LargestLogits(ranked: seq<TokenProb>, logits: seq<Logit>, k: nat, temperature: real) {
    NamesLogits(ranked, logits, temperature) && InOrder(ranked, logits) && NoneAbove(ranked, logits, k)
  }

  /** The logit of token i, zero where it has no finite one. */
  function LogitOf(logits: seq<Logit>, i: nat): real {
    if i < |logits| && logits[i].Finite? then logits[i].v else 0.0
  }

  predicate HasLogit(logits: seq<Logit>, i: nat) { i < |logits| && logits[i].Finite? }

  ghost predicate NamesLogits(ranked: seq<TokenProb>, logits: seq<Logit>, temperature: real) {
    forall a | 0 <= a < |ranked| :: HasLogit(logits, ranked[a].id) && ranked[a].prob * temperature == LogitOf(logits, ranked[a].id)
  }

  ghost predicate InOrder(ranked: seq<TokenProb>, logits: seq<Logit>) {
    forall a, b | 0 <= a < b < |ranked| ::
      ranked[a].id != ranked[b].id && LogitOf(logits, ranked[a].id) >= LogitOf(logits, ranked[b].id)
  }

  ghost predicate NoneAbove(ranked: seq<TokenProb>, logits: seq<Logit>, k: nat) {
    && (forall a, i: nat | 0 <= a < |ranked| && HasLogit(logits, i) && !IsRanked(ranked, i) ::
          LogitOf(logits, ranked[a].id) >= LogitOf(logits, i))
    && |ranked| <= k
    && (|ranked| < k ==> forall i: nat | HasLogit(logits, i) :: IsRanked(ranked, i))
  }

  ghost predicate IsRanked(ranked: seq<TokenProb>, i: nat) { exists a | 0 <= a < |ranked| :: ranked[a].id == i }

  /** Each candidate's value is its token's logit, scaled. */
  ghost predicate CarriesScaled(ranked: seq<TokenProb>, logits: seq<Logit>, invT: real) {
    forall a | 0 <= a < |ranked| :: HasLogit(logits, ranked[a].id) && ranked[a].prob == Scaled(Finite(LogitOf(logits, ranked[a].id)), invT)
  }

  lemma RankedAreLargest(ranked: seq<TokenProb>, rest: multiset<real>, logits: seq<Logit>, k: nat, temperature: real)
    requires temperature > 0.0 && Ranked(ranked, rest, logits, k, InvT(temperature))
    requires Unbeaten(multiset(ranked), logits, |logits|, k, InvT(temperature))
    ensures LargestLogits(ranked, logits, k, temperature)
  {
    hide IsTopK, Values, InvT, Scaled, Unbeaten, Named, Carries, InOrder, NoneAbove;
    var invT := InvT(temperature);
    TopKSize(ranked, rest, logits, k, invT);
    RankedAreNamed(ranked, logits, temperature);
    RankedInOrder(ranked, logits, temperature);
    RankedAreAbove(ranked, logits, k, temperature);
  }

  lemma RankedAreNamed(ranked: seq<TokenProb>, logits: seq<Logit>, temperature: real)
    requires temperature > 0.0 && Carries(multiset(ranked), logits, |logits|, InvT(temperature))
    ensures NamesLogits(ranked, logits, temperature) && CarriesScaled(ranked, logits, InvT(temperature))
  {
    hide InvT, Scaled;
    forall a | 0 <= a < |ranked|
      ensures HasLogit(logits, ranked[a].id) && ranked[a].prob * temperature == LogitOf(logits, ranked[a].id)
      ensures ranked[a].prob == Scaled(Finite(LogitOf(logits, ranked[a].id)), InvT(temperature))
    {
      assert ranked[a] in multiset(ranked);
      Unscale(logits[ranked[a].id], temperature);
    }
  }

  lemma RankedInOrder(ranked: seq<TokenProb>, logits: seq<Logit>, temperature: real)
    requires temperature > 0.0 && Carries(multiset(ranked), logits, |logits|, InvT(temperature)) && Descending(ranked)
    requires CarriesScaled(ranked, logits, InvT(temperature))
    ensures InOrder(ranked, logits)
  {
    hide InvT, Scaled, Carries, LogitOf;
    forall a, b | 0 <= a < b < |ranked|
      ensures ranked[a].id != ranked[b].id && LogitOf(logits, ranked[a].id) >= LogitOf(logits, ranked[b].id)
    {
      OrderUnscaled(Finite(LogitOf(logits, ranked[a].id)), Finite(LogitOf(logits, ranked[b].id)), temperature);
      Distinct(ranked, logits, InvT(temperature), a, b);
    }
  }

  lemma RankedAreAbove(ranked: seq<TokenProb>, logits: seq<Logit>, k: nat, temperature: real)
    requires temperature > 0.0 && Unbeaten(multiset(ranked), logits, |logits|, k, InvT(temperature)) && |ranked| <= k
    requires CarriesScaled(ranked, logits, InvT(temperature))
    ensures NoneAbove(ranked, logits, k)
  {
    hide InvT, Scaled, IsRanked, Named;
    forall a, i: nat | 0 <= a < |ranked| && HasLogit(logits, i) && !IsRanked(ranked, i)
      ensures LogitOf(logits, ranked[a].id) >= LogitOf(logits, i)
    {
      NamedIsRanked(ranked, i);
      assert ranked[a] in multiset(ranked);
      OrderUnscaled(Finite(LogitOf(logits, ranked[a].id)), logits[i], temperature);
    }
    if |ranked| < k {
      forall i: nat | HasLogit(logits, i) ensures IsRanked(ranked, i) {
        NamedIsRanked(ranked, i);
      }
    }
  }

  lemma NamedIsRanked(ranked: seq<TokenProb>, i: nat)
    ensures Named(multiset(ranked), i) <==> IsRanked(ranked, i)
  {
    if Named(multiset(ranked), i) {
      var x :| x in multiset(ranked) && x.id == i;
      var a :| 0 <= a < |ranked| && ranked[a] == x;
    }
    if IsRanked(ranked, i) {
      var a :| 0 <= a < |ranked| && ranked[a].id == i;
      assert ranked[a] in multiset(ranked);
    }
  }

  lemma Distinct(ranked: seq<TokenProb>, logits: seq<Logit>, invT: real, a: nat, b: nat)
    requires a < b < |ranked| && Carries(multiset(ranked), logits, |logits|, invT)
    ensures ranked[a].id != ranked[b].id
  {
    hide Scaled;
    assert ranked[a] in multiset(ranked) && ranked[b] in multiset(ranked);
    if ranked[a].id == ranked[b].id {
      Twice(ranked, a, b);
    }
  }

  lemma TopKSize(ranked: seq<TokenProb>, rest: multiset<real>, logits: seq<Logit>, k: nat, invT: real)
    requires IsTopK(Vals(ranked), rest, Values(logits, invT), k)
    ensures |ranked| <= k
  {
  }

  lemma InvTIs(temperature: real)
    requires temperature > 0.0
    ensures InvT(temperature) * temperature == 1.0 && InvT(temperature) > 0.0
  {
  }

  lemma Unscale(l: Logit, temperature: real)
    requires temperature > 0.0 && l.Finite?
    ensures Scaled(l, InvT(temperature)) * temperature == l.v
  {
    hide InvT;
    InvTIs(temperature);
    assert l.v * InvT(temperature) * temperature == l.v * (InvT(temperature) * temperature);
  }

  lemma OrderUnscaled(a: Logit, b: Logit, temperature: real)
    requires temperature > 0.0 && a.Finite? && b.Finite?
    ensures Scaled(a, InvT(temperature)) >= Scaled(b, InvT(temperature)) ==> a.v >= b.v
  {
    Unscale(a, temperature);
    Unscale(b, temperature);
    hide Scaled, InvT;
    ScaleOrder(Scaled(b, InvT(temperature)), Scaled(a, InvT(temperature)), temperature);
  }

  lemma ScaleOrder(x: real, y: real, w: real)
    requires w > 0.0
    ensures x <= y ==> x * w <= y * w
  {
    assert x <= y ==> (y - x) * w >= 0.0;
  }

  lemma Twice(c: seq<TokenProb>, a: nat, b: nat)
    requires a < b < |c| && c[a] == c[b]
    ensures multiset(c)[c[a]] >= 2
  {
    assert c == c[..b] + [c[b]] + c[b + 1..];
    assert c[a] in c[..b];
    assert multiset(c) == multiset(c[..b]) + multiset{c[b]} + multiset(c[b + 1..]);
  }

  /** The candidates a token may be drawn from: the k largest finite values, in descending order. */
  ghost predicate Ranked(ranked: seq<TokenProb>, rest: multiset<real>, logits: seq<Logit>, k: nat, invT: real) {
    && Carries(multiset(ranked), logits, |logits|, invT) && Descending(ranked)
    && IsTopK(Vals(ranked), rest, Values(logits, invT), k)
  }

  method Total(c: seq<TokenProb>) returns (sum: real)
    ensures sum == Mass(c, |c|)
  {
    sum := 0.0;
    for i := 0 to |c|
      invariant sum == Mass(c, i)
    {
      sum := sum + c[i].prob;
    }
  }

  /** Nucleus and draw over the distribution of the ranked candidates. */
  method DrawFrom(ranked: seq<TokenProb>, dist: seq<TokenProb>, topP: real, u: real) returns (id: nat, ghost d: Draw)
    requires ranked != [] && |dist| == |ranked| && forall j | 0 <= j < |dist| :: dist[j].id == ranked[j].id
    ensures Explains(ranked, dist, d, topP, u, id)
  {
    var n := TopPFilter(dist, topP);
    ghost var j;
    id, j := SampleFrom(dist, n, u);
    d := Draw(n, j);
  }

  /** None only when the weights do not add up to anything positive. */
  method DrawRanked(ranked: seq<TokenProb>, topP: real, expf: real -> real, u: real)
    returns (r: Option<nat>, ghost d: Draw)
    requires ranked != []
    ensures r.None? <==> Mass(Softmax(ranked, expf), |ranked|) <= 0.0
    ensures r.Some? ==> Explains(ranked, Distribution(ranked, expf), d, topP, u, r.value)
  {
    var w := Softmax(ranked, expf);
    var sum := Total(w);
    if sum <= 0.0 {
      return None, Draw(0, 0);
    }
    var dist := Scale(w, 1.0 / sum);
    forall j | 0 <= j < |dist| ensures dist[j].id == ranked[j].id {
      ScaleKeepsIds(ranked, expf, 1.0 / sum, j);
    }
    var id;
    id, d := DrawFrom(ranked, dist, topP, u);
    return Some(id), d;
  }

  function InvT(temperature: real): real
    requires temperature > 0.0
  {
    if temperature == 1.0 then 1.0 else 1.0 / temperature
  }

  /**
   The fast path. None is the code's -1 (k out of range). Otherwise `ranked` are the k largest finite
   scaled logits and the token is drawn from their nucleus, unless there is nothing to draw from.
   */
  method SampleTopKFast(logits: seq<Logit>, topK: int, temperature: real, topP: real, expf: real -> real, u: real)
    returns (r: Option<nat>, ghost ranked: seq<TokenProb>, ghost rest: multiset<real>, ghost d: Draw)
    requires temperature > 0.0
    ensures r.None? <==> topK <= 0 || topK >= |logits|
    ensures r.Some? ==> Ranked(ranked, rest, logits, topK, InvT(temperature)) && LargestLogits(ranked, logits, topK, temperature)
    ensures r.Some? && ranked != [] && Mass(Softmax(ranked, expf), |ranked|) > 0.0 ==>
              Explains(ranked, Distribution(ranked, expf), d, topP, u, r.value)
    ensures r.Some? && !(ranked != [] && Mass(Softmax(ranked, expf), |ranked|) > 0.0) ==> IsGreedy(logits, r.value)
  {
    var k := topK;
    ranked, rest, d := [], multiset{}, Draw(0, 0);
    r := None;
    if k <= 0 || k >= |logits| {
      return;
    }
    var c;
    c, rest := ScanTopK(logits, k, InvT(temperature));
    var candidates := Sorted(c);
    ranked := candidates;
    RankedAreLargest(ranked, rest, logits, k, temperature);
    if candidates != [] {
      r, d := DrawRanked(candidates, topP, expf, u);
    }
    if r.None? {
      var g := SampleGreedy(logits);
      r := Some(g);
    }
  }
}
