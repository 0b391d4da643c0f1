/**
 One generation turn, as a plain autoregressive reference: sample from the final hidden state of the
 committed tokens, deliver, commit, repeat. There is no pool, no cache file and no schedule here.
 */
module Turns {
  import opened Common
  import opened Transformer

  /** The surroundings of one turn, fixed in advance. */
  datatype Env = Env(stop: seq<Token> -> bool,   // has the callback asked to stop after these deliveries
                     guard: nat -> bool,         // does the memory guard allow a step at this position
                     batched: bool,              // layer-major prefill enabled and admitted to scratch
                     logitsOk: bool,             // the logits of the prefill state could be copied back
                     stepLogits: nat -> bool,    // so could those of the decode step at this position
                     scatterCopies: nat,         // device copies that succeed while hydrating
                     gatherCopies: nat,          // device copies that succeed while saving
                     dirOk: bool,                // the cache directory exists or could be made
                     evictions: seq<string>)     // files the budget and the clean-up pick, oldest first

  datatype Turn = Turn(delivered: seq<Token>, committed: seq<Token>, recent: seq<Token>, last: Token,
                       rng: int, oomStops: nat)

  const RECENT_WINDOW := 64

  function Window(recent: seq<Token>, t: Token): seq<Token> {
    var r := recent + [t];
    if |r| > RECENT_WINDOW then r[1..] else r
  }

  ghost function Sampled(m: Model, ts: seq<Token>, recent: seq<Token>, rng: int): (Token, int)
    requires |ts| > 0
  {
    m.sample(m.logits(Hidden(m, Cold, ts, m.nLayers, |ts| - 1)), recent, rng)
  }

  /** What delivering one more token changes. */
  datatype Outcome = Outcome(token: Token, recent: seq<Token>, last: Token, rng: int)

  /**
   The token after `ts`. A decode step whose logits cannot be copied back reports eos instead, with
   window, last token and random state as they were.
   */
  ghost function Next(m: Model, env: Env, ts: seq<Token>, recent: seq<Token>, rng: int, step: bool): Outcome
    requires |ts| > 0
  {
    if step && !env.stepLogits(|ts| - 1) then Outcome(m.eos, recent, ts[|ts| - 1], rng)
    else
      var (tok, rng') := Sampled(m, ts, recent, rng);
      Outcome(tok, Window(recent, tok), tok, rng')
  }

  /** Deliver the token after `ts`, and go on while `left` more are allowed. */
  ghost function Autoregress(m: Model, env: Env, limit: nat, ts: seq<Token>, recent: seq<Token>, rng: int,
                             delivered: seq<Token>, left: int, step: bool): Turn
    requires |ts| > 0
    decreases Max(0, left), 1
  {
    var o := Next(m, env, ts, recent, rng, step);
    Continue(m, env, limit, ts, o, delivered + [o.token], left - 1)
  }

  /** The outcome's token has been delivered but not committed: stop here, or commit it and take a step. */
  ghost function Continue(m: Model, env: Env, limit: nat, ts: seq<Token>, o: Outcome, delivered: seq<Token>, left: int): Turn
    requires |ts| > 0
    decreases Max(0, left + 1), 0
  {
    if o.token == m.eos || left <= 0 || env.stop(delivered) || |ts| >= limit then
      Turn(delivered, ts, o.recent, o.last, o.rng, 0)
    else if !env.guard(|ts|) then
      Turn(delivered, ts, o.recent, o.last, o.rng, 1)
    else
      Autoregress(m, env, limit, ts + [o.token], o.recent, o.rng, delivered, left, true)
  }

  /**
   The whole turn. Sampling the first token from the prefill state needs no decode step; recovering
   it by a decode step at the last prompt position first passes the loop's own checks.
   */
  ghost function RefTurn(m: Model, env: Env, limit: nat, prompt: seq<Token>, maxTokens: int, rng: int, fromPrefill: bool): Turn
    requires |prompt| > 0
  {
    var n := |prompt|;
    if fromPrefill then Autoregress(m, env, limit, prompt, [], rng, [], maxTokens, false)
    else if maxTokens <= 0 || env.stop([]) || n - 1 >= limit then Turn([], prompt, [], prompt[n - 1], rng, 0)
    else if !env.guard(n - 1) then Turn([], prompt, [], prompt[n - 1], rng, 1)
    else Autoregress(m, env, limit, prompt, [], rng, [], maxTokens, true)
  }

  // ---- Properties of the reference turn ----

  /**
   The committed tokens are the prompt and all deliveries but the last: the last delivered token is
   never recorded. They fit the context when the prompt does.
   */
  lemma {:induction false} CommittedTokens(m: Model, env: Env, limit: nat, ts: seq<Token>, recent: seq<Token>, rng: int,
                                           delivered: seq<Token>, left: int, step: bool)
    requires 0 < |ts| <= limit
    ensures var t := Autoregress(m, env, limit, ts, recent, rng, delivered, left, step);
            && delivered < t.delivered
            && t.committed == ts + t.delivered[|delivered|..|t.delivered| - 1]
            && |t.committed| <= limit
            && |t.delivered| <= |delivered| + Max(1, left)
    decreases Max(0, left)
  {
    hide Next;
    var o := Next(m, env, ts, recent, rng, step);
    var del := delivered + [o.token];
    var t := Autoregress(m, env, limit, ts, recent, rng, delivered, left, step);
    if o.token == m.eos || left - 1 <= 0 || env.stop(del) || |ts| >= limit || !env.guard(|ts|) {
      assert t == Continue(m, env, limit, ts, o, del, left - 1);
      assert t.delivered == del && t.committed == ts;
      assert ts + del[|delivered|..|del| - 1] == ts;
    } else {
      assert t == Autoregress(m, env, limit, ts + [o.token], o.recent, o.rng, del, left - 1, true);
      CommittedTokens(m, env, limit, ts + [o.token], o.recent, o.rng, del, left - 1, true);
      var k := |t.delivered| - 1;
      assert t.delivered[|delivered|] == o.token;
      assert [o.token] + t.delivered[|del|..k] == t.delivered[|delivered|..k];
    }
  }

  function LastOf(s: seq<Token>): seq<Token> {
    if |s| > RECENT_WINDOW then s[|s| - RECENT_WINDOW..] else s
  }

  /**
   The recent-token window is the last 64 deliveries; an eos that stands for a failed step is not in it.
   */
  ghost predicate WindowIs(m: Model, env: Env, t: Turn) {
    || t.recent == LastOf(t.delivered)
    || (t.delivered != [] && t.delivered[|t.delivered| - 1] == m.eos && 0 < |t.committed|
        && !env.stepLogits(|t.committed| - 1) && t.recent == LastOf(t.delivered[..|t.delivered| - 1]))
  }

  lemma {:induction false} RecentWindow(m: Model, env: Env, limit: nat, ts: seq<Token>, rng: int,
                                        delivered: seq<Token>, left: int, step: bool)
    requires |ts| > 0
    ensures WindowIs(m, env, Autoregress(m, env, limit, ts, LastOf(delivered), rng, delivered, left, step))
    decreases Max(0, left)
  {
    var recent := LastOf(delivered);
    var o := Next(m, env, ts, recent, rng, step);
    var del := delivered + [o.token];
    if step && !env.stepLogits(|ts| - 1) {
      assert del[..|del| - 1] == delivered;
    } else {
      assert Window(recent, o.token) == LastOf(del);
      if !(o.token == m.eos || left - 1 <= 0 || env.stop(del) || |ts| >= limit || !env.guard(|ts|)) {
        RecentWindow(m, env, limit, ts + [o.token], o.rng, del, left - 1, true);
      }
    }
  }

  // ---- The decode loop, seen from its head ----

  function LastDelivered(t: Turn): Token
    requires t.delivered != []
  {
    t.delivered[|t.delivered| - 1]
  }

  /**
   `want` is what the turn still has to become. Before any delivery the loop stands over the last
   prompt position; afterwards a token is delivered but not committed and pos is the next position.
   */
  ghost predicate AtLoop(m: Model, env: Env, limit: nat, want: Turn, now: Turn, pos: nat, left: int) {
    && now.oomStops == 0 && 0 < |now.committed| <= limit
    && if now.delivered == [] then
         pos == |now.committed| - 1 && now.recent == [] && now.last == now.committed[pos]
         && want == RefTurn(m, env, limit, now.committed, left, now.rng, false)
       else
         var o := Outcome(LastDelivered(now), now.recent, now.last, now.rng);
         pos == |now.committed| && (o.token != m.eos ==> o.last == o.token)
         && want == Continue(m, env, limit, now.committed, o, now.delivered, left)
  }

  ghost predicate LoopEnds(m: Model, env: Env, limit: nat, now: Turn, pos: nat, left: int) {
    left <= 0 || env.stop(now.delivered) || pos >= limit || (now.delivered != [] && LastDelivered(now) == m.eos)
  }

  lemma LoopStart(m: Model, env: Env, limit: nat, prompt: seq<Token>, maxTokens: int, rng0: int, tok: Token, rng: int)
    requires 0 < |prompt| <= limit && (tok, rng) == Sampled(m, prompt, [], rng0)
    ensures AtLoop(m, env, limit, RefTurn(m, env, limit, prompt, maxTokens, rng0, true),
                   Turn([tok], prompt, Window([], tok), tok, rng, 0), |prompt|, maxTokens - 1)
  {
    assert [] + [tok] == [tok];
  }

  lemma LoopExit(m: Model, env: Env, limit: nat, want: Turn, now: Turn, pos: nat, left: int)
    requires AtLoop(m, env, limit, want, now, pos, left)
    requires LoopEnds(m, env, limit, now, pos, left) || !env.guard(pos)
    ensures want == if LoopEnds(m, env, limit, now, pos, left) then now else now.(oomStops := 1)
  {
  }

  lemma LoopStep(m: Model, env: Env, limit: nat, want: Turn, now: Turn, pos: nat, left: int, next: Turn, o: Outcome)
    requires AtLoop(m, env, limit, want, now, pos, left)
    requires !LoopEnds(m, env, limit, now, pos, left) && env.guard(pos)
    requires next.committed == if |now.committed| == pos then now.committed + [now.last] else now.committed
    requires o == Next(m, env, next.committed, now.recent, now.rng, true)
    requires next == Turn(now.delivered + [o.token], next.committed, o.recent, o.last, o.rng, 0)
    ensures AtLoop(m, env, limit, want, next, pos + 1, left - 1)
  {
    assert want == Autoregress(m, env, limit, next.committed, now.recent, now.rng, now.delivered, left, true);
  }

  /** Whole-turn form: what a turn commits, delivers and leaves in the window. */
  lemma TurnShape(m: Model, env: Env, limit: nat, prompt: seq<Token>, maxTokens: int, rng: int, fromPrefill: bool)
    requires 0 < |prompt| <= limit
    ensures var t := RefTurn(m, env, limit, prompt, maxTokens, rng, fromPrefill);
            && WindowIs(m, env, t) && |t.committed| <= limit
            && prompt <= t.committed
            && (t.delivered == [] ==> t.committed == prompt)
            && (t.delivered != [] ==> t.committed == prompt + t.delivered[..|t.delivered| - 1])
            && (fromPrefill ==> 1 <= |t.delivered| <= Max(1, maxTokens))
            && (!fromPrefill ==> |t.delivered| <= Max(0, maxTokens))
  {
    hide Autoregress;
    AutoregressShape(m, env, limit, prompt, maxTokens, rng, !fromPrefill);
  }

  lemma AutoregressShape(m: Model, env: Env, limit: nat, prompt: seq<Token>, maxTokens: int, rng: int, step: bool)
    requires 0 < |prompt| <= limit
    ensures var t := Autoregress(m, env, limit, prompt, [], rng, [], maxTokens, step);
            && t.delivered != [] && WindowIs(m, env, t) && |t.committed| <= limit
            && t.committed == prompt + t.delivered[..|t.delivered| - 1]
            && |t.delivered| <= Max(1, maxTokens)
  {
    var t := Autoregress(m, env, limit, prompt, [], rng, [], maxTokens, step);
    hide Autoregress, WindowIs;
    CommittedTokens(m, env, limit, prompt, [], rng, [], maxTokens, step);
    RecentWindow(m, env, limit, prompt, rng, [], maxTokens, step);
    assert t.delivered[0..|t.delivered| - 1] == t.delivered[..|t.delivered| - 1];
  }

  /** A turn that delivers one token from the prefill state has it in its window. */
  lemma FirstInWindow(m: Model, env: Env, limit: nat, prompt: seq<Token>, maxTokens: int, rng: int)
    requires 0 < |prompt| <= limit
    ensures var t := Autoregress(m, env, limit, prompt, [], rng, [], maxTokens, false);
            |t.delivered| == 1 ==> t.recent != []
  {
    var o := Next(m, env, prompt, [], rng, false);
    var del := [] + [o.token];
    if !(o.token == m.eos || maxTokens - 1 <= 0 || env.stop(del) || |prompt| >= limit || !env.guard(|prompt|)) {
      CommittedTokens(m, env, limit, prompt + [o.token], o.recent, o.rng, del, maxTokens - 1, true);
    }
  }

  /**
   Recovering the first token by a decode step gives the same turn as sampling it from the prefill
   state exactly when the loop lets that first step happen and the step gets its logits: at least one
   token was asked for, nobody has asked to stop, and the memory guard allows position N - 1.
   */
  lemma FallbackEqualsPathA(m: Model, env: Env, limit: nat, prompt: seq<Token>, maxTokens: int, rng: int)
    requires 0 < |prompt| <= limit
    ensures RefTurn(m, env, limit, prompt, maxTokens, rng, false) == RefTurn(m, env, limit, prompt, maxTokens, rng, true)
       <==> FirstStepHappens(env, |prompt|, maxTokens)
  {
    TurnShape(m, env, limit, prompt, maxTokens, rng, true);
    TurnShape(m, env, limit, prompt, maxTokens, rng, false);
    FirstInWindow(m, env, limit, prompt, maxTokens, rng);
    FirstStep(m, env, limit, prompt, maxTokens, rng);
  }

  predicate FirstStepHappens(env: Env, n: nat, maxTokens: int)
    requires n > 0
  {
    maxTokens >= 1 && !env.stop([]) && env.guard(n - 1) && env.stepLogits(n - 1)
  }

  /** With its logits the first step is the sample from the prefill state; without them it delivers one eos. */
  lemma FirstStep(m: Model, env: Env, limit: nat, prompt: seq<Token>, maxTokens: int, rng: int)
    requires 0 < |prompt| <= limit
    ensures var byStep := Autoregress(m, env, limit, prompt, [], rng, [], maxTokens, true);
            if env.stepLogits(|prompt| - 1) then byStep == Autoregress(m, env, limit, prompt, [], rng, [], maxTokens, false)
            else |byStep.delivered| == 1 && byStep.recent == []
  {
  }

  /** A token budget of zero is exceeded exactly when the first token comes from the prefill state. */
  lemma BudgetExceeded(m: Model, env: Env, limit: nat, prompt: seq<Token>, maxTokens: int, rng: int, fromPrefill: bool)
    requires 0 < |prompt| <= limit
    ensures |RefTurn(m, env, limit, prompt, maxTokens, rng, fromPrefill).delivered| > Max(0, maxTokens)
       <==> fromPrefill && maxTokens <= 0
  {
    TurnShape(m, env, limit, prompt, maxTokens, rng, fromPrefill);
  }

  // ---- The law of a turn, on what it delivers ----

  /** Delivery i is the sample from the final hidden state of everything before it. */
  ghost predicate SampledAt(m: Model, prompt: seq<Token>, d: seq<Token>, i: nat, r: int, r': int)
    requires |prompt| > 0 && i < |d|
  {
    var recent := if i > 64 then d[i - 64..i] else d[..i];
    (d[i], r') == m.sample(m.logits(Hidden(m, Cold, prompt + d[..i], m.nLayers, |prompt| + i - 1)), recent, r)
  }

  /** The turn may go on after delivery i. */
  predicate GoesOn(m: Model, env: Env, limit: nat, n: nat, maxTokens: int, d: seq<Token>, i: nat)
    requires i < |d|
  {
    d[i] != m.eos && i + 1 < maxTokens && !env.stop(d[..i + 1]) && n + i < limit && env.guard(n + i)
  }

  /** Nothing but the memory guard keeps the turn from going on after delivery i. */
  predicate OnlyGuarded(m: Model, env: Env, limit: nat, n: nat, maxTokens: int, d: seq<Token>, i: nat)
    requires i < |d|
  {
    d[i] != m.eos && i + 1 < maxTokens && !env.stop(d[..i + 1]) && n + i < limit && !env.guard(n + i)
  }

  /** Delivery i gets its logits: from the prefill state, or from a decode step at position n + i - 1. */
  predicate HasLogits(env: Env, n: nat, fromPrefill: bool, i: nat)
    requires n > 0
  {
    (i == 0 && fromPrefill) || env.stepLogits(n + i - 1)
  }

  /**
   What a turn is, by its deliveries alone; rs are the random states it goes through. Every delivery
   is a sample from the cold hidden state of the prompt and the deliveries before it, except a last
   eos that stands for a step without logits, and the turn goes on exactly as long as it may.
   */
  ghost predicate TurnLaw(m: Model, env: Env, limit: nat, prompt: seq<Token>, maxTokens: int, rng: int,
                          fromPrefill: bool, t: Turn, rs: seq<int>)
    requires |prompt| > 0
  {
    var d, n, k := t.delivered, |prompt|, |rs| - 1;
    && 0 <= k <= |d| <= k + 1 && rs[0] == rng && rs[k] == t.rng
    && (forall i | 0 <= i < k :: HasLogits(env, n, fromPrefill, i) && SampledAt(m, prompt, d, i, rs[i], rs[i + 1]))
    && (k < |d| ==> d[k] == m.eos && !HasLogits(env, n, fromPrefill, k))
    && (forall i | 0 <= i < |d| - 1 :: GoesOn(m, env, limit, n, maxTokens, d, i))
    && (|d| > 0 ==> !GoesOn(m, env, limit, n, maxTokens, d, |d| - 1))
    && (d == [] <==> !fromPrefill && (maxTokens <= 0 || env.stop([]) || n - 1 >= limit || !env.guard(n - 1)))
    && t.oomStops == (if d == [] then (if maxTokens <= 0 || env.stop([]) || n - 1 >= limit then 0 else 1)
                      else if OnlyGuarded(m, env, limit, n, maxTokens, d, |d| - 1) then 1 else 0)
    && t.committed == (if d == [] then prompt else prompt + d[..|d| - 1])
    && t.recent == (if k > 64 then d[k - 64..k] else d[..k])
    && t.last == (if k == |d| && k > 0 then d[k - 1] else t.committed[|t.committed| - 1])
  }

  /** The deliveries so far, all sampled, after each of which the turn went on. */
  ghost predicate SoFar(m: Model, env: Env, limit: nat, prompt: seq<Token>, maxTokens: int, rng: int,
                        fromPrefill: bool, d: seq<Token>, rs: seq<int>): (ok: bool)
    requires |prompt| > 0
    ensures ok ==> |rs| == |d| + 1
  {
    && |rs| == |d| + 1 && rs[0] == rng
    && (forall i | 0 <= i < |d| :: HasLogits(env, |prompt|, fromPrefill, i) && SampledAt(m, prompt, d, i, rs[i], rs[i + 1]))
    && (forall i | 0 <= i < |d| :: GoesOn(m, env, limit, |prompt|, maxTokens, d, i))
  }

  lemma SampledLonger(m: Model, prompt: seq<Token>, d: seq<Token>, e: seq<Token>, i: nat, r: int, r': int)
    requires |prompt| > 0 && i < |d| && SampledAt(m, prompt, d, i, r, r')
    ensures SampledAt(m, prompt, d + e, i, r, r')
  {
    assert (d + e)[..i] == d[..i];
    if i > 64 {
      assert (d + e)[i - 64..i] == d[i - 64..i];
    }
  }

  lemma GoesOnLonger(m: Model, env: Env, limit: nat, n: nat, maxTokens: int, d: seq<Token>, e: seq<Token>, i: nat)
    requires i < |d|
    ensures GoesOn(m, env, limit, n, maxTokens, d + e, i) <==> GoesOn(m, env, limit, n, maxTokens, d, i)
  {
    assert (d + e)[..i + 1] == d[..i + 1];
  }

  lemma SampleIsNext(m: Model, env: Env, prompt: seq<Token>, d: seq<Token>, r: int, fromPrefill: bool)
    requires |prompt| > 0
    ensures var o := Next(m, env, prompt + d, LastOf(d), r, !(d == [] && fromPrefill));
            if HasLogits(env, |prompt|, fromPrefill, |d|)
            then SampledAt(m, prompt, d + [o.token], |d|, r, o.rng) && o.recent == LastOf(d + [o.token]) && o.last == o.token
            else o == Outcome(m.eos, LastOf(d), (prompt + d)[|prompt + d| - 1], r)
  {
    var o := Next(m, env, prompt + d, LastOf(d), r, !(d == [] && fromPrefill));
    assert (d + [o.token])[..|d|] == d;
    if |d| > 64 {
      assert (d + [o.token])[|d| - 64..|d|] == d[|d| - 64..];
    }
    assert Window(LastOf(d), o.token) == LastOf(d + [o.token]);
  }

  /** One more sampled delivery after which the turn goes on. */
  lemma SoFarGrows(m: Model, env: Env, limit: nat, prompt: seq<Token>, maxTokens: int, rng: int, fromPrefill: bool,
                   d: seq<Token>, rs: seq<int>, tok: Token, r: int)
    requires |prompt| > 0 && SoFar(m, env, limit, prompt, maxTokens, rng, fromPrefill, d, rs)
    requires HasLogits(env, |prompt|, fromPrefill, |d|) && SampledAt(m, prompt, d + [tok], |d|, rs[|d|], r)
    ensures forall i | 0 <= i < |d| + 1 :: HasLogits(env, |prompt|, fromPrefill, i)
              && SampledAt(m, prompt, d + [tok], i, (rs + [r])[i], (rs + [r])[i + 1])
    ensures GoesOn(m, env, limit, |prompt|, maxTokens, d + [tok], |d|) ==>
              SoFar(m, env, limit, prompt, maxTokens, rng, fromPrefill, d + [tok], rs + [r])
  {
    hide SampledAt, GoesOn, HasLogits;
    forall i | 0 <= i < |d| ensures SampledAt(m, prompt, d + [tok], i, rs[i], rs[i + 1])
                                 && GoesOn(m, env, limit, |prompt|, maxTokens, d + [tok], i) {
      SampledLonger(m, prompt, d, [tok], i, rs[i], rs[i + 1]);
      GoesOnLonger(m, env, limit, |prompt|, maxTokens, d, [tok], i);
    }
  }

  /** A turn that ends after one more sampled delivery. */
  lemma EndsSampled(m: Model, env: Env, limit: nat, prompt: seq<Token>, maxTokens: int, rng: int, fromPrefill: bool,
                    d: seq<Token>, rs: seq<int>, tok: Token, r: int, oom: nat)
    requires |prompt| > 0 && SoFar(m, env, limit, prompt, maxTokens, rng, fromPrefill, d, rs)
    requires HasLogits(env, |prompt|, fromPrefill, |d|) && SampledAt(m, prompt, d + [tok], |d|, rs[|d|], r)
    requires !GoesOn(m, env, limit, |prompt|, maxTokens, d + [tok], |d|)
    requires oom == if OnlyGuarded(m, env, limit, |prompt|, maxTokens, d + [tok], |d|) then 1 else 0
    requires Starts(env, limit, |prompt|, maxTokens, fromPrefill)
    ensures TurnLaw(m, env, limit, prompt, maxTokens, rng, fromPrefill,
                    Turn(d + [tok], prompt + d, LastOf(d + [tok]), tok, r, oom), rs + [r])
  {
    hide SampledAt, GoesOn, HasLogits, OnlyGuarded;
    SoFarGrows(m, env, limit, prompt, maxTokens, rng, fromPrefill, d, rs, tok, r);
    forall i | 0 <= i < |d| ensures GoesOn(m, env, limit, |prompt|, maxTokens, d + [tok], i) {
      GoesOnLonger(m, env, limit, |prompt|, maxTokens, d, [tok], i);
    }
    assert (d + [tok])[..|d|] == d && (d + [tok])[..|d| + 1] == d + [tok];
    assert |d| + 1 > 64 ==> (d + [tok])[|d| + 1 - 64..|d| + 1] == LastOf(d + [tok]);
  }

  /** A turn that ends with an eos for a step without logits. */
  lemma EndsUnsampled(m: Model, env: Env, limit: nat, prompt: seq<Token>, maxTokens: int, rng: int, fromPrefill: bool,
                      d: seq<Token>, rs: seq<int>)
    requires |prompt| > 0 && SoFar(m, env, limit, prompt, maxTokens, rng, fromPrefill, d, rs)
    requires !HasLogits(env, |prompt|, fromPrefill, |d|)
    requires Starts(env, limit, |prompt|, maxTokens, fromPrefill)
    ensures TurnLaw(m, env, limit, prompt, maxTokens, rng, fromPrefill,
                    Turn(d + [m.eos], prompt + d, LastOf(d), (prompt + d)[|prompt + d| - 1], rs[|d|], 0), rs)
  {
    hide SampledAt, HasLogits;
    forall i | 0 <= i < |d| ensures GoesOn(m, env, limit, |prompt|, maxTokens, d + [m.eos], i)
                                 && SampledAt(m, prompt, d + [m.eos], i, rs[i], rs[i + 1]) {
      GoesOnLonger(m, env, limit, |prompt|, maxTokens, d, [m.eos], i);
      SampledLonger(m, prompt, d, [m.eos], i, rs[i], rs[i + 1]);
    }
    assert (d + [m.eos])[..|d|] == d;
    assert |d| > 64 ==> (d + [m.eos])[|d| - 64..|d|] == LastOf(d);
  }

  /** The first token is asked for: from the prefill state, or by a step the loop lets happen. */
  predicate Starts(env: Env, limit: nat, n: nat, maxTokens: int, fromPrefill: bool)
    requires n > 0
  {
    fromPrefill || !(maxTokens <= 0 || env.stop([]) || n - 1 >= limit || !env.guard(n - 1))
  }

  lemma {:induction false} AutoregressLaw(m: Model, env: Env, limit: nat, prompt: seq<Token>, maxTokens: int, rng: int,
                                          fromPrefill: bool, d: seq<Token>, rs: seq<int>) returns (all: seq<int>)
    requires |prompt| > 0 && SoFar(m, env, limit, prompt, maxTokens, rng, fromPrefill, d, rs)
    requires Starts(env, limit, |prompt|, maxTokens, fromPrefill)
    ensures TurnLaw(m, env, limit, prompt, maxTokens, rng, fromPrefill,
                    Autoregress(m, env, limit, prompt + d, LastOf(d), rs[|d|], d, maxTokens - |d|, !(d == [] && fromPrefill)), all)
    decreases Max(0, maxTokens - |d|)
  {
    hide SampledAt, HasLogits, SoFar, Starts, TurnLaw, Next, LastOf;
    var o := Next(m, env, prompt + d, LastOf(d), rs[|d|], !(d == [] && fromPrefill));
    SampleIsNext(m, env, prompt, d, rs[|d|], fromPrefill);
    all := rs;
    var t := Autoregress(m, env, limit, prompt + d, LastOf(d), rs[|d|], d, maxTokens - |d|, !(d == [] && fromPrefill));
    assert t == Continue(m, env, limit, prompt + d, o, d + [o.token], maxTokens - |d| - 1);
    assert (d + [o.token])[..|d| + 1] == d + [o.token];
    if !HasLogits(env, |prompt|, fromPrefill, |d|) {
      EndsUnsampled(m, env, limit, prompt, maxTokens, rng, fromPrefill, d, rs);
    } else {
      all := rs + [o.rng];
      if GoesOn(m, env, limit, |prompt|, maxTokens, d + [o.token], |d|) {
        SoFarGrows(m, env, limit, prompt, maxTokens, rng, fromPrefill, d, rs, o.token, o.rng);
        assert prompt + (d + [o.token]) == prompt + d + [o.token];
        assert t == Autoregress(m, env, limit, prompt + (d + [o.token]), LastOf(d + [o.token]), o.rng, d + [o.token],
                                maxTokens - |d + [o.token]|, true);
        all := AutoregressLaw(m, env, limit, prompt, maxTokens, rng, fromPrefill, d + [o.token], rs + [o.rng]);
      } else {
        EndsSampled(m, env, limit, prompt, maxTokens, rng, fromPrefill, d, rs, o.token, o.rng,
                    if OnlyGuarded(m, env, limit, |prompt|, maxTokens, d + [o.token], |d|) then 1 else 0);
      }
    }
  }

  /** The reference turn obeys the law ... */
  lemma ReferenceObeysLaw(m: Model, env: Env, limit: nat, prompt: seq<Token>, maxTokens: int, rng: int, fromPrefill: bool)
    returns (rs: seq<int>)
    requires |prompt| > 0
    ensures TurnLaw(m, env, limit, prompt, maxTokens, rng, fromPrefill,
                    RefTurn(m, env, limit, prompt, maxTokens, rng, fromPrefill), rs)
  {
    rs := [rng];
    if Starts(env, limit, |prompt|, maxTokens, fromPrefill) {
      hide TurnLaw;
      assert prompt + [] == prompt && LastOf([]) == [];
      assert SoFar(m, env, limit, prompt, maxTokens, rng, fromPrefill, [], rs);
      rs := AutoregressLaw(m, env, limit, prompt, maxTokens, rng, fromPrefill, [], rs);
    }
  }

  /** Two turns that obey the law agree on their first i deliveries and random states. */
  lemma {:induction false} LawsAgree(m: Model, env: Env, limit: nat, prompt: seq<Token>, maxTokens: int, rng: int, fromPrefill: bool,
                                     a: Turn, ra: seq<int>, b: Turn, rb: seq<int>, i: nat)
    requires |prompt| > 0 && i <= |a.delivered| && i <= |b.delivered|
    requires TurnLaw(m, env, limit, prompt, maxTokens, rng, fromPrefill, a, ra)
    requires TurnLaw(m, env, limit, prompt, maxTokens, rng, fromPrefill, b, rb)
    ensures a.delivered[..i] == b.delivered[..i]
    ensures i < |ra| <==> i < |rb|
    ensures i < |ra| ==> ra[i] == rb[i]
  {
    hide TurnLaw, HasLogits, SampledAt;
    LawBounds(m, env, limit, prompt, maxTokens, rng, fromPrefill, a, ra);
    LawBounds(m, env, limit, prompt, maxTokens, rng, fromPrefill, b, rb);
    if i > 0 {
      LawsAgree(m, env, limit, prompt, maxTokens, rng, fromPrefill, a, ra, b, rb, i - 1);
      LawAt(m, env, limit, prompt, maxTokens, rng, fromPrefill, a, ra, i - 1);
      LawAt(m, env, limit, prompt, maxTokens, rng, fromPrefill, b, rb, i - 1);
      var j := i - 1;
      SameSample(m, prompt, a.delivered, b.delivered, j);
      assert a.delivered[..i] == a.delivered[..j] + [a.delivered[j]];
      assert b.delivered[..i] == b.delivered[..j] + [b.delivered[j]];
    }
  }

  lemma LawBounds(m: Model, env: Env, limit: nat, prompt: seq<Token>, maxTokens: int, rng: int, fromPrefill: bool,
                  t: Turn, rs: seq<int>)
    requires |prompt| > 0
    requires TurnLaw(m, env, limit, prompt, maxTokens, rng, fromPrefill, t, rs)
    ensures 1 <= |rs| <= |t.delivered| + 1 <= |rs| + 1 && rs[0] == rng && rs[|rs| - 1] == t.rng
    ensures t.delivered == [] <==> !Starts(env, limit, |prompt|, maxTokens, fromPrefill)
    ensures forall i | 0 <= i < |t.delivered| ::
              (GoesOn(m, env, limit, |prompt|, maxTokens, t.delivered, i) <==> i < |t.delivered| - 1)
  {
    hide SampledAt, GoesOn, OnlyGuarded, HasLogits;
  }

  /** Deliveries, their number of samples and the final random state decide the other fields. */
  lemma LawFields(m: Model, env: Env, limit: nat, prompt: seq<Token>, maxTokens: int, rng: int, fromPrefill: bool,
                  a: Turn, ra: seq<int>, b: Turn, rb: seq<int>)
    requires |prompt| > 0 && a.delivered == b.delivered && |ra| == |rb| && a.rng == b.rng
    requires TurnLaw(m, env, limit, prompt, maxTokens, rng, fromPrefill, a, ra)
    requires TurnLaw(m, env, limit, prompt, maxTokens, rng, fromPrefill, b, rb)
    ensures a == b
  {
    hide SampledAt, GoesOn, OnlyGuarded, HasLogits;
  }

  /** What the law says of delivery j. */
  lemma LawAt(m: Model, env: Env, limit: nat, prompt: seq<Token>, maxTokens: int, rng: int, fromPrefill: bool,
              t: Turn, rs: seq<int>, j: nat)
    requires |prompt| > 0 && j < |t.delivered|
    requires TurnLaw(m, env, limit, prompt, maxTokens, rng, fromPrefill, t, rs)
    ensures j + 1 < |rs| <==> HasLogits(env, |prompt|, fromPrefill, j)
    ensures if j + 1 < |rs| then SampledAt(m, prompt, t.delivered, j, rs[j], rs[j + 1]) else t.delivered[j] == m.eos && j + 1 == |rs|
  {
    hide SampledAt, GoesOn, OnlyGuarded, HasLogits;
  }

  lemma SameSample(m: Model, prompt: seq<Token>, a: seq<Token>, b: seq<Token>, j: nat)
    requires |prompt| > 0 && j < |a| && j < |b| && a[..j] == b[..j]
    ensures forall r: int, x: int, y: int | SampledAt(m, prompt, a, j, r, x) && SampledAt(m, prompt, b, j, r, y) :: a[j] == b[j] && x == y
  {
    SameWindow(a, b, j);
  }

  lemma SameWindow(a: seq<Token>, b: seq<Token>, j: nat)
    requires j < |a| && j < |b| && a[..j] == b[..j]
    ensures j > 64 ==> a[j - 64..j] == b[j - 64..j]
  {
    if j > 64 {
      assert a[j - 64..j] == a[..j][j - 64..] && b[j - 64..j] == b[..j][j - 64..];
    }
  }

  /** ... and is the only turn that does: the law says everything about a turn. */
  lemma LawIsUnique(m: Model, env: Env, limit: nat, prompt: seq<Token>, maxTokens: int, rng: int, fromPrefill: bool,
                    a: Turn, ra: seq<int>, b: Turn, rb: seq<int>)
    requires |prompt| > 0
    requires TurnLaw(m, env, limit, prompt, maxTokens, rng, fromPrefill, a, ra)
    requires TurnLaw(m, env, limit, prompt, maxTokens, rng, fromPrefill, b, rb)
    ensures a == b
  {
    hide TurnLaw, GoesOn, Starts;
    var x, y, n := |a.delivered|, |b.delivered|, |prompt|;
    var k := Min(x, y);
    LawBounds(m, env, limit, prompt, maxTokens, rng, fromPrefill, a, ra);
    LawBounds(m, env, limit, prompt, maxTokens, rng, fromPrefill, b, rb);
    LawsAgree(m, env, limit, prompt, maxTokens, rng, fromPrefill, a, ra, b, rb, k);
    if k > 0 {
      LawsAgree(m, env, limit, prompt, maxTokens, rng, fromPrefill, a, ra, b, rb, k - 1);
      if x <= y {
        GoesOnSame(m, env, limit, n, maxTokens, a.delivered, b.delivered, k - 1);
      } else {
        GoesOnSame(m, env, limit, n, maxTokens, b.delivered, a.delivered, k - 1);
      }
    }
    assert x == y;
    assert a.delivered[..k] == a.delivered && b.delivered[..k] == b.delivered;
    LawFields(m, env, limit, prompt, maxTokens, rng, fromPrefill, a, ra, b, rb);
  }

  lemma GoesOnSame(m: Model, env: Env, limit: nat, n: nat, maxTokens: int, a: seq<Token>, b: seq<Token>, i: nat)
    requires i < |a| <= |b| && a[..i + 1] == b[..i + 1]
    ensures GoesOn(m, env, limit, n, maxTokens, a, i) <==> GoesOn(m, env, limit, n, maxTokens, b, i)
  {
    assert a[i] == a[..i + 1][i] == b[..i + 1][i] == b[i];
  }

  /** A turn is the reference turn exactly when it obeys the law. */
  lemma LawIsReference(m: Model, env: Env, limit: nat, prompt: seq<Token>, maxTokens: int, rng: int, fromPrefill: bool, t: Turn)
    requires |prompt| > 0
    ensures t == RefTurn(m, env, limit, prompt, maxTokens, rng, fromPrefill)
       <==> exists rs: seq<int> :: TurnLaw(m, env, limit, prompt, maxTokens, rng, fromPrefill, t, rs)
  {
    hide TurnLaw, RefTurn;
    var ref := RefTurn(m, env, limit, prompt, maxTokens, rng, fromPrefill);
    var rs := ReferenceObeysLaw(m, env, limit, prompt, maxTokens, rng, fromPrefill);
    if rt: seq<int> :| TurnLaw(m, env, limit, prompt, maxTokens, rng, fromPrefill, t, rt) {
      LawIsUnique(m, env, limit, prompt, maxTokens, rng, fromPrefill, t, rt, ref, rs);
    }
  }
}
