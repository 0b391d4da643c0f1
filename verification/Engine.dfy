/**
 The generation loop over the pool and the disk: hydrate, prefill, sample, decode, save.

 `Generate` is proved to deliver the reference turn whatever the pool held before, whatever trusted
 cache file it found and whichever prefill schedule it took, and to leave every conversation's file
 trusted in every disk state it passes through.
 */
module Engine {
  import opened Common
  import opened KvPool
  import opened KvPack
  import opened KvCache
  import opened KvFile
  import opened Transformer
  import opened Schedule
  import opened Turns
  import opened Conversations

  const MIN_TOKENS_TO_SAVE := 4

  datatype Error = PromptTooManyBytes(bytes: nat) | PromptTooLong(tokens: nat)

  datatype Params = Params(maxTokens: int, conversationId: string)

  /** The tokens a request stands for: an empty encoding is replaced by the bos token. */
  function PromptTokens(encoded: seq<Token>, bos: Token): (prompt: seq<Token>)
    ensures |prompt| > 0 && encoded <= prompt && |prompt| <= |encoded| + 1
    ensures encoded == [] <==> |prompt| == |encoded| + 1
    ensures encoded == [] ==> prompt == [bos]
  {
    if encoded == [] then [bos] else encoded
  }

  datatype Stats = Stats(turn: Turn, hydrated: nat, fromPrefill: bool, saved: bool)

  /** What a request must produce, whatever was in the pool and on the disk. */
  ghost predicate Delivers(s: Setup, env: Env, prompt: seq<Token>, maxTokens: int, rng: int, st: Stats) {
    && 0 < |prompt| && st.hydrated <= |prompt|
    && st.fromPrefill == (st.hydrated < |prompt| && env.logitsOk)
    && st.turn == RefTurn(s.m, env, s.cfg.maxContext, prompt, maxTokens, rng, st.fromPrefill)
  }

  /** All disk states recorded since `from` are trusted. */
  ghost predicate TrustedSince(s: Setup, history: seq<Disk>, from: nat) {
    forall i | from <= i < |history| :: TrustedDisk(s, history[i])
  }

  /** Positions [0, |ts|) of the pool hold, at every layer, what a cold prefill of ts computes. */
  ghost predicate Committed(m: Model, pool: seq<byte>, ctx: nat, ts: seq<Token>) {
    forall slot: Slot | InShape(m.nLayers, |ts|, slot) ::
      At(pool, ctx, m.width, slot) == KvRow(m, Cold, ts, slot.layer, slot.isValue, slot.pos)
  }

  /** A pool that has committed ts[..n] is a sound starting point for positions n and up. */
  lemma CommittedExtends(m: Model, pool: seq<byte>, ctx: nat, ts: seq<Token>, n: nat)
    requires n <= |ts| && Committed(m, pool, ctx, ts[..n])
    ensures Extends(m, Prior(pool, ctx, m.width, n), Cold, ts)
  {
    var pr := Prior(pool, ctx, m.width, n);
    forall l: nat, v: bool, p: nat | l < m.nLayers && p < n && p < |ts|
      ensures pr.Row(Slot(l, v, p)) == KvRow(m, Cold, ts, l, v, p)
    {
      assert InShape(m.nLayers, |ts[..n]|, Slot(l, v, p));
      assert ts[..n][..n] == ts[..n];
      Causal(m, Cold, ts[..n], ts, l, n);
    }
  }

  /** Rows that agree with the reference started from `n` committed tokens are cold rows. */
  lemma WarmRowsAreCold(m: Model, pr: Prior, ts: seq<Token>, pool: seq<byte>)
    requires Extends(m, pr, Cold, ts) && pr.width == m.width && |ts| <= pr.ctx
    requires forall slot: Slot | InShape(m.nLayers, |ts|, slot) :: Expected(m, pr, ts, pool, slot, true)
    ensures Committed(m, pool, pr.ctx, ts)
  {
    forall slot: Slot | InShape(m.nLayers, |ts|, slot)
      ensures At(pool, pr.ctx, m.width, slot) == KvRow(m, Cold, ts, slot.layer, slot.isValue, slot.pos)
    {
      assert Expected(m, pr, ts, pool, slot, true);
      WarmIsCold(m, pr, Cold, ts, slot.layer);
    }
  }

  /** Warm equals cold: prefilling [n, |ts|) over n committed positions gives the cold prefill of ts. */
  lemma WarmEqualsCold(m: Model, before: seq<byte>, ctx: nat, ts: seq<Token>, n: nat, after: seq<byte>)
    requires n <= |ts| <= ctx && Committed(m, before, ctx, ts[..n])
    requires Prefilled(m, Prior(before, ctx, m.width, n), ts, after)
    ensures Committed(m, after, ctx, ts)
    ensures n < |ts| ==> (Hidden(m, Prior(before, ctx, m.width, n), ts, m.nLayers, |ts| - 1)
                            == Hidden(m, Cold, ts, m.nLayers, |ts| - 1))
  {
    var pr := Prior(before, ctx, m.width, n);
    CommittedExtends(m, before, ctx, ts, n);
    PrefilledIsCold(m, pr, ts, after);
    if n < |ts| {
      WarmIsCold(m, pr, Cold, ts, m.nLayers);
    }
  }

  lemma PrefilledIsCold(m: Model, pr: Prior, ts: seq<Token>, after: seq<byte>)
    requires Extends(m, pr, Cold, ts) && pr.width == m.width && |ts| <= pr.ctx && Prefilled(m, pr, ts, after)
    ensures Committed(m, after, pr.ctx, ts)
  {
    forall slot: Slot | InShape(m.nLayers, |ts|, slot) ensures Expected(m, pr, ts, after, slot, true) {
      assert InShape(m.nLayers, pr.ctx, slot) && Complete.Done(slot);
    }
    WarmRowsAreCold(m, pr, ts, after);
  }

  function LcpLength(a: seq<Token>, b: seq<Token>): (n: nat)
    ensures n <= |a| && n <= |b| && a[..n] == b[..n]
    ensures n < |a| && n < |b| ==> a[n] != b[n]
  {
    if a == [] || b == [] || a[0] != b[0] then 0
    else
      var n := LcpLength(a[1..], b[1..]);
      assert a[..n + 1] == [a[0]] + a[1..][..n] && b[..n + 1] == [b[0]] + b[1..][..n];
      n + 1
  }

  /** `matched` is the longest common prefix of the prompt and of the tokens in the conversation's file. */
  ghost predicate HydratedFrom(s: Setup, disk: Disk, id: string, prompt: seq<Token>, matched: nat) {
    s.PathOf(id) in disk && exists ts: seq<Token> :: FromSaved(s, disk[s.PathOf(id)].data, ts, prompt, matched)
  }

  ghost predicate FromSaved(s: Setup, f: seq<byte>, ts: seq<Token>, prompt: seq<Token>, matched: nat) {
    Peek(f).Some? && Parse(f, Peek(f).value.bodyBytes).Some?
    && Parse(f, Peek(f).value.bodyBytes).value.tokens == ts && matched == LcpLength(ts, prompt)
  }

  /** The longest common prefix of the tokens saved in file f and the prompt is restored. */
  ghost predicate Resumes(s: Setup, f: seq<byte>, prompt: seq<Token>, matched: nat) {
    exists ts: seq<Token> :: SavedBy(s, ts, f) && matched == LcpLength(ts, prompt)
  }

  /** A compatible file is there, and no read or device copy fails. */
  ghost predicate CanHydrate(s: Setup, fs: FileSystem, disk: Disk, id: string, prompt: seq<Token>, env: Env) {
    && IsConversation(id) && prompt != [] && s.PathOf(id) in disk
    && Peek(disk[s.PathOf(id)].data).Some? && Compatible(s, Peek(disk[s.PathOf(id)].data).value)
    && (forall i: nat :: fs.readSizes(i) >= HEADER_BYTES) && env.scatterCopies >= 4 * s.cfg.nLayers
  }

  /** The turn is worth saving, and no write, device copy or directory operation fails. */
  ghost predicate CanSave(s: Setup, fs: FileSystem, calls: nat, id: string, committed: seq<Token>, env: Env) {
    && IsConversation(id) && 4 <= |committed| <= s.cfg.maxContext
    && env.dirOk && env.gatherCopies >= 2 * s.cfg.nLayers
    && fs.openOk && fs.fsyncOk && fs.renameOk
    && fs.writeSizes(calls) >= HEADER_BYTES && (forall i: nat :: fs.writeSizes(i) > 0)
  }

  class Generator {
    const s: Setup
    const run: Runner
    const fs: FileSystem
    var lastToken: Token
    var recentTokens: seq<Token>
    var rng: int

    constructor (s: Setup, run: Runner, fs: FileSystem, rng: int)
      requires s.Valid() && run.Valid() && run.m == s.m && run.kv.cfg == s.cfg
      ensures Valid() && this.s == s && this.run == run && this.fs == fs && this.rng == rng
    {
      this.s, this.run, this.fs := s, run, fs;
      this.lastToken, this.recentTokens, this.rng := 0, [], rng;
    }

    ghost predicate Valid() {
      s.Valid() && run.Valid() && run.m == s.m && run.kv.cfg == s.cfg
    }

    ghost function Pool(): seq<byte>
      reads run.kv.gpuPool
    {
      run.kv.gpuPool[..]
    }

    /**
     Restores the longest common prefix of the saved conversation and the new prompt. Zero means
     cold prefill, whatever the attempt left in the pool.
     */
    method TryHydrateKv(prompt: seq<Token>, id: string, env: Env) returns (matched: nat)
      requires Valid() && TrustedDisk(s, fs.files)
      modifies fs`readCalls, run.kv, run.kv.gpuPool
      ensures matched <= |prompt|
      ensures Committed(s.m, Pool(), s.cfg.maxContext, prompt[..matched])
      ensures matched > 0 ==> HydratedFrom(s, fs.files, id, prompt, matched)
      ensures CanHydrate(s, fs, fs.files, id, prompt, env) ==> Resumes(s, fs.files[s.PathOf(id)].data, prompt, matched)
    {
      hide Parse, Peek, SavedBy, KvRow, Trusted;
      matched := 0;
      if id == "" || !ValidateConversationId(id) { return; }
      if prompt == [] { return; }
      var path := PathForConvId(s.dir, id);
      var peeked := PeekKvHeader(fs, path);
      if peeked.None? { return; }
      var hdr := peeked.value;
      if hdr.modelHash != s.fingerprint { return; }
      if hdr.nLayers != s.cfg.nLayers || hdr.nKvHeads != s.cfg.nKvHeads || hdr.headDim != s.cfg.headDim
         || hdr.maxContext != s.cfg.maxContext || hdr.kvTypeBytes != s.cfg.kvTypeBytes { return; }
      if hdr.usedTokens == 0 || hdr.usedTokens > s.cfg.maxContext { return; }
      assert IsConversation(id) && TrustedAt(s, fs.files, path);
      ghost var ts, body := TrustedLoad(s, fs.files[path].data, hdr.bodyBytes);
      var loaded := LoadKvFromFile(fs, path, hdr.bodyBytes);
      if loaded.None? { return; }
      var cached := loaded.value.tokens;
      if |cached| != hdr.usedTokens { return; }
      var n := MatchPrefix(cached, prompt);
      if n == 0 { return; }
      var ok := Restore(loaded.value.body, |cached|, n, env.scatterCopies, ts);
      if !ok { return; }
      assert ts[..n] == prompt[..n];
      assert FromSaved(s, fs.files[path].data, ts, prompt, n);
      matched := n;
    }

    method MatchPrefix(cached: seq<Token>, prompt: seq<Token>) returns (matched: nat)
      ensures matched == LcpLength(cached, prompt)
    {
      var maxMatch := Min(|cached|, |prompt|);
      matched := 0;
      while matched < maxMatch && cached[matched] == prompt[matched]
        invariant matched <= maxMatch
        invariant LcpLength(cached, prompt) == matched + LcpLength(cached[matched..], prompt[matched..])
      {
        assert cached[matched..][1..] == cached[matched + 1..] && prompt[matched..][1..] == prompt[matched + 1..];
        matched := matched + 1;
      }
    }

    /** Cuts the loaded body down to n tokens and scatters it over the pool. */
    method Restore(body: seq<byte>, used: nat, n: nat, copiesOk: nat, ghost ts: seq<Token>) returns (ok: bool)
      requires Valid() && 0 < n <= used == |ts| <= s.cfg.maxContext && ColdBody(s, ts, body)
      modifies run.kv, run.kv.gpuPool
      ensures ok ==> Committed(s.m, Pool(), s.cfg.maxContext, ts[..n])
      ensures copiesOk >= 4 * s.cfg.nLayers ==> ok
    {
      var staging := new byte[|body|](i requires 0 <= i < |body| => body[i]);
      assert staging[..] == body;
      var compact := Compact(s.cfg, staging, used, n);
      PackedSize(s.cfg, n);
      MulMono(run.kv.CopiesPerLayer(n, true), 4, s.cfg.nLayers);
      ok := run.kv.ScatterFromHost(compact, n, true, copiesOk);
      if ok {
        forall slot: Slot | InShape(s.m.nLayers, n, slot)
          ensures At(Pool(), s.cfg.maxContext, s.m.width, slot)
               == KvRow(s.m, Cold, ts[..n], slot.layer, slot.isValue, slot.pos)
        {
          assert InShape(s.m.nLayers, s.cfg.maxContext, slot) && InShape(s.m.nLayers, used, slot);
          assert At(compact[..], n, s.m.width, slot) == At(body, used, s.m.width, slot);
          assert ts[..n][..n] == ts[..n];
          Causal(s.m, Cold, ts[..n], ts, slot.layer, n);
        }
      }
    }

    /** Fills positions [start, |prompt|) by the schedule the turn chose. */
    method Prefill(prompt: seq<Token>, start: nat, batched: bool) returns (last: Vec)
      requires Valid() && start < |prompt| <= s.cfg.maxContext
      requires Committed(s.m, Pool(), s.cfg.maxContext, prompt[..start])
      modifies run.kv.gpuPool
      ensures Committed(s.m, Pool(), s.cfg.maxContext, prompt)
      ensures last == Hidden(s.m, Cold, prompt, s.m.nLayers, |prompt| - 1)
    {
      ghost var before := Pool();
      if batched {
        last := run.PrefillBatched(prompt, start);
      } else {
        last := run.PrefillPerToken(prompt, start);
      }
      WarmEqualsCold(s.m, before, s.cfg.maxContext, prompt, start, Pool());
    }

    /** Sampling and the bookkeeping that follows it, shared by Path A and every decode step. */
    method SampleFrom(x: Vec) returns (token: Token)
      modifies this`lastToken, this`recentTokens, this`rng
      ensures (token, rng) == s.m.sample(s.m.logits(x), old(recentTokens), old(rng))
      ensures recentTokens == Window(old(recentTokens), token) && lastToken == token
    {
      var (t, r) := s.m.sample(s.m.logits(x), recentTokens, rng);
      token, rng := t, r;
      recentTokens := recentTokens + [token];
      if |recentTokens| > RECENT_WINDOW {
        recentTokens := recentTokens[1..];
      }
      lastToken := token;
    }

    /**
     Writes position pos from lastToken, then samples; without logits it reports eos and leaves its
     own state alone. ts is what the pool has committed afterwards.
     */
    method DecodeStep(pos: nat, env: Env, ghost ts: seq<Token>) returns (token: Token)
      requires Valid() && |ts| == pos + 1 <= s.cfg.maxContext && ts[pos] == lastToken
      requires Committed(s.m, Pool(), s.cfg.maxContext, ts[..pos])
      modifies run.kv.gpuPool, this`lastToken, this`recentTokens, this`rng
      ensures Committed(s.m, Pool(), s.cfg.maxContext, ts)
      ensures Outcome(token, recentTokens, lastToken, rng) == Next(s.m, env, ts, old(recentTokens), old(rng), true)
    {
      ghost var pr := run.Now(pos);
      assert Holds(s.m, pr, ts, Pool(), TokenMajor(pos, 0));
      var x := run.ForwardToken(lastToken, pos, pr, ts);
      CommittedExtends(s.m, pr.pool, s.cfg.maxContext, ts, pos);
      WarmIsCold(s.m, pr, Cold, ts, s.m.nLayers);
      forall slot: Slot | InShape(s.m.nLayers, |ts|, slot) ensures Expected(s.m, pr, ts, Pool(), slot, true) {
        assert InShape(s.m.nLayers, pr.ctx, slot) && TokenMajor(pos + 1, 0).Done(slot);
      }
      WarmRowsAreCold(s.m, pr, ts, Pool());
      if !env.stepLogits(pos) {
        return s.m.eos;
      }
      token := SampleFrom(x);
    }

    /**
     Records what the next decode step is about to write, if it extends the committed tokens, and
     runs the step.
     */
    method CommitAndSample(kvTokens: seq<Token>, pos: nat, env: Env) returns (committed: seq<Token>, token: Token)
      requires Valid() && |kvTokens| - 1 <= pos <= |kvTokens| && pos < s.cfg.maxContext
      requires pos < |kvTokens| ==> kvTokens[pos] == lastToken
      requires Committed(s.m, Pool(), s.cfg.maxContext, kvTokens)
      modifies run.kv.gpuPool, this`lastToken, this`recentTokens, this`rng
      ensures committed == if |kvTokens| == pos then kvTokens + [old(lastToken)] else kvTokens
      ensures Committed(s.m, Pool(), s.cfg.maxContext, committed)
      ensures Outcome(token, recentTokens, lastToken, rng) == Next(s.m, env, committed, old(recentTokens), old(rng), true)
    {
      PrefixCommitted(s.m, Pool(), s.cfg.maxContext, kvTokens, pos);
      committed := kvTokens;
      if |kvTokens| == pos {
        committed := committed + [lastToken];
      }
      assert committed[..pos] == kvTokens[..pos];
      token := DecodeStep(pos, env, committed);
    }

    /**
     The decode loop. `first` is the token sampled from the prefill state, if there was one; without
     it the loop starts over the last prompt position to recover its logits.
     */
    method DecodeLoop(prompt: seq<Token>, maxTokens: int, env: Env, first: Option<Token>, ghost rng0: int) returns (t: Turn)
      requires Valid() && 0 < |prompt| < s.cfg.maxContext
      requires Committed(s.m, Pool(), s.cfg.maxContext, prompt)
      requires first.None? ==> lastToken == prompt[|prompt| - 1] && recentTokens == [] && rng == rng0
      requires first.Some? ==> lastToken == first.value && recentTokens == Window([], first.value)
      requires first.Some? ==> (first.value, rng) == Sampled(s.m, prompt, [], rng0)
      modifies run.kv.gpuPool, this`lastToken, this`recentTokens, this`rng
      ensures t == RefTurn(s.m, env, s.cfg.maxContext, prompt, maxTokens, rng0, first.Some?)
      ensures Committed(s.m, Pool(), s.cfg.maxContext, t.committed)
    {
      var limit := s.cfg.MaxTokens();
      var delivered: seq<Token> := [];
      var pos, i := |prompt|, 0;
      if first.Some? {
        delivered := [first.value];
        i := 1;
        LoopStart(s.m, env, limit, prompt, maxTokens, rng0, first.value, rng);
      } else {
        pos := Max(0, |prompt| - 1);
      }
      t := RunLoop(prompt, delivered, pos, i, maxTokens, env, RefTurn(s.m, env, limit, prompt, maxTokens, rng0, first.Some?));
    }

    /** The loop itself, from any state in which `want` is what the turn still has to become. */
    method RunLoop(prompt: seq<Token>, delivered0: seq<Token>, pos0: nat, i0: nat, maxTokens: int, env: Env, ghost want: Turn)
      returns (t: Turn)
      requires Valid() && Committed(s.m, Pool(), s.cfg.maxContext, prompt)
      requires AtLoop(s.m, env, s.cfg.maxContext, want, Turn(delivered0, prompt, recentTokens, lastToken, rng, 0), pos0,
                      maxTokens - i0)
      modifies run.kv.gpuPool, this`lastToken, this`recentTokens, this`rng
      ensures t == want && Committed(s.m, Pool(), s.cfg.maxContext, t.committed)
    {
      hide Committed, RefTurn, Continue, Next;
      var kvTokens, delivered := prompt, delivered0;
      var pos: nat, i: nat := pos0, i0;
      var isEos := delivered != [] && delivered[|delivered| - 1] == s.m.eos;
      while i < maxTokens && !env.stop(delivered) && !isEos
        invariant Committed(s.m, Pool(), s.cfg.maxContext, kvTokens)
        invariant isEos <==> delivered != [] && delivered[|delivered| - 1] == s.m.eos
        invariant AtLoop(s.m, env, s.cfg.maxContext, want,
                         Turn(delivered, kvTokens, recentTokens, lastToken, rng, 0), pos, maxTokens - i)
        decreases maxTokens - i
      {
        ghost var now := Turn(delivered, kvTokens, recentTokens, lastToken, rng, 0);
        if pos >= s.cfg.maxContext { break; }
        if !env.guard(pos) {
          LoopExit(s.m, env, s.cfg.maxContext, want, now, pos, maxTokens - i);
          return Turn(delivered, kvTokens, recentTokens, lastToken, rng, 1);
        }
        var token;
        kvTokens, token := CommitAndSample(kvTokens, pos, env);
        delivered := delivered + [token];
        LoopStep(s.m, env, s.cfg.maxContext, want, now, pos, maxTokens - i,
                 Turn(delivered, kvTokens, recentTokens, lastToken, rng, 0), Outcome(token, recentTokens, lastToken, rng));
        pos, i := pos + 1, i + 1;
        isEos := token == s.m.eos;
      }
      t := Turn(delivered, kvTokens, recentTokens, lastToken, rng, 0);
      LoopExit(s.m, env, s.cfg.maxContext, want, t, pos, maxTokens - i);
    }

    /** Persists what the pool has committed, by the skip rules of the turn's end. */
    method SaveTurn(id: string, kvTokens: seq<Token>, env: Env) returns (saved: bool, ghost bytes: seq<byte>)
      requires Valid() && TrustedDisk(s, fs.files)
      requires |kvTokens| <= s.cfg.maxContext ==> Committed(s.m, Pool(), s.cfg.maxContext, kvTokens)
      modifies fs`files, fs`history, fs`writeCalls
      ensures old(fs.history) <= fs.history && TrustedSince(s, fs.history, |old(fs.history)|) && TrustedDisk(s, fs.files)
      ensures saved ==> IsConversation(id) && MIN_TOKENS_TO_SAVE <= |kvTokens| <= s.cfg.maxContext
      ensures saved ==> SavedBy(s, kvTokens, bytes)
      ensures saved ==> s.PathOf(id) in fs.files && fs.files[s.PathOf(id)] == Inode(bytes, true)
      ensures !saved && IsConversation(id) ==> SameAt(old(fs.files), fs.files, s.PathOf(id))
      ensures CanSave(s, fs, old(fs.writeCalls), id, kvTokens, env) ==> saved
    {
      saved, bytes := false, [];
      if id == "" || !ValidateConversationId(id) { return; }
      var committedTokens := |kvTokens|;
      var overflowUsed := committedTokens > s.cfg.maxContext;
      if committedTokens < MIN_TOKENS_TO_SAVE { return; }
      if overflowUsed { return; }
      if !env.dirOk { return; }
      var packedBytes := s.cfg.PackedBytes(committedTokens);
      var staging := new byte[packedBytes](_ => 0);
      var ok := run.kv.GatherUsedToHost(staging, committedTokens, env.gatherCopies);
      if !ok { return; }
      var body := staging[..];
      GatheredIsCold(s, Pool(), kvTokens, body);
      var hdr := SavedHeader(s, committedTokens, packedBytes);
      bytes := FileBytes(hdr, kvTokens, body);
      assert SavedWith(s, kvTokens, body, bytes);
      ghost var before := fs.files;
      saved := SaveKvToFile(fs, s.PathOf(id), hdr, kvTokens, body);
      assert Trusted(s, bytes) by { assert SavedBy(s, kvTokens, bytes); }
      forall i | |old(fs.history)| <= i < |fs.history| ensures TrustedDisk(s, fs.history[i]) {
        SaveKeepsTrust(s, before, fs.history[i], id, bytes);
      }
      SaveKeepsTrust(s, before, fs.files, id, bytes);
    }

    /** Stale temporary files and evicted conversations go; the file just saved stays. */
    method HouseKeep(paths: seq<string>, keep: string)
      requires s.dir != "" && TrustedDisk(s, fs.files)
      modifies fs`files, fs`history
      ensures old(fs.history) <= fs.history && TrustedSince(s, fs.history, |old(fs.history)|) && TrustedDisk(s, fs.files)
      ensures SameAt(old(fs.files), fs.files, keep)
      ensures forall p: string | p in fs.files :: SameAt(old(fs.files), fs.files, p)
    {
      for i := 0 to |paths|
        invariant old(fs.history) <= fs.history && TrustedSince(s, fs.history, |old(fs.history)|) && TrustedDisk(s, fs.files)
        invariant SameAt(old(fs.files), fs.files, keep)
        invariant forall p: string | p in fs.files :: SameAt(old(fs.files), fs.files, p)
      {
        if paths[i] != keep {
          ghost var before := fs.files;
          fs.Unlink(paths[i]);
          if fs.files != before {
            StepKeepsTrust(s, before, Remove(paths[i]), fs.files);
          }
        }
      }
    }

    /** Hydrates, prefills the rest, and samples the first token when the prefill state is at hand. */
    method FillPrompt(prompt: seq<Token>, id: string, env: Env) returns (start: nat, first: Option<Token>)
      requires Valid() && TrustedDisk(s, fs.files) && 0 < |prompt| < s.cfg.maxContext && recentTokens == []
      modifies this`lastToken, this`recentTokens, this`rng, run.kv, run.kv.gpuPool, fs`readCalls
      ensures Committed(s.m, Pool(), s.cfg.maxContext, prompt)
      ensures start <= |prompt| && (first.Some? <==> start < |prompt| && env.logitsOk)
      ensures first.None? ==> lastToken == prompt[|prompt| - 1] && recentTokens == [] && rng == old(rng)
      ensures first.Some? ==> lastToken == first.value && recentTokens == Window([], first.value)
      ensures first.Some? ==> (first.value, rng) == Sampled(s.m, prompt, [], old(rng))
      ensures CanHydrate(s, fs, fs.files, id, prompt, env) ==> Resumes(s, fs.files[s.PathOf(id)].data, prompt, start)
    {
      hide Committed, CanHydrate, Resumes, HydratedFrom, TrustedDisk;
      first := None;
      start := TryHydrateKv(prompt, id, env);
      if start < |prompt| {
        var last := Prefill(prompt, start, env.batched);
        lastToken := prompt[|prompt| - 1];
        if env.logitsOk {
          var t := SampleFrom(last);
          first := Some(t);
        }
      } else {
        assert prompt[..start] == prompt;
        lastToken := prompt[|prompt| - 1];
      }
    }

    /** One request, from encoded prompt to saved conversation. */
    method Generate(encoded: seq<Token>, bos: Token, promptBytes: nat, params: Params, env: Env)
      returns (r: Result<Stats, Error>)
      requires Valid() && TrustedDisk(s, fs.files)
      modifies this`lastToken, this`recentTokens, this`rng, run.kv, run.kv.gpuPool
      modifies fs`files, fs`history, fs`writeCalls, fs`readCalls
      ensures old(fs.history) <= fs.history && TrustedSince(s, fs.history, |old(fs.history)|) && TrustedDisk(s, fs.files)
      ensures r.Err? <==> (promptBytes > Max(4096, s.cfg.maxContext * 8) || |PromptTokens(encoded, bos)| >= s.cfg.maxContext)
      ensures r.Err? ==> fs.files == old(fs.files) && Pool() == old(Pool())
      ensures r.Ok? ==> Delivers(s, env, PromptTokens(encoded, bos), params.maxTokens, old(rng), r.value)
      ensures r.Ok? ==> exists rs: seq<int> ::
                TurnLaw(s.m, env, s.cfg.maxContext, PromptTokens(encoded, bos), params.maxTokens, old(rng),
                        r.value.fromPrefill, r.value.turn, rs)
      ensures r.Ok? ==> (if encoded == [] then [bos] else encoded) <= r.value.turn.committed
      ensures r.Ok? ==> Committed(s.m, Pool(), s.cfg.maxContext, r.value.turn.committed)
      ensures r.Ok? && CanHydrate(s, fs, old(fs.files), params.conversationId, PromptTokens(encoded, bos), env) ==>
                Resumes(s, old(fs.files)[s.PathOf(params.conversationId)].data, PromptTokens(encoded, bos), r.value.hydrated)
      ensures r.Ok? && CanSave(s, fs, old(fs.writeCalls), params.conversationId, r.value.turn.committed, env) ==> r.value.saved
      ensures r.Ok? && r.value.saved ==>
                IsConversation(params.conversationId) && s.PathOf(params.conversationId) in fs.files
                && SavedBy(s, r.value.turn.committed, fs.files[s.PathOf(params.conversationId)].data)
    {
      hide TurnLaw, RefTurn, Committed, CanHydrate, CanSave, Resumes, SavedBy, TrustedDisk, WindowIs;
      recentTokens := [];
      var limit := s.cfg.MaxTokens();
      if promptBytes > Max(4096, limit * 8) {
        return Err(PromptTooManyBytes(promptBytes));
      }
      var prompt := PromptTokens(encoded, bos);
      if |prompt| >= limit {
        return Err(PromptTooLong(|prompt|));
      }
      var start, first := FillPrompt(prompt, params.conversationId, env);
      var turn := DecodeLoop(prompt, params.maxTokens, env, first, old(rng));
      TurnShape(s.m, env, limit, prompt, params.maxTokens, old(rng), first.Some?);
      ghost var rs := ReferenceObeysLaw(s.m, env, limit, prompt, params.maxTokens, old(rng), first.Some?);
      var saved, bytes := SaveTurn(params.conversationId, turn.committed, env);
      if saved {
        HouseKeep(env.evictions, s.PathOf(params.conversationId));
      }
      return Ok(Stats(turn, start, first.Some?, saved));
    }
  }

  lemma PrefixCommitted(m: Model, pool: seq<byte>, ctx: nat, ts: seq<Token>, n: nat)
    requires n <= |ts| && Committed(m, pool, ctx, ts)
    ensures Committed(m, pool, ctx, ts[..n])
  {
    forall slot: Slot | InShape(m.nLayers, n, slot)
      ensures At(pool, ctx, m.width, slot) == KvRow(m, Cold, ts[..n], slot.layer, slot.isValue, slot.pos)
    {
      assert ts[..n][..n] == ts[..n];
      Causal(m, Cold, ts[..n], ts, slot.layer, n);
    }
  }

  /** Gathering a committed pool packs the cold rows. */
  lemma GatheredIsCold(s: Setup, pool: seq<byte>, ts: seq<Token>, body: seq<byte>)
    requires s.Valid() && 0 < |ts| <= s.cfg.maxContext && Committed(s.m, pool, s.cfg.maxContext, ts)
    requires |body| == s.cfg.PackedBytes(|ts|)
    requires SameRows(s.m.nLayers, s.m.width, |ts|, body, |ts|, pool, s.cfg.maxContext)
    ensures ColdBody(s, ts, body) && |body| < SIZE_T_RANGE
  {
    PackedSize(s.cfg, |ts|);
    EntryHalves(s.cfg);
    RegionBytes(s.cfg.nLayers, s.cfg.maxContext, s.m.width);
    BodyBound(s.cfg.nLayers, |ts|, s.cfg.maxContext, s.m.width);
  }

  /**
   Warm equals cold for whole turns: two engines with one setup but any two pools and disks give one
   answer to one request, as soon as a first decode step would be let happen and get its logits.
   */
  method AnyTwoEnginesAgree(a: Generator, b: Generator, encoded: seq<Token>, bos: Token, promptBytes: nat,
                            params: Params, env: Env) returns (ra: Result<Stats, Error>, rb: Result<Stats, Error>)
    requires a.Valid() && b.Valid() && a.s == b.s && a.rng == b.rng && a != b
    requires a.run.kv != b.run.kv && a.run.kv.gpuPool != b.run.kv.gpuPool && a.fs != b.fs
    requires TrustedDisk(a.s, a.fs.files) && TrustedDisk(b.s, b.fs.files)
    modifies a, a.run.kv, a.run.kv.gpuPool, a.fs, b, b.run.kv, b.run.kv.gpuPool, b.fs
    ensures ra.Ok? <==> rb.Ok?
    ensures var prompt := PromptTokens(encoded, bos);
            ra.Ok? && rb.Ok? && FirstStepHappens(env, |prompt|, params.maxTokens) ==> ra.value.turn == rb.value.turn
  {
    ra := a.Generate(encoded, bos, promptBytes, params, env);
    rb := b.Generate(encoded, bos, promptBytes, params, env);
    var prompt := PromptTokens(encoded, bos);
    if ra.Ok? && rb.Ok? {
      FallbackEqualsPathA(a.s.m, env, a.s.cfg.maxContext, prompt, params.maxTokens, old(a.rng));
    }
  }

  /**
   A conversation resumes: the turn after a saved one restores the longest common prefix of what that
   turn committed and the new prompt, unless a read or a device copy fails.
   */
  method ResumeConversation(g: Generator, first: seq<Token>, second: seq<Token>, bos: Token, promptBytes: nat,
                            params: Params, env: Env) returns (r1: Result<Stats, Error>, r2: Result<Stats, Error>)
    requires g.Valid() && TrustedDisk(g.s, g.fs.files)
    modifies g, g.run.kv, g.run.kv.gpuPool, g.fs
    ensures r1.Ok? && r1.value.saved && r2.Ok?
            && (forall i: nat :: g.fs.readSizes(i) >= HEADER_BYTES) && env.scatterCopies >= 4 * g.s.cfg.nLayers
            ==> r2.value.hydrated == LcpLength(r1.value.turn.committed, PromptTokens(second, bos))
  {
    hide TurnLaw, Committed, SavedBy, TrustedDisk, TrustedSince, Delivers, CanSave, Compatible, Peek;
    r1 := g.Generate(first, bos, promptBytes, params, env);
    ghost var disk := g.fs.files;
    r2 := g.Generate(second, bos, promptBytes, params, env);
    if r1.Ok? && r1.value.saved {
      SavedIsCompatible(g.s, r1.value.turn.committed, disk[g.s.PathOf(params.conversationId)].data);
    }
  }
}
