/**
 What may be found on disk, over any run of turns.

 A conversation's file is trusted when, if it passes the compatibility checks of hydration at all,
 it holds some tokens T and the rows a cold prefill of T computes. Turns that save, fail to save or
 are cut short, evictions, clean-ups and crashes all keep every conversation's file trusted.
 */
module Conversations {
  import opened Common
  import opened KvPool
  import opened KvPack
  import opened KvCache
  import opened KvFile
  import opened Transformer

  /** The identity of one loaded model and pool: fixed while the disk is shared between turns. */
  datatype Setup = Setup(m: Model, cfg: Config, fingerprint: seq<byte>, dir: string) {
    ghost predicate Valid() {
      && m.Valid() && cfg.Positive() && cfg.nLayers == m.nLayers && cfg.HalfBytes() == m.width
      && cfg.overflowContext == 0 && cfg.kvTypeBytes == 2
      && |fingerprint| == 32 && dir != ""
      && cfg.nLayers < 0x8000_0000 && cfg.nKvHeads < 0x8000_0000 && cfg.headDim < 0x8000_0000
      && cfg.maxContext < 0x8000_0000 && cfg.FastBytes() < 0x7FFF_FFFF_0000_0000
    }

    function PathOf(id: string): string { PathForConvId(dir, id) }
  }

  predicate IsConversation(id: string) { id != "" && ValidateConversationId(id) }

  function SavedHeader(s: Setup, usedTokens: u32, bodyBytes: u64): Header
    requires s.cfg.nLayers < 0x8000_0000 && s.cfg.nKvHeads < 0x8000_0000 && s.cfg.headDim < 0x8000_0000
    requires s.cfg.maxContext < 0x8000_0000 && s.cfg.kvTypeBytes == 2
  {
    Header(KVCACHE_MAGIC, KVCACHE_VERSION, s.cfg.nLayers, s.cfg.nKvHeads, s.cfg.headDim, s.cfg.kvTypeBytes,
           s.cfg.maxContext, usedTokens, bodyBytes, s.fingerprint, Zeros(56))
  }

  /** The checks hydration makes on a header before reading the rest of the file. */
  predicate Compatible(s: Setup, h: Header) {
    && h.modelHash == s.fingerprint
    && h.nLayers == s.cfg.nLayers && h.nKvHeads == s.cfg.nKvHeads && h.headDim == s.cfg.headDim
    && h.maxContext == s.cfg.maxContext && h.kvTypeBytes == s.cfg.kvTypeBytes
    && 0 < h.usedTokens <= s.cfg.maxContext
  }

  /** The rows of a cold prefill of ts, packed for |ts| tokens. */
  ghost predicate ColdBody(s: Setup, ts: seq<Token>, body: seq<byte>) {
    && |body| == s.cfg.PackedBytes(|ts|)
    && forall slot: Slot | InShape(s.m.nLayers, |ts|, slot) ::
         At(body, |ts|, s.m.width, slot) == KvRow(s.m, Cold, ts, slot.layer, slot.isValue, slot.pos)
  }

  /** The file a turn that committed ts writes. */
  ghost predicate SavedBy(s: Setup, ts: seq<Token>, f: seq<byte>) {
    exists body: seq<byte> :: SavedWith(s, ts, body, f)
  }

  ghost predicate SavedWith(s: Setup, ts: seq<Token>, body: seq<byte>, f: seq<byte>) {
    && s.Valid() && 0 < |ts| <= s.cfg.maxContext && ColdBody(s, ts, body)
    && |body| < SIZE_T_RANGE
    && f == FileBytes(SavedHeader(s, |ts|, |body|), ts, body)
  }

  ghost predicate Trusted(s: Setup, f: seq<byte>) {
    Peek(f).Some? && Compatible(s, Peek(f).value) ==> exists ts: seq<Token> :: SavedBy(s, ts, f)
  }

  /** Every conversation's file is durable and trusted. */
  ghost predicate TrustedDisk(s: Setup, disk: Disk) {
    forall id: string | IsConversation(id) && s.PathOf(id) in disk :: TrustedAt(s, disk, s.PathOf(id))
  }

  ghost predicate TrustedAt(s: Setup, disk: Disk, path: string) {
    path in disk && disk[path].synced && Trusted(s, disk[path].data)
  }

  // ---- Steps of a run ----

  datatype Event =
    | TurnEnd(id: string, committed: seq<Token>, bytes: seq<byte>) // a turn's save: done, failed or cut short anywhere
    | Foreign(id: string, bytes: seq<byte>)                     // a save by an engine with another model or shape
    | Remove(path: string)                                      // budget eviction or stale .tmp clean-up
    | Crash                                                     // power is lost

  ghost predicate Step(s: Setup, before: Disk, ev: Event, after: Disk) {
    match ev
    case TurnEnd(id, committed, bytes) =>
      IsConversation(id) && SavedBy(s, committed, bytes) && DuringSave(before, after, s.PathOf(id), bytes)
    case Foreign(id, bytes) =>
      IsConversation(id) && !(Peek(bytes).Some? && Compatible(s, Peek(bytes).value))
      && DuringSave(before, after, s.PathOf(id), bytes)
    case Remove(path) => after == before - {path}
    case Crash => CrashImage(before, after)
  }

  ghost predicate IsRun(s: Setup, disks: seq<Disk>, events: seq<Event>) {
    |disks| == |events| + 1 && forall i | 0 <= i < |events| :: Step(s, disks[i], events[i], disks[i + 1])
  }

  lemma SaveKeepsTrust(s: Setup, before: Disk, after: Disk, id: string, bytes: seq<byte>)
    requires s.dir != "" && TrustedDisk(s, before) && IsConversation(id) && Trusted(s, bytes)
    requires DuringSave(before, after, s.PathOf(id), bytes)
    ensures TrustedDisk(s, after)
  {
    forall other: string | IsConversation(other) && s.PathOf(other) in after
      ensures TrustedAt(s, after, s.PathOf(other))
    {
      PathsDistinct(s.dir, other, id);
      var p := s.PathOf(other);
      if SameAt(before, after, p) {
        assert TrustedAt(s, before, p);
      }
    }
  }

  lemma StepKeepsTrust(s: Setup, before: Disk, ev: Event, after: Disk)
    requires s.dir != "" && TrustedDisk(s, before) && Step(s, before, ev, after)
    ensures TrustedDisk(s, after)
  {
    match ev
    case TurnEnd(id, committed, bytes) =>
      SaveKeepsTrust(s, before, after, id, bytes);
    case Foreign(id, bytes) =>
      SaveKeepsTrust(s, before, after, id, bytes);
    case Remove(path) =>
      forall id: string | IsConversation(id) && s.PathOf(id) in after ensures TrustedAt(s, after, s.PathOf(id)) {
        assert TrustedAt(s, before, s.PathOf(id));
      }
    case Crash =>
      forall id: string | IsConversation(id) && s.PathOf(id) in after ensures TrustedAt(s, after, s.PathOf(id)) {
        assert TrustedAt(s, before, s.PathOf(id));
      }
  }

  /** Multi-turn safety: every disk of every run is trusted if the first one is. */
  lemma {:induction false} AnyRunIsTrusted(s: Setup, disks: seq<Disk>, events: seq<Event>)
    requires s.dir != "" && IsRun(s, disks, events) && TrustedDisk(s, disks[0])
    ensures forall i | 0 <= i < |disks| :: TrustedDisk(s, disks[i])
    decreases |events|
  {
    if |events| > 0 {
      var k := |events| - 1;
      AnyRunIsTrusted(s, disks[..k + 1], events[..k]);
      assert disks[..k + 1][k] == disks[k];
      StepKeepsTrust(s, disks[k], events[k], disks[k + 1]);
      forall i | 0 <= i < |disks| ensures TrustedDisk(s, disks[i]) {
        if i <= k {
          assert disks[..k + 1][i] == disks[i];
        }
      }
    }
  }

  // ---- Reading a trusted file ----

  lemma SavedIsConsistent(s: Setup, ts: seq<Token>, body: seq<byte>, f: seq<byte>)
    requires SavedWith(s, ts, body, f)
    ensures Consistent(SavedHeader(s, |ts|, |body|), ts, body)
    ensures |body| == s.cfg.nLayers * (2 * |ts|) * s.m.width <= s.cfg.FastBytes()
  {
    PackedSize(s.cfg, |ts|);
    EntryHalves(s.cfg);
    RegionBytes(s.cfg.nLayers, s.cfg.maxContext, s.m.width);
    BodyBound(s.cfg.nLayers, |ts|, s.cfg.maxContext, s.m.width);
  }

  lemma BodyBound(layers: nat, n: nat, ctx: nat, w: nat)
    requires n <= ctx
    ensures layers * (2 * n) * w <= layers * (2 * ctx) * w
  {
    MulMono(2 * n, 2 * ctx, layers);
    MulMono(layers * (2 * n), layers * (2 * ctx), w);
  }

  /** What a load of a trusted, compatible file returns: the tokens and the cold rows for them. */
  lemma TrustedLoad(s: Setup, f: seq<byte>, capacity: nat) returns (ts: seq<Token>, body: seq<byte>)
    requires Trusted(s, f) && Peek(f).Some? && Compatible(s, Peek(f).value)
    requires capacity == Peek(f).value.bodyBytes
    ensures 0 < |ts| <= s.cfg.maxContext && ColdBody(s, ts, body) && SavedBy(s, ts, f)
    ensures |body| == capacity == s.cfg.PackedBytes(|ts|) && Peek(f).value.usedTokens == |ts|
    ensures Parse(f, capacity) == Some(Loaded(Peek(f).value, ts, body))
  {
    ts :| SavedBy(s, ts, f);
    body :| SavedWith(s, ts, body, f);
    SavedIsConsistent(s, ts, body, f);
    LoadOfSave(SavedHeader(s, |ts|, |body|), ts, body, |body|);
  }

  /** A saved file passes every check of hydration, and holds one list of tokens. */
  lemma SavedIsCompatible(s: Setup, ts: seq<Token>, f: seq<byte>)
    requires SavedBy(s, ts, f)
    ensures Peek(f).Some? && Compatible(s, Peek(f).value) && Peek(f).value.usedTokens == |ts|
    ensures forall us: seq<Token> | SavedBy(s, us, f) :: us == ts
  {
    var body :| SavedWith(s, ts, body, f);
    SavedIsConsistent(s, ts, body, f);
    var h := SavedHeader(s, |ts|, |body|);
    LoadOfSave(h, ts, body, |body|);
    forall us: seq<Token> | SavedBy(s, us, f) ensures us == ts {
      var other :| SavedWith(s, us, other, f);
      SavedIsConsistent(s, us, other, f);
      LoadOfSave(SavedHeader(s, |us|, |other|), us, other, Max(|body|, |other|));
      LoadOfSave(h, ts, body, Max(|body|, |other|));
    }
  }
}
