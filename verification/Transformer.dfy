/**
 What the K/V cache and the hidden states must be.

 A layer is row-wise and causal: `qkv` maps one hidden row to a query, a key row and a value row,
 `attn` reads the keys and values of positions [0, pos], `tail` finishes the row. These kernels are
 parameters of the model. `Hidden` and `KvRow` say, by recursion on the layer, what every row must
 be, given the rows already in the cache below position `start`. Nothing in them depends on the
 order in which a schedule visits layers and positions.
 */
module Transformer {
  import opened Common
  import opened KvPool
  import opened KvPack

  type Token = x: int | 0 <= x < 0x1_0000_0000

  /** An FP16 activation vector, as bit patterns. */
  type Vec = seq<int>

  datatype Qkv = Qkv(q: Vec, k: seq<byte>, v: seq<byte>)

  datatype Model = Model(nLayers: nat, width: nat,
                         embed: Token -> Vec,
                         qkv: (nat, Vec, nat) -> Qkv,
                         attn: (nat, Vec, seq<seq<byte>>, seq<seq<byte>>) -> Vec,
                         tail: (nat, Vec, Vec) -> Vec,
                         logits: Vec -> Vec,
                         sample: (Vec, seq<Token>, int) -> (Token, int),
                         eos: Token)
  {
    /** Key and value rows have the width of the pool's rows. */
    ghost predicate Valid() {
      forall l: nat, x: Vec, p: nat :: |qkv(l, x, p).k| == width && |qkv(l, x, p).v| == width
    }
  }

  /** Cache contents taken as given for positions below `start`. */
  datatype Prior = Prior(pool: seq<byte>, ctx: nat, width: nat, start: nat) {
    function Row(slot: Slot): seq<byte> { At(pool, ctx, width, slot) }
  }

  /** Nothing is given: every position is computed from the tokens. */
  const Cold := Prior([], 0, 0, 0)

  // ---- The reference ----

  /** The input of layer l at position p (for l == nLayers, the final hidden state). */
  ghost function Hidden(m: Model, pr: Prior, ts: seq<Token>, l: nat, p: nat): Vec
    requires pr.start <= p < |ts|
    decreases l, 0
  {
    if l == 0 then m.embed(ts[p])
    else
      var x := Hidden(m, pr, ts, l - 1, p);
      LayerOut(m, l - 1, p, x, Rows(m, pr, ts, l - 1, false, p + 1), Rows(m, pr, ts, l - 1, true, p + 1))
  }

  /** The key or value row of layer l at position p. */
  ghost function KvRow(m: Model, pr: Prior, ts: seq<Token>, l: nat, v: bool, p: nat): seq<byte>
    requires p < |ts|
    decreases l, 1
  {
    if p < pr.start then pr.Row(Slot(l, v, p))
    else
      var out := m.qkv(l, Hidden(m, pr, ts, l, p), p);
      if v then out.v else out.k
  }

  ghost function Rows(m: Model, pr: Prior, ts: seq<Token>, l: nat, v: bool, n: nat): (rows: seq<seq<byte>>)
    requires n <= |ts|
    ensures |rows| == n
    decreases l, 2, n
  {
    if n == 0 then [] else Rows(m, pr, ts, l, v, n - 1) + [KvRow(m, pr, ts, l, v, n - 1)]
  }

  /** One layer applied to one row, given the keys and values it attends to. */
  function LayerOut(m: Model, l: nat, p: nat, x: Vec, keys: seq<seq<byte>>, vals: seq<seq<byte>>): Vec {
    m.tail(l, x, m.attn(l, m.qkv(l, x, p).q, keys, vals))
  }

  lemma {:induction false} RowsAt(m: Model, pr: Prior, ts: seq<Token>, l: nat, v: bool, n: nat, rows: seq<seq<byte>>)
    requires n <= |ts| && |rows| == n && forall i: nat | i < n :: rows[i] == KvRow(m, pr, ts, l, v, i)
    ensures Rows(m, pr, ts, l, v, n) == rows
    decreases n
  {
    if n > 0 {
      RowsAt(m, pr, ts, l, v, n - 1, rows[..n - 1]);
      assert rows == rows[..n - 1] + [rows[n - 1]];
    }
  }

  /**
   The reference spelled out for a cold start: layer l at position p attends, with its own query, to
   the keys and values that layer l makes of the hidden rows of positions 0 to p, its own included.
   */
  lemma HiddenEquation(m: Model, ts: seq<Token>, l: nat, p: nat, keys: seq<seq<byte>>, vals: seq<seq<byte>>)
    requires p < |ts| && |keys| == |vals| == p + 1
    requires forall i: nat | i <= p :: keys[i] == m.qkv(l, Hidden(m, Cold, ts, l, i), i).k
    requires forall i: nat | i <= p :: vals[i] == m.qkv(l, Hidden(m, Cold, ts, l, i), i).v
    ensures Hidden(m, Cold, ts, 0, p) == m.embed(ts[p])
    ensures var x := Hidden(m, Cold, ts, l, p);
            Hidden(m, Cold, ts, l + 1, p) == m.tail(l, x, m.attn(l, m.qkv(l, x, p).q, keys, vals))
  {
    RowsAt(m, Cold, ts, l, false, p + 1, keys);
    RowsAt(m, Cold, ts, l, true, p + 1, vals);
  }

  // ---- What the reference depends on ----

  /** Position p depends on tokens [0, p] only: later tokens never change a row already computed. */
  lemma {:induction false} Causal(m: Model, pr: Prior, a: seq<Token>, b: seq<Token>, l: nat, n: nat)
    requires n <= |a| && n <= |b| && a[..n] == b[..n]
    ensures forall p | pr.start <= p < n :: Hidden(m, pr, a, l, p) == Hidden(m, pr, b, l, p)
    ensures forall v: bool, p: nat | p < n :: KvRow(m, pr, a, l, v, p) == KvRow(m, pr, b, l, v, p)
    ensures forall v: bool, k: nat | k <= n :: Rows(m, pr, a, l, v, k) == Rows(m, pr, b, l, v, k)
    decreases l
  {
    forall p | pr.start <= p < n ensures Hidden(m, pr, a, l, p) == Hidden(m, pr, b, l, p) {
      assert a[p] == a[..n][p] == b[..n][p] == b[p];
      if l > 0 {
        Causal(m, pr, a, b, l - 1, n);
      }
    }
    forall v: bool, k: nat | k <= n ensures Rows(m, pr, a, l, v, k) == Rows(m, pr, b, l, v, k) {
      CausalRows(m, pr, a, b, l, v, n, k);
    }
  }

  lemma {:induction false} CausalRows(m: Model, pr: Prior, a: seq<Token>, b: seq<Token>, l: nat, v: bool, n: nat, k: nat)
    requires k <= n <= |a| && n <= |b|
    requires forall p: nat | p < n :: KvRow(m, pr, a, l, v, p) == KvRow(m, pr, b, l, v, p)
    ensures Rows(m, pr, a, l, v, k) == Rows(m, pr, b, l, v, k)
    decreases k
  {
    if k > 0 {
      CausalRows(m, pr, a, b, l, v, n, k - 1);
    }
  }

  /** `warm` is given more rows than `base`, and they are the rows `base` computes. */
  ghost predicate Extends(m: Model, warm: Prior, base: Prior, ts: seq<Token>) {
    && base.start <= warm.start
    && forall l: nat, v: bool, p: nat | l < m.nLayers && p < warm.start && p < |ts| ::
         warm.Row(Slot(l, v, p)) == KvRow(m, base, ts, l, v, p)
  }

  /** Starting later from correct rows computes the same rows and hidden states as starting earlier. */
  lemma {:induction false} WarmIsCold(m: Model, warm: Prior, base: Prior, ts: seq<Token>, l: nat)
    requires Extends(m, warm, base, ts) && l <= m.nLayers
    ensures forall p | warm.start <= p < |ts| :: Hidden(m, warm, ts, l, p) == Hidden(m, base, ts, l, p)
    ensures l < m.nLayers ==> forall v: bool, p: nat | p < |ts| :: KvRow(m, warm, ts, l, v, p) == KvRow(m, base, ts, l, v, p)
    ensures l < m.nLayers ==> forall v: bool, k: nat | k <= |ts| :: Rows(m, warm, ts, l, v, k) == Rows(m, base, ts, l, v, k)
    decreases l
  {
    forall p | warm.start <= p < |ts| ensures Hidden(m, warm, ts, l, p) == Hidden(m, base, ts, l, p) {
      if l > 0 {
        WarmIsCold(m, warm, base, ts, l - 1);
      }
    }
    if l < m.nLayers {
      forall v: bool, p: nat | p < |ts| ensures KvRow(m, warm, ts, l, v, p) == KvRow(m, base, ts, l, v, p) {
        if p < warm.start {
          assert warm.Row(Slot(l, v, p)) == KvRow(m, base, ts, l, v, p);
        }
      }
      forall v: bool, k: nat | k <= |ts| ensures Rows(m, warm, ts, l, v, k) == Rows(m, base, ts, l, v, k) {
        WarmRows(m, warm, base, ts, l, v, k);
      }
    }
  }

  lemma {:induction false} WarmRows(m: Model, warm: Prior, base: Prior, ts: seq<Token>, l: nat, v: bool, k: nat)
    requires k <= |ts|
    requires forall p: nat | p < |ts| :: KvRow(m, warm, ts, l, v, p) == KvRow(m, base, ts, l, v, p)
    ensures Rows(m, warm, ts, l, v, k) == Rows(m, base, ts, l, v, k)
    decreases k
  {
    if k > 0 {
      WarmRows(m, warm, base, ts, l, v, k - 1);
    }
  }

  // ---- Rows read back from a pool ----

  /** Positions [0, n) of one half of layer l, as attention reads them. */
  function PoolRows(pool: seq<byte>, ctx: nat, w: nat, l: nat, v: bool, n: nat): (rows: seq<seq<byte>>)
    ensures |rows| == n
  {
    if n == 0 then [] else PoolRows(pool, ctx, w, l, v, n - 1) + [At(pool, ctx, w, Slot(l, v, n - 1))]
  }

  lemma {:induction false} PoolRowsAreRows(m: Model, pr: Prior, ts: seq<Token>, pool: seq<byte>, ctx: nat, w: nat,
                                           l: nat, v: bool, n: nat)
    requires n <= |ts|
    requires forall p: nat | p < n :: At(pool, ctx, w, Slot(l, v, p)) == KvRow(m, pr, ts, l, v, p)
    ensures PoolRows(pool, ctx, w, l, v, n) == Rows(m, pr, ts, l, v, n)
    decreases n
  {
    if n > 0 {
      PoolRowsAreRows(m, pr, ts, pool, ctx, w, l, v, n - 1);
    }
  }
}
