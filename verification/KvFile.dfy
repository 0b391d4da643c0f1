/**
 The on-disk KV cache: byte format, the tmp / fsync / rename protocol, and the checked load.

 A file is a 128-byte little-endian header, the token ids at four bytes each, and the packed body.
 The disk is a map from paths to inodes; an inode that was not fsynced may come back from a crash
 with any contents.
 */
module KvFile {
  import opened Common

  type u32 = x: int | 0 <= x < 0x1_0000_0000
  type u64 = x: int | 0 <= x < 0x1_0000_0000_0000_0000

  const KVCACHE_MAGIC: u32 := 0x4D4C4C4A
  const KVCACHE_VERSION: u32 := 2
  const HEADER_BYTES := 128
  const SIZE_T_RANGE := 0x1_0000_0000_0000_0000

  datatype Header = Header(magic: u32, version: u32, nLayers: u32, nKvHeads: u32, headDim: u32,
                           kvTypeBytes: u32, maxContext: u32, usedTokens: u32, bodyBytes: u64,
                           modelHash: seq<byte>, reserved: seq<byte>)
  {
    predicate WellFormed() { |modelHash| == 32 && |reserved| == 56 }
  }

  // ---- Little-endian integers ----

  function Pow256(k: nat): (p: nat)
    ensures p > 0
  {
    if k == 0 then 1 else 256 * Pow256(k - 1)
  }

  function Le(x: nat, k: nat): (s: seq<byte>)
    ensures |s| == k
    decreases k
  {
    if k == 0 then [] else [x % 256] + Le(x / 256, k - 1)
  }

  function FromLe(s: seq<byte>): (x: nat)
    ensures x < Pow256(|s|)
  {
    if s == [] then 0 else
      var rest := FromLe(s[1..]);
      assert 256 * rest + 256 <= 256 * Pow256(|s| - 1);
      s[0] + 256 * rest
  }

  lemma {:induction false} LeRoundTrip(x: nat, k: nat)
    requires x < Pow256(k)
    ensures FromLe(Le(x, k)) == x
  {
    if k > 0 {
      LeRoundTrip(x / 256, k - 1);
      assert Le(x, k)[1..] == Le(x / 256, k - 1);
    }
  }

  /** The other way round: any k bytes are the k digits of the number they read as. */
  lemma {:induction false} LeOfBytes(s: seq<byte>)
    ensures Le(FromLe(s), |s|) == s
  {
    if s != [] {
      hide FromLe;
      LeOfBytes(s[1..]);
      FirstDigit(s);
    }
  }

  lemma FirstDigit(s: seq<byte>)
    requires s != []
    ensures FromLe(s) % 256 == s[0] && FromLe(s) / 256 == FromLe(s[1..])
  {
    hide Pow256;
    DivModUnique(FromLe(s), 256, FromLe(s[1..]), s[0]);
  }

  /** Least significant digit first. */
  lemma {:induction false} LeDigit(x: nat, k: nat, i: nat)
    requires i < k
    ensures Le(x, k)[i] == x / Pow256(i) % 256
  {
    if i > 0 {
      hide Pow256;
      LeDigit(x / 256, k - 1, i - 1);
      DivTwice(x, i);
    }
  }

  lemma DivTwice(x: nat, i: nat)
    requires i > 0
    ensures x / 256 / Pow256(i - 1) == x / Pow256(i)
  {
    var p := Pow256(i - 1);
    var y := x / 256;
    var q, r := y / p, y % p;
    assert x == 256 * (p * q + r) + x % 256;
    assert x == (256 * p) * q + (256 * r + x % 256);
    assert 256 * r + x % 256 < 256 * p;
    DivModUnique(x, 256 * p, q, 256 * r + x % 256);
  }

  lemma Widths()
    ensures Pow256(4) == 0x1_0000_0000 && Pow256(8) == SIZE_T_RANGE
  {
    assert Pow256(2) == 65536;
    assert Pow256(4) == 65536 * 65536;
    assert Pow256(6) == 65536 * Pow256(4);
  }

  // ---- The file format ----

  function EncodeU32s(ts: seq<u32>): (s: seq<byte>)
    ensures |s| == 4 * |ts|
  {
    if ts == [] then [] else Le(ts[0], 4) + EncodeU32s(ts[1..])
  }

  function DecodeU32s(s: seq<byte>): (ts: seq<u32>)
    requires |s| % 4 == 0
    ensures 4 * |ts| == |s|
  {
    if s == [] then [] else
      var x := FromLe(s[..4]);
      assert x < 0x1_0000_0000 by { Widths(); }
      [x] + DecodeU32s(s[4..])
  }

  lemma {:induction false} U32sRoundTrip(ts: seq<u32>)
    ensures DecodeU32s(EncodeU32s(ts)) == ts
  {
    if ts != [] {
      var s := EncodeU32s(ts);
      assert s[..4] == Le(ts[0], 4) && s[4..] == EncodeU32s(ts[1..]);
      Widths();
      LeRoundTrip(ts[0], 4);
      U32sRoundTrip(ts[1..]);
    }
  }

  lemma {:induction false} U32sOfBytes(s: seq<byte>)
    requires |s| % 4 == 0
    ensures EncodeU32s(DecodeU32s(s)) == s
  {
    if s != [] {
      LeOfBytes(s[..4]);
      U32sOfBytes(s[4..]);
      NextU32(s);
    }
  }

  lemma NextU32(s: seq<byte>)
    requires |s| % 4 == 0 && s != []
    ensures DecodeU32s(s) != [] && DecodeU32s(s)[0] == FromLe(s[..4]) && DecodeU32s(s)[1..] == DecodeU32s(s[4..])
    ensures s == s[..4] + s[4..]
  {
  }

  lemma {:induction false} U32sAt(ts: seq<u32>, i: nat)
    requires i < |ts|
    ensures EncodeU32s(ts)[4 * i..4 * i + 4] == Le(ts[i], 4)
  {
    hide Le;
    WordOf(Le(ts[0], 4), EncodeU32s(ts[1..]), i);
    if i > 0 {
      U32sAt(ts[1..], i - 1);
    }
  }

  lemma WordOf(first: seq<byte>, rest: seq<byte>, i: nat)
    requires |first| == 4 && 4 * i <= |rest|
    ensures if i == 0 then (first + rest)[4 * i..4 * i + 4] == first
            else (first + rest)[4 * i..4 * i + 4] == rest[4 * (i - 1)..4 * (i - 1) + 4]
  {
  }

  /** The eight leading 32-bit fields, in the order of the packed struct. */
  function Fields(h: Header): seq<u32> {
    [h.magic, h.version, h.nLayers, h.nKvHeads, h.headDim, h.kvTypeBytes, h.maxContext, h.usedTokens]
  }

  function EncodeHeader(h: Header): seq<byte> {
    EncodeU32s(Fields(h)) + Le(h.bodyBytes, 8) + h.modelHash + h.reserved
  }

  function DecodeHeader(s: seq<byte>): (h: Header)
    requires |s| == HEADER_BYTES
  {
    Widths();
    var fs := DecodeU32s(s[..32]);
    Header(fs[0], fs[1], fs[2], fs[3], fs[4], fs[5], fs[6], fs[7], FromLe(s[32..40]), s[40..72], s[72..])
  }

  lemma HeaderRoundTrip(h: Header)
    requires h.WellFormed()
    ensures |EncodeHeader(h)| == HEADER_BYTES && DecodeHeader(EncodeHeader(h)) == h
  {
    HeaderParts(EncodeU32s(Fields(h)), Le(h.bodyBytes, 8), h.modelHash, h.reserved);
    U32sRoundTrip(Fields(h));
    assert h.bodyBytes < Pow256(8) by { Widths(); }
    LeRoundTrip(h.bodyBytes, 8);
  }

  /** Where each field of the packed struct lies in the file. */
  lemma HeaderLayout(h: Header)
    requires h.WellFormed()
    ensures var s := EncodeHeader(h);
            && |s| == HEADER_BYTES
            && s[0..4] == Le(h.magic, 4) && s[4..8] == Le(h.version, 4)
            && s[8..12] == Le(h.nLayers, 4) && s[12..16] == Le(h.nKvHeads, 4)
            && s[16..20] == Le(h.headDim, 4) && s[20..24] == Le(h.kvTypeBytes, 4)
            && s[24..28] == Le(h.maxContext, 4) && s[28..32] == Le(h.usedTokens, 4)
            && s[32..40] == Le(h.bodyBytes, 8) && s[40..72] == h.modelHash && s[72..] == h.reserved
  {
    var front := EncodeU32s(Fields(h));
    HeaderParts(front, Le(h.bodyBytes, 8), h.modelHash, h.reserved);
    var s := EncodeHeader(h);
    forall i: nat | i < 8 ensures s[4 * i..4 * i + 4] == Le(Fields(h)[i], 4) {
      U32sAt(Fields(h), i);
      assert s[4 * i..4 * i + 4] == s[..32][4 * i..4 * i + 4];
    }
    EightWords(s, Fields(h));
  }

  lemma EightWords(s: seq<byte>, ts: seq<u32>)
    requires |s| >= 32 && |ts| == 8 && forall i: nat | i < 8 :: s[4 * i..4 * i + 4] == Le(ts[i], 4)
    ensures s[0..4] == Le(ts[0], 4) && s[4..8] == Le(ts[1], 4) && s[8..12] == Le(ts[2], 4) && s[12..16] == Le(ts[3], 4)
    ensures s[16..20] == Le(ts[4], 4) && s[20..24] == Le(ts[5], 4) && s[24..28] == Le(ts[6], 4) && s[28..32] == Le(ts[7], 4)
  {
    hide Le;
    assert s[4 * 0..4 * 0 + 4] == Le(ts[0], 4);
    assert s[4 * 1..4 * 1 + 4] == Le(ts[1], 4);
    assert s[4 * 2..4 * 2 + 4] == Le(ts[2], 4);
    assert s[4 * 3..4 * 3 + 4] == Le(ts[3], 4);
    assert s[4 * 4..4 * 4 + 4] == Le(ts[4], 4);
    assert s[4 * 5..4 * 5 + 4] == Le(ts[5], 4);
    assert s[4 * 6..4 * 6 + 4] == Le(ts[6], 4);
    assert s[4 * 7..4 * 7 + 4] == Le(ts[7], 4);
  }

  /** Every 128 bytes are the encoding of the header they read as: no bit is ignored. */
  lemma HeaderOfBytes(s: seq<byte>)
    requires |s| == HEADER_BYTES
    ensures DecodeHeader(s).WellFormed() && EncodeHeader(DecodeHeader(s)) == s
  {
    hide Le, FromLe, EncodeU32s, DecodeU32s, Fields;
    U32sOfBytes(s[..32]);
    LeOfBytes(s[32..40]);
    FieldsRead(s);
    FourParts(s);
  }

  lemma FieldsRead(s: seq<byte>)
    requires |s| == HEADER_BYTES
    ensures Fields(DecodeHeader(s)) == DecodeU32s(s[..32])
  {
    hide DecodeU32s, FromLe;
  }

  lemma FourParts(s: seq<byte>)
    requires |s| == HEADER_BYTES
    ensures s == s[..32] + s[32..40] + s[40..72] + s[72..]
  {
  }

  lemma HeaderParts(a: seq<byte>, b: seq<byte>, c: seq<byte>, d: seq<byte>)
    requires |a| == 32 && |b| == 8 && |c| == 32 && |d| == 56
    ensures var s := a + b + c + d;
            |s| == HEADER_BYTES && s[..32] == a && s[32..40] == b && s[40..72] == c && s[72..] == d
  {
  }

  function FileBytes(h: Header, ts: seq<u32>, body: seq<byte>): seq<byte> {
    EncodeHeader(h) + EncodeU32s(ts) + body
  }

  /** The fields agree with what is stored, and the file is one a real file system can hold. */
  ghost predicate Consistent(h: Header, ts: seq<u32>, body: seq<byte>) {
    && h.WellFormed() && h.magic == KVCACHE_MAGIC && h.version == KVCACHE_VERSION
    && h.usedTokens == |ts| && h.bodyBytes == |body|
    && HEADER_BYTES + 4 * |ts| + |body| < SIZE_T_RANGE
  }

  // ---- What peek and load accept ----

  /** The size the header advertises, in size_t arithmetic. */
  function ExpectedSize(h: Header): nat {
    (HEADER_BYTES + h.usedTokens * 4 + h.bodyBytes) % SIZE_T_RANGE
  }

  function Peek(f: seq<byte>): Option<Header> {
    if |f| < HEADER_BYTES then None else PeekWith(DecodeHeader(f[..HEADER_BYTES]), f)
  }

  function PeekWith(h: Header, f: seq<byte>): Option<Header> {
    if h.magic != KVCACHE_MAGIC then None
    else if h.version != KVCACHE_VERSION then None
    else if |f| != ExpectedSize(h) then None
    else Some(h)
  }

  datatype Loaded = Loaded(hdr: Header, tokens: seq<u32>, body: seq<byte>)

  function Parse(f: seq<byte>, capacity: nat): Option<Loaded> {
    if |f| < HEADER_BYTES then None else ParseWith(DecodeHeader(f[..HEADER_BYTES]), f, capacity)
  }

  function ParseWith(h: Header, f: seq<byte>, capacity: nat): Option<Loaded> {
    var bodyAt := HEADER_BYTES + h.usedTokens * 4;
    if h.magic != KVCACHE_MAGIC then None
    else if h.version != KVCACHE_VERSION then None
    else if h.bodyBytes > capacity then None
    else if |f| != ExpectedSize(h) then None
    else if |f| < bodyAt + h.bodyBytes then None   // a read runs into the end of the file
    else Some(Loaded(h, DecodeU32s(f[HEADER_BYTES..bodyAt]), f[bodyAt..bodyAt + h.bodyBytes]))
  }

  lemma FileParts(h: Header, ts: seq<u32>, body: seq<byte>)
    requires h.WellFormed()
    ensures var f, bodyAt := FileBytes(h, ts, body), HEADER_BYTES + 4 * |ts|;
            && |f| == bodyAt + |body|
            && f[..HEADER_BYTES] == EncodeHeader(h) && DecodeHeader(f[..HEADER_BYTES]) == h
            && f[HEADER_BYTES..bodyAt] == EncodeU32s(ts) && f[bodyAt..] == body
  {
    HeaderRoundTrip(h);
    Concat3(EncodeHeader(h), EncodeU32s(ts), body);
  }

  lemma Concat3(a: seq<byte>, b: seq<byte>, c: seq<byte>)
    ensures var f := a + b + c;
            f[..|a|] == a && f[|a|..|a| + |b|] == b && f[|a| + |b|..] == c
  {
  }

  /** A complete file is accepted by peek and by load, and load gives back all three parts. */
  lemma LoadOfSave(h: Header, ts: seq<u32>, body: seq<byte>, capacity: nat)
    requires Consistent(h, ts, body) && |body| <= capacity
    ensures Peek(FileBytes(h, ts, body)) == Some(h)
    ensures Parse(FileBytes(h, ts, body), capacity) == Some(Loaded(h, ts, body))
  {
    var f, bodyAt := FileBytes(h, ts, body), HEADER_BYTES + 4 * |ts|;
    FileParts(h, ts, body);
    U32sRoundTrip(ts);
    PartsAccepted(h, f, ts, body, capacity);
  }

  lemma PartsAccepted(h: Header, f: seq<byte>, ts: seq<u32>, body: seq<byte>, capacity: nat)
    requires Consistent(h, ts, body) && |body| <= capacity && |f| == HEADER_BYTES + 4 * |ts| + |body|
    requires DecodeU32s(f[HEADER_BYTES..HEADER_BYTES + 4 * |ts|]) == ts && f[HEADER_BYTES + 4 * |ts|..] == body
    ensures PeekWith(h, f) == Some(h) && ParseWith(h, f, capacity) == Some(Loaded(h, ts, body))
  {
    assert f[HEADER_BYTES + 4 * |ts|..HEADER_BYTES + 4 * |ts| + |body|] == f[HEADER_BYTES + 4 * |ts|..];
  }

  /** Anything that starts like a complete file but has another length is rejected by both. */
  lemma OtherLengthsRejected(h: Header, ts: seq<u32>, body: seq<byte>, g: seq<byte>, capacity: nat)
    requires Consistent(h, ts, body)
    requires g < FileBytes(h, ts, body) || FileBytes(h, ts, body) < g
    ensures Peek(g) == None && Parse(g, capacity) == None
  {
    FileParts(h, ts, body);
    if HEADER_BYTES <= |g| {
      assert g[..HEADER_BYTES] == FileBytes(h, ts, body)[..HEADER_BYTES];
      WrongSizeRejected(h, ts, body, g, capacity);
    }
  }

  lemma WrongSizeRejected(h: Header, ts: seq<u32>, body: seq<byte>, g: seq<byte>, capacity: nat)
    requires Consistent(h, ts, body) && |g| != HEADER_BYTES + 4 * |ts| + |body|
    ensures PeekWith(h, g) == None && ParseWith(h, g, capacity) == None
  {
  }

  /** Load accepts the complete files and nothing else. */
  lemma LoadAcceptsExactly(f: seq<byte>, capacity: nat, l: Loaded)
    ensures Parse(f, capacity) == Some(l)
       <==> Consistent(l.hdr, l.tokens, l.body) && |l.body| <= capacity && f == FileBytes(l.hdr, l.tokens, l.body)
  {
    if Parse(f, capacity) == Some(l) {
      CompleteFile(f, l.hdr, l.tokens, l.body);
    }
    if Consistent(l.hdr, l.tokens, l.body) && |l.body| <= capacity && f == FileBytes(l.hdr, l.tokens, l.body) {
      LoadOfSave(l.hdr, l.tokens, l.body, capacity);
    }
  }

  /** So does peek, whenever the size that the header advertises fits in 64 bits. */
  lemma PeekAcceptsExactly(f: seq<byte>, h: Header)
    ensures Peek(f) == Some(h) && HEADER_BYTES + 4 * h.usedTokens + h.bodyBytes < SIZE_T_RANGE
       <==> exists ts, body :: Consistent(h, ts, body) && f == FileBytes(h, ts, body)
  {
    hide *;
    if Peek(f) == Some(h) && HEADER_BYTES + 4 * h.usedTokens + h.bodyBytes < SIZE_T_RANGE {
      var ts, body := PeekedIsComplete(f, h);
    }
    if ts, body :| Consistent(h, ts, body) && f == FileBytes(h, ts, body) {
      SizeFits(h, ts, body);
      LoadOfSave(h, ts, body, |body|);
    }
  }

  lemma SizeFits(h: Header, ts: seq<u32>, body: seq<byte>)
    requires Consistent(h, ts, body)
    ensures HEADER_BYTES + 4 * h.usedTokens + h.bodyBytes < SIZE_T_RANGE
  {
  }

  lemma PeekedIsComplete(f: seq<byte>, h: Header) returns (ts: seq<u32>, body: seq<byte>)
    requires Peek(f) == Some(h) && HEADER_BYTES + 4 * h.usedTokens + h.bodyBytes < SIZE_T_RANGE
    ensures Consistent(h, ts, body) && f == FileBytes(h, ts, body)
  {
    hide DecodeHeader, DecodeU32s, Consistent, FileBytes;
    var bodyAt := HEADER_BYTES + 4 * h.usedTokens;
    ts, body := DecodeU32s(f[HEADER_BYTES..bodyAt]), f[bodyAt..];
    CompleteFile(f, h, ts, body);
  }

  lemma CompleteFile(f: seq<byte>, h: Header, ts: seq<u32>, body: seq<byte>)
    requires HEADER_BYTES + 4 * h.usedTokens <= |f| && |f| == HEADER_BYTES + 4 * h.usedTokens + h.bodyBytes < SIZE_T_RANGE
    requires h == DecodeHeader(f[..HEADER_BYTES]) && h.magic == KVCACHE_MAGIC && h.version == KVCACHE_VERSION
    requires ts == DecodeU32s(f[HEADER_BYTES..HEADER_BYTES + 4 * h.usedTokens]) && body == f[HEADER_BYTES + 4 * h.usedTokens..]
    ensures Consistent(h, ts, body) && f == FileBytes(h, ts, body)
  {
    hide DecodeHeader, EncodeHeader, DecodeU32s, EncodeU32s;
    HeaderOfBytes(f[..HEADER_BYTES]);
    U32sOfBytes(f[HEADER_BYTES..HEADER_BYTES + 4 * h.usedTokens]);
    ThreeParts(f, HEADER_BYTES + 4 * h.usedTokens);
  }

  lemma ThreeParts(f: seq<byte>, bodyAt: nat)
    requires HEADER_BYTES <= bodyAt <= |f|
    ensures f == f[..HEADER_BYTES] + f[HEADER_BYTES..bodyAt] + f[bodyAt..]
  {
  }

  // ---- The disk ----

  datatype Inode = Inode(data: seq<byte>, synced: bool)
  type Disk = map<string, Inode>

  ghost predicate SameAt(before: Disk, now: Disk, p: string) {
    (p in now <==> p in before) && (p in before && p in now ==> now[p] == before[p])
  }

  /** A state the disk may be in while `path` is being replaced by `bytes`, starting from `before`. */
  ghost predicate DuringSave(before: Disk, now: Disk, path: string, bytes: seq<byte>) {
    && (forall p: string | p != path && p != TmpPath(path) :: SameAt(before, now, p))
    && (SameAt(before, now, path) || (path in now && now[path] == Inode(bytes, true)))
  }

  /** What may be found after power is lost: synced files survive, others hold anything or nothing. */
  ghost predicate CrashImage(now: Disk, after: Disk) {
    && (forall p: string | p in after :: p in now)
    && (forall p: string | p in now && now[p].synced :: p in after && after[p] == now[p])
  }

  function TmpPath(path: string): string { path + ".tmp" }

  /**
   The file system with its outcomes fixed in advance: how much each write and read call moves
   (zero or less is an error) and which other calls succeed. `history` records every state.
   */
  class FileSystem {
    var files: Disk
    ghost var history: seq<Disk>
    const writeSizes: nat -> int
    const readSizes: nat -> int
    var writeCalls: nat
    var readCalls: nat
    const openOk: bool
    const fsyncOk: bool
    const renameOk: bool
    const unlinkOk: bool

    constructor (files: Disk, writeSizes: nat -> int, readSizes: nat -> int,
                 openOk: bool, fsyncOk: bool, renameOk: bool, unlinkOk: bool)
      ensures this.files == files && history == [files]
      ensures this.writeSizes == writeSizes && this.readSizes == readSizes && writeCalls == readCalls == 0
      ensures this.openOk == openOk && this.fsyncOk == fsyncOk && this.renameOk == renameOk && this.unlinkOk == unlinkOk
    {
      this.files, history := files, [files];
      this.writeSizes, this.readSizes := writeSizes, readSizes;
      writeCalls, readCalls := 0, 0;
      this.openOk, this.fsyncOk, this.renameOk, this.unlinkOk := openOk, fsyncOk, renameOk, unlinkOk;
    }

    method OpenTruncate(p: string) returns (ok: bool)
      modifies this`files, this`history
      ensures ok == openOk
      ensures files == if ok then old(files)[p := Inode([], false)] else old(files)
      ensures history == old(history) + [files]
    {
      ok := openOk;
      if ok {
        files := files[p := Inode([], false)];
      }
      history := history + [files];
    }

    method Write(p: string, data: seq<byte>) returns (n: int)
      requires p in files && data != []
      modifies this`files, this`history, this`writeCalls
      ensures writeCalls == old(writeCalls) + 1 && n <= |data|
      ensures n == if writeSizes(old(writeCalls)) > |data| then |data| else writeSizes(old(writeCalls))
      ensures files == if n <= 0 then old(files) else old(files)[p := Inode(old(files)[p].data + data[..n], false)]
      ensures history == old(history) + [files]
    {
      n := writeSizes(writeCalls);
      if n > |data| {
        n := |data|;
      }
      writeCalls := writeCalls + 1;
      if n > 0 {
        files := files[p := Inode(files[p].data + data[..n], false)];
      }
      history := history + [files];
    }

    method Fsync(p: string) returns (ok: bool)
      requires p in files
      modifies this`files, this`history
      ensures ok == fsyncOk
      ensures files == if ok then old(files)[p := Inode(old(files)[p].data, true)] else old(files)
      ensures history == old(history) + [files]
    {
      ok := fsyncOk;
      if ok {
        files := files[p := Inode(files[p].data, true)];
      }
      history := history + [files];
    }

    method Rename(src: string, dst: string) returns (ok: bool)
      requires src in files && src != dst
      modifies this`files, this`history
      ensures ok == renameOk
      ensures files == if ok then old(files)[dst := old(files)[src]] - {src} else old(files)
      ensures history == old(history) + [files]
    {
      ok := renameOk;
      if ok {
        files := files[dst := files[src]] - {src};
      }
      history := history + [files];
    }

    method Unlink(p: string)
      modifies this`files, this`history
      ensures files == if unlinkOk then old(files) - {p} else old(files)
      ensures history == old(history) + [files]
    {
      if unlinkOk {
        files := files - {p};
      }
      history := history + [files];
    }

    method Read(p: string, at: nat, want: nat) returns (got: seq<byte>)
      requires p in files && at <= |files[p].data|
      modifies this`readCalls
      ensures readCalls == old(readCalls) + 1
      ensures var left := |files[p].data| - at;
              |got| == Max(0, Min(readSizes(old(readCalls)), Min(want, left)))
      ensures got == files[p].data[at..at + |got|]
    {
      var n := Max(0, Min(readSizes(readCalls), Min(want, |files[p].data| - at)));
      readCalls := readCalls + 1;
      got := files[p].data[at..at + n];
    }
  }

  /** Every state recorded since `from` is one that a save of `bytes` to `path` may pass through. */
  ghost predicate HistoryDuringSave(before: Disk, history: seq<Disk>, from: nat, path: string, bytes: seq<byte>) {
    from <= |history| && forall i | from <= i < |history| :: DuringSave(before, history[i], path, bytes)
  }

  // ---- Saving ----

  lemma TmpDiffers(path: string)
    ensures TmpPath(path) != path
  {
    assert |TmpPath(path)| == |path| + 4;
  }

  /** A step that touches only the temporary file stays within the save. */
  lemma TmpStep(before: Disk, now: Disk, next: Disk, path: string, bytes: seq<byte>)
    requires DuringSave(before, now, path, bytes) && SameAt(before, now, path)
    requires forall p: string | p != TmpPath(path) :: SameAt(now, next, p)
    ensures DuringSave(before, next, path, bytes) && SameAt(before, next, path)
  {
    TmpDiffers(path);
    forall p: string | p != TmpPath(path) && SameAt(before, now, p) ensures SameAt(before, next, p) {
      assert SameAt(now, next, p);
    }
  }

  /** The state of an unfinished save: only the temporary file differs, now and in all recorded states. */
  ghost predicate Saving(before: Disk, fs: FileSystem, from: nat, path: string, bytes: seq<byte>)
    reads fs
  {
    && DuringSave(before, fs.files, path, bytes) && SameAt(before, fs.files, path)
    && HistoryDuringSave(before, fs.history, from, path, bytes)
  }

  method WriteAll(fs: FileSystem, p: string, buf: seq<byte>, ghost before: Disk, ghost from: nat,
                  ghost path: string, ghost bytes: seq<byte>) returns (ok: bool)
    requires p == TmpPath(path) && p in fs.files && Saving(before, fs, from, path, bytes)
    modifies fs`files, fs`history, fs`writeCalls
    ensures old(fs.history) <= fs.history && p in fs.files && Saving(before, fs, from, path, bytes)
    ensures ok ==> fs.files[p].data == old(fs.files[p].data) + buf
    ensures (forall i: nat :: fs.writeSizes(i) > 0) ==> ok
  {
    var written := 0;
    while written < |buf|
      invariant written <= |buf| && p in fs.files
      invariant fs.files[p].data == old(fs.files[p].data) + buf[..written]
      invariant old(fs.history) <= fs.history && Saving(before, fs, from, path, bytes)
    {
      ghost var now := fs.files;
      var n := fs.Write(p, buf[written..]);
      TmpStep(before, now, fs.files, path, bytes);
      if n <= 0 {
        return false;
      }
      assert buf[..written] + buf[written..][..n] == buf[..written + n];
      written := written + n;
    }
    return true;
  }

  /** Every error path after the open: close and unlink the temporary file. */
  method Abandon(fs: FileSystem, tmp: string, ghost before: Disk, ghost from: nat, ghost path: string,
                 ghost bytes: seq<byte>)
    requires tmp == TmpPath(path) && Saving(before, fs, from, path, bytes)
    modifies fs`files, fs`history
    ensures old(fs.history) <= fs.history && Saving(before, fs, from, path, bytes)
  {
    ghost var now := fs.files;
    fs.Unlink(tmp);
    TmpStep(before, now, fs.files, path, bytes);
  }

  /**
   Writes <path>.tmp, fsyncs it and renames it over <path>. In every state on the way <path> is the
   old file or the complete, fsynced new one, and no file other than <path>.tmp is touched.
   */
  method SaveKvToFile(fs: FileSystem, path: string, hdr: Header, tokens: seq<u32>, body: seq<byte>) returns (ok: bool)
    requires hdr.WellFormed()
    modifies fs`files, fs`history, fs`writeCalls
    ensures old(fs.history) <= fs.history
    ensures HistoryDuringSave(old(fs.files), fs.history, |old(fs.history)|, path, FileBytes(hdr, tokens, body))
    ensures DuringSave(old(fs.files), fs.files, path, FileBytes(hdr, tokens, body))
    ensures ok ==> path in fs.files && fs.files[path] == Inode(FileBytes(hdr, tokens, body), true)
    ensures ok ==> TmpPath(path) !in fs.files && hdr.bodyBytes == |body| && hdr.usedTokens == |tokens|
    ensures !ok ==> SameAt(old(fs.files), fs.files, path)
    ensures SaveMustSucceed(fs, old(fs.writeCalls), hdr, tokens, body) ==> ok
  {
    ghost var before, from, bytes := fs.files, |fs.history|, FileBytes(hdr, tokens, body);
    if hdr.bodyBytes != |body| { return false; }
    if hdr.usedTokens != |tokens| { return false; }
    var tmp := TmpPath(path);
    TmpDiffers(path);
    FileParts(hdr, tokens, body);

    var openedOk := fs.OpenTruncate(tmp);
    TmpStep(before, before, fs.files, path, bytes);
    if !openedOk { return false; }
    var written := WriteParts(fs, path, EncodeHeader(hdr), EncodeU32s(tokens), body, before, from, bytes);
    if !written { return false; }
    ok := Publish(fs, path, before, from, bytes);
  }

  /** Header in one write, then the tokens if there are any, then the body. */
  method WriteParts(fs: FileSystem, path: string, hdr: seq<byte>, tokens: seq<byte>, body: seq<byte>,
                    ghost before: Disk, ghost from: nat, ghost bytes: seq<byte>) returns (ok: bool)
    requires |hdr| == HEADER_BYTES
    requires TmpPath(path) in fs.files && fs.files[TmpPath(path)].data == []
    requires Saving(before, fs, from, path, bytes)
    modifies fs`files, fs`history, fs`writeCalls
    ensures old(fs.history) <= fs.history && Saving(before, fs, from, path, bytes)
    ensures ok ==> TmpPath(path) in fs.files && fs.files[TmpPath(path)].data == hdr + tokens + body
    ensures (fs.writeSizes(old(fs.writeCalls)) >= HEADER_BYTES && (forall i: nat :: fs.writeSizes(i) > 0)) ==> ok
  {
    var tmp := TmpPath(path);
    ghost var now := fs.files;
    var n := fs.Write(tmp, hdr);
    TmpStep(before, now, fs.files, path, bytes);
    if n != HEADER_BYTES {
      Abandon(fs, tmp, before, from, path, bytes);
      return false;
    }
    assert fs.files[tmp].data == hdr;
    if |tokens| > 0 {
      var tokensOk := WriteAll(fs, tmp, tokens, before, from, path, bytes);
      if !tokensOk {
        Abandon(fs, tmp, before, from, path, bytes);
        return false;
      }
    }
    var bodyOk := WriteAll(fs, tmp, body, before, from, path, bytes);
    if !bodyOk {
      Abandon(fs, tmp, before, from, path, bytes);
      return false;
    }
    return true;
  }

  /** fsync and rename: the complete temporary file becomes the file at `path` in one step. */
  method Publish(fs: FileSystem, path: string, ghost before: Disk, ghost from: nat, ghost bytes: seq<byte>)
    returns (ok: bool)
    requires TmpPath(path) in fs.files && fs.files[TmpPath(path)].data == bytes
    requires Saving(before, fs, from, path, bytes)
    modifies fs`files, fs`history
    ensures old(fs.history) <= fs.history && HistoryDuringSave(before, fs.history, from, path, bytes)
    ensures DuringSave(before, fs.files, path, bytes)
    ensures ok == (fs.fsyncOk && fs.renameOk)
    ensures ok ==> path in fs.files && fs.files[path] == Inode(bytes, true) && TmpPath(path) !in fs.files
    ensures !ok ==> SameAt(before, fs.files, path)
  {
    var tmp := TmpPath(path);
    TmpDiffers(path);
    ghost var now := fs.files;
    var syncedOk := fs.Fsync(tmp);
    TmpStep(before, now, fs.files, path, bytes);
    if !syncedOk {
      Abandon(fs, tmp, before, from, path, bytes);
      return false;
    }
    now := fs.files;
    var renamedOk := fs.Rename(tmp, path);
    if !renamedOk {
      Abandon(fs, tmp, before, from, path, bytes);
      return false;
    }
    forall p: string | p != path && p != tmp ensures SameAt(before, fs.files, p) {
      assert SameAt(before, now, p);
    }
    return true;
  }

  /** The calls of a save that all succeed: no short header write and no write that moves nothing. */
  ghost predicate SaveMustSucceed(fs: FileSystem, calls: nat, hdr: Header, tokens: seq<u32>, body: seq<byte>) {
    && hdr.bodyBytes == |body| && hdr.usedTokens == |tokens|
    && fs.openOk && fs.fsyncOk && fs.renameOk
    && fs.writeSizes(calls) >= HEADER_BYTES && (forall i: nat :: fs.writeSizes(i) > 0)
  }

  // ---- Loading ----

  method ReadAll(fs: FileSystem, p: string, at: nat, bytes: nat) returns (buf: Option<seq<byte>>)
    requires p in fs.files && at <= |fs.files[p].data|
    modifies fs`readCalls
    ensures buf.Some? ==> at + bytes <= |fs.files[p].data| && buf.value == fs.files[p].data[at..at + bytes]
    ensures (at + bytes <= |fs.files[p].data| && forall i: nat :: fs.readSizes(i) > 0) ==> buf.Some?
  {
    ghost var data := fs.files[p].data;
    var acc: seq<byte> := [];
    while |acc| < bytes
      invariant |acc| <= bytes && at + |acc| <= |data| && acc == data[at..at + |acc|]
      decreases bytes - |acc|
    {
      var got := fs.Read(p, at + |acc|, bytes - |acc|);
      if |got| == 0 {
        return None;
      }
      assert data[at..at + |acc|] + data[at + |acc|..at + |acc| + |got|] == data[at..at + |acc| + |got|];
      acc := acc + got;
    }
    return Some(acc);
  }

  method LoadKvFromFile(fs: FileSystem, path: string, capacity: nat) returns (r: Option<Loaded>)
    modifies fs`readCalls
    ensures r.Some? ==> path in fs.files && r == Parse(fs.files[path].data, capacity)
    ensures path in fs.files && ReadsMakeProgress(fs, old(fs.readCalls)) ==> r == Parse(fs.files[path].data, capacity)
  {
    if path !in fs.files { return None; }
    var f := fs.files[path].data;
    var head := fs.Read(path, 0, HEADER_BYTES);
    if |head| != HEADER_BYTES { return None; }
    assert head == f[..HEADER_BYTES];
    var hdr := DecodeHeader(head);
    if hdr.magic != KVCACHE_MAGIC { return None; }
    if hdr.version != KVCACHE_VERSION { return None; }
    if hdr.bodyBytes > capacity { return None; }
    var tokensBytes := hdr.usedTokens * 4;
    if |f| != ExpectedSize(hdr) { return None; }
    var tokens: seq<u32> := [];
    if hdr.usedTokens > 0 {
      var tokenBuf := ReadAll(fs, path, HEADER_BYTES, tokensBytes);
      if tokenBuf.None? { return None; }
      tokens := DecodeU32s(tokenBuf.value);
    }
    var body := ReadAll(fs, path, HEADER_BYTES + tokensBytes, hdr.bodyBytes);
    if body.None? { return None; }
    return Some(Loaded(hdr, tokens, body.value));
  }

  /** No read call fails or returns early with nothing, and the header comes in one piece. */
  ghost predicate ReadsMakeProgress(fs: FileSystem, calls: nat) {
    fs.readSizes(calls) >= HEADER_BYTES && forall i: nat :: fs.readSizes(i) > 0
  }

  method PeekKvHeader(fs: FileSystem, path: string) returns (r: Option<Header>)
    modifies fs`readCalls
    ensures r.Some? ==> path in fs.files && r == Peek(fs.files[path].data)
    ensures path in fs.files && fs.readSizes(old(fs.readCalls)) >= HEADER_BYTES ==> r == Peek(fs.files[path].data)
  {
    if path !in fs.files { return None; }
    var f := fs.files[path].data;
    var head := fs.Read(path, 0, HEADER_BYTES);
    if |head| != HEADER_BYTES { return None; }
    assert head == f[..HEADER_BYTES];
    var hdr := DecodeHeader(head);
    if hdr.magic != KVCACHE_MAGIC { return None; }
    if hdr.version != KVCACHE_VERSION { return None; }
    if |f| != ExpectedSize(hdr) { return None; }
    return Some(hdr);
  }

  // ---- Conversation ids and paths ----

  predicate ValidIdChar(c: char) {
    'a' <= c <= 'z' || 'A' <= c <= 'Z' || '0' <= c <= '9' || c == '_' || c == '-'
  }

  predicate ValidateConversationId(id: string) {
    id == "" || (|id| <= 64 && forall i | 0 <= i < |id| :: ValidIdChar(id[i]))
  }

  function PathForConvId(dir: string, id: string): string {
    if dir == "" || id == "" then ""
    else if dir[|dir| - 1] == '/' then dir + id + ".bin"
    else dir + "/" + id + ".bin"
  }

  /** Two conversations never share a file, and no conversation's file is another's temporary file. */
  lemma PathsDistinct(dir: string, a: string, b: string)
    requires dir != "" && a != "" && b != ""
    ensures PathForConvId(dir, a) == PathForConvId(dir, b) ==> a == b
    ensures PathForConvId(dir, a) != TmpPath(PathForConvId(dir, b))
  {
    var root := if dir[|dir| - 1] == '/' then dir else dir + "/";
    var pa, pb := PathForConvId(dir, a), PathForConvId(dir, b);
    assert pa == root + a + ".bin" && pb == root + b + ".bin";
    if pa == pb {
      assert |a| == |b|;
      assert a == pa[|root|..|root| + |a|] == pb[|root|..|root| + |b|] == b;
    }
    assert pa[|pa| - 1] == 'n' && TmpPath(pb)[|TmpPath(pb)| - 1] == 'p';
  }

  /** A valid id is at most 64 letters, digits, underscores and hyphens, so its file lies directly in the directory. */
  lemma ValidIdsStayInside(dir: string, id: string)
    requires ValidateConversationId(id) && id != "" && dir != ""
    ensures |id| <= 64 && '/' !in id && '.' !in id
    ensures forall c | c in id :: 'a' <= c <= 'z' || 'A' <= c <= 'Z' || '0' <= c <= '9' || c == '_' || c == '-'
    ensures PathForConvId(dir, id) == dir + (if dir[|dir| - 1] == '/' then "" else "/") + id + ".bin"
  {
  }
}
