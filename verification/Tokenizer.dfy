/**
 Encoding text as token ids and decoding them back.

 The vocabulary is given; its tables are built as the loader builds them. For a byte-level vocabulary
 `RoundTrip` says exactly when decoding undoes encoding, in both encoding modes.
 */
module Tokenizers {
  import opened Common
  import opened ByteText
  import opened Pretokenizer
  import opened Bpe

  datatype Special = Special(text: Str, id: int)

  /** Special tokens found in the text, and the plain runs between them as [from, to). */
  datatype Segment = Marker(special: Special) | Plain(from: nat, to: nat)

  datatype Tokenizer = Tokenizer(
    vocab: seq<Str>, ids: map<Str, int>, specials: seq<Special>, ranks: Ranks, maxTokenLen: nat,
    byteEncode: bool, bos: int, eos: int, addBos: bool, addEos: bool,
    scanHex: Str -> Option<byte>)
  {
    predicate InVocab(id: int) { 0 <= id < |vocab| }

    /** What loading leaves: ids and special tokens point at their own vocabulary entries. */
    predicate Loaded() {
      && (forall s | s in ids :: InVocab(ids[s]) && vocab[ids[s]] == s && |s| <= maxTokenLen)
      && (forall k | 0 <= k < |specials| ::
            specials[k].text != [] && InVocab(specials[k].id) && vocab[specials[k].id] == specials[k].text)
    }

    // ---- Encoding: byte-pair mode ----

    /** The token of s, if it has one. */
    function Lookup(s: Str): seq<int> { if s in ids then [ids[s]] else [] }

    function LookupAll(parts: seq<Str>): seq<int> {
      if parts == [] then [] else Lookup(parts[0]) + LookupAll(parts[1..])
    }

    /** A symbol without a token falls back to the tokens of its codepoints. */
    function SymbolTokens(sym: Str): seq<int> { if sym in ids then [ids[sym]] else LookupAll(SplitUtf8(sym)) }

    function SymbolsTokens(symbols: seq<Str>): seq<int> {
      if symbols == [] then [] else SymbolTokens(symbols[0]) + SymbolsTokens(symbols[1..])
    }

    // ---- Encoding: longest-match mode ----

    /** The longest prefix of at most len bytes that is a token; 0 when there is none. */
    function LongestLen(rest: Str, len: nat): (l: nat)
      requires len <= |rest|
      ensures l <= len && (l > 0 ==> rest[..l] in ids)
      ensures forall k | l < k <= len :: rest[..k] !in ids
    {
      if len == 0 then 0 else if rest[..len] in ids then len else LongestLen(rest, len - 1)
    }

    function MatchLen(rest: Str): (l: nat)
      ensures l <= |rest| && (l > 0 ==> rest[..l] in ids)
    {
      LongestLen(rest, Min(maxTokenLen, |rest|))
    }

    function LongestTokens(rest: Str): seq<int>
      decreases |rest|
    {
      if rest == [] then []
      else
        var l := MatchLen(rest);
        if l > 0 then [ids[rest[..l]]] + LongestTokens(rest[l..]) else LongestTokens(rest[HeadLen(rest)..])
    }

    // ---- Encoding: pieces, segments, text ----

    function PieceTokens(raw: Str): seq<int> {
      var piece := if byteEncode then EncodeBytes(raw) else raw;
      if ranks == map[] then LongestTokens(piece) else SymbolsTokens(Merged(ranks, SplitUtf8(piece)))
    }

    function PiecesTokens(pieces: seq<Str>): seq<int> {
      if pieces == [] then [] else PieceTokens(pieces[0]) + PiecesTokens(pieces[1..])
    }

    /** The first special token of the list, from the k-th on, that starts at p. */
    function SpecialFrom(text: Str, p: nat, k: nat): (s: Option<Special>)
      requires k <= |specials|
      ensures s.Some? ==> s.value in specials[k..] && StartsAt(text, p, s.value.text)
      ensures s.None? ==> forall j | k <= j < |specials| :: !StartsAt(text, p, specials[j].text)
      decreases |specials| - k
    {
      if k == |specials| then None
      else if StartsAt(text, p, specials[k].text) then Some(specials[k])
      else SpecialFrom(text, p, k + 1)
    }

    function SpecialAt(text: Str, p: nat): (s: Option<Special>)
      ensures s.Some? ==> s.value in specials && StartsAt(text, p, s.value.text)
    {
      SpecialFrom(text, p, 0)
    }

    /** The first position from `scan` on where a special token starts, or the end of the text. */
    function NextSpecial(text: Str, scan: nat): (next: nat)
      requires scan <= |text|
      ensures scan <= next <= |text|
      ensures forall p | scan <= p < next :: SpecialAt(text, p).None?
      ensures next < |text| ==> SpecialAt(text, next).Some?
      decreases |text| - scan
    {
      if scan == |text| || SpecialAt(text, scan).Some? then scan else NextSpecial(text, scan + 1)
    }

    function Segments(text: Str, p: nat): seq<Segment>
      requires Loaded() && p <= |text|
      decreases |text| - p
    {
      if p == |text| then []
      else match SpecialAt(text, p)
        case Some(sp) => [Marker(sp)] + Segments(text, p + |sp.text|)
        case None => var next := NextSpecial(text, p + 1); [Plain(p, next)] + Segments(text, next)
    }

    function SegmentTokens(text: Str, seg: Segment): seq<int> {
      match seg
      case Marker(sp) => [sp.id]
      case Plain(a, b) => if a <= b <= |text| then PiecesTokens(Pieces(text[a..b], 0)) else []
    }

    function SegmentsTokens(text: Str, segs: seq<Segment>): seq<int> {
      if segs == [] then [] else SegmentTokens(text, segs[0]) + SegmentsTokens(text, segs[1..])
    }

    /** The tokens of the text itself, without the added markers. */
    function Body(text: Str): seq<int>
      requires Loaded()
    {
      SegmentsTokens(text, Segments(text, 0))
    }

    function Encoded(text: Str): seq<int>
      requires Loaded()
    {
      (if addBos then [bos] else []) + Body(text) + (if addEos then [eos] else [])
    }

    // ---- Decoding ----

    predicate HexForm(tok: Str) { |tok| == 6 && tok[0] == 60 && tok[1] == 48 && tok[2] == 120 }

    /** The bytes of one codepoint of a token: the byte it is the symbol of, or itself. */
    function CodepointBytes(dec: map<Str, byte>, cp: Str): Str { if cp in dec then [dec[cp]] else cp }

    function CodepointsBytes(dec: map<Str, byte>, cps: seq<Str>): Str {
      if cps == [] then [] else CodepointBytes(dec, cps[0]) + CodepointsBytes(dec, cps[1..])
    }

    function TokenBytes(tok: Str): Str {
      if HexForm(tok) && scanHex(tok).Some? then [scanHex(tok).value]
      else if !byteEncode || tok == [] then tok
      else
        var dec, cps := Decoder(256), SplitUtf8(tok);
        if cps[0] !in dec then tok else CodepointsBytes(dec, cps)
    }

    function DecodedId(id: int): Str { if InVocab(id) then TokenBytes(vocab[id]) else [] }

    /** All ids decoded, end to end. */
    function Surface(tokens: seq<int>): Str {
      if tokens == [] then [] else DecodedId(tokens[0]) + Surface(tokens[1..])
    }

    /** The source's decoder of a list, which leaves out bos and eos. */
    function Decoded(tokens: seq<int>): Str {
      if tokens == [] then []
      else (if tokens[0] != bos && tokens[0] != eos then DecodedId(tokens[0]) else []) + Decoded(tokens[1..])
    }

    // ---- Segmentation ----

    function SegmentText(text: Str, seg: Segment): Str {
      match seg
      case Marker(sp) => sp.text
      case Plain(a, b) => if a <= b <= |text| then text[a..b] else []
    }

    function SegmentsText(text: Str, segs: seq<Segment>): Str {
      if segs == [] then [] else SegmentText(text, segs[0]) + SegmentsText(text, segs[1..])
    }

    /** A plain run is nonempty and no special token starts anywhere in it. */
    predicate ProperSegment(text: Str, seg: Segment) {
      match seg
      case Marker(sp) => sp in specials
      case Plain(a, b) => a < b <= |text| && forall p, k | a <= p < b && 0 <= k < |specials| :: !StartsAt(text, p, specials[k].text)
    }

    /** The segments put the text back together. */
    lemma {:induction false} SegmentsPartition(text: Str, p: nat)
      requires Loaded() && p <= |text|
      ensures SegmentsText(text, Segments(text, p)) == text[p..]
      decreases |text| - p
    {
      if p < |text| {
        hide *;
        var seg, next := FirstSegment(text, p);
        SegmentsPartition(text, next);
        SegmentsTextCons(text, seg, Segments(text, next));
        Glue(text, p, next);
      } else {
        assert text[p..] == [];
      }
    }

    lemma Glue(text: Str, p: nat, next: nat)
      requires p <= next <= |text|
      ensures text[p..next] + text[next..] == text[p..]
    {
    }

    /** Each is a special token, or a nonempty run in which none starts. */
    lemma {:induction false} SegmentsProper(text: Str, p: nat)
      requires Loaded() && p <= |text|
      ensures forall seg | seg in Segments(text, p) :: ProperSegment(text, seg)
      decreases |text| - p
    {
      if p < |text| {
        hide *;
        var seg, next := FirstSegment(text, p);
        SegmentsProper(text, next);
      }
    }

    lemma SegmentsTextCons(text: Str, seg: Segment, rest: seq<Segment>)
      ensures SegmentsText(text, [seg] + rest) == SegmentText(text, seg) + SegmentsText(text, rest)
    {
      assert ([seg] + rest)[0] == seg && ([seg] + rest)[1..] == rest;
    }

    lemma FirstSegment(text: Str, p: nat) returns (seg: Segment, next: nat)
      requires Loaded() && p < |text|
      ensures p < next <= |text| && SegmentText(text, seg) == text[p..next] && ProperSegment(text, seg)
      ensures Segments(text, p) == [seg] + Segments(text, next)
    {
      hide StartsAt, NextSpecial;
      match SpecialAt(text, p)
      case Some(sp) =>
        SpecialFits(text, p, sp);
        seg, next := Marker(sp), p + |sp.text|;
      case None =>
        next := NextSpecial(text, p + 1);
        seg := Plain(p, next);
        NoSpecialStarts(text, p, next);
    }

    /** The loader sorts the special tokens by length, longest first. */
    predicate LongestFirst() { Descending(specials) }

    /** So where several special tokens start, the scan takes a longest one. */
    lemma {:induction false} SpecialIsLongest(text: Str, p: nat, k: nat)
      requires LongestFirst() && k <= |specials| && SpecialFrom(text, p, k).Some?
      ensures forall j | k <= j < |specials| && StartsAt(text, p, specials[j].text) ::
                |specials[j].text| <= |SpecialFrom(text, p, k).value.text|
      decreases |specials| - k
    {
      if !StartsAt(text, p, specials[k].text) {
        SpecialIsLongest(text, p, k + 1);
      }
    }

    lemma SpecialFits(text: Str, p: nat, sp: Special)
      requires Loaded() && SpecialAt(text, p) == Some(sp)
      ensures sp in specials && p < p + |sp.text| <= |text| && text[p..p + |sp.text|] == sp.text
    {
    }

    lemma NoSpecialStarts(text: Str, a: nat, b: nat)
      requires forall p | a <= p < b :: SpecialAt(text, p).None?
      ensures forall p, k | a <= p < b && 0 <= k < |specials| :: !StartsAt(text, p, specials[k].text)
    {
      forall p, k | a <= p < b && 0 <= k < |specials| ensures !StartsAt(text, p, specials[k].text) {
        assert SpecialAt(text, p).None?;
      }
    }

    // ---- Round trip ----

    /** A byte-level vocabulary: every byte has a token, and no token is a disguised byte escape. */
    predicate ByteLevel() {
      && byteEncode
      && (forall b: byte :: Symbol(b) in ids)
      && (forall t | t in vocab :: !HexForm(t))
      && (forall sp | sp in specials :: forall i | 0 <= i < |sp.text| :: sp.text[i] < 128 && (i == 0 ==> Printable(sp.text[i])))
      && (ranks == map[] ==> forall s | s in ids :: Whole(s))
    }

    /** The tokens decode to raw, each to at least one byte. */
    ghost predicate Spells(tokens: seq<int>, raw: Str) {
      Surface(tokens) == raw && forall id | id in tokens :: InVocab(id) && DecodedId(id) != []
    }

    lemma SpellsNone()
      ensures Spells([], [])
    {
    }

    lemma SpellsOne(id: int, raw: Str)
      requires InVocab(id) && DecodedId(id) == raw != []
      ensures Spells([id], raw)
    {
      assert Surface([id][1..]) == [];
    }

    lemma {:induction false} SpellsAppend(a: seq<int>, s: Str, b: seq<int>, t: Str)
      requires Spells(a, s) && Spells(b, t)
      ensures Spells(a + b, s + t)
      decreases |a|
    {
      hide DecodedId, InVocab;
      if a == [] {
        assert a + b == b && s + t == t;
      } else {
        SpellsAppend(a[1..], Surface(a[1..]), b, t);
        assert (a + b)[0] == a[0] && (a + b)[1..] == a[1..] + b;
        assert DecodedId(a[0]) + (Surface(a[1..]) + t) == s + t;
      }
    }

    /** Symbols decode to their bytes, one each. */
    lemma {:induction false} SymbolsDecode(dec: map<Str, byte>, cps: seq<Str>, raw: Str)
      requires forall b: byte :: Symbol(b) in dec && dec[Symbol(b)] == b
      requires |cps| == |raw| && forall i | 0 <= i < |raw| :: cps[i] == Symbol(raw[i])
      ensures CodepointsBytes(dec, cps) == raw
    {
      hide Symbol;
      if raw != [] {
        SymbolsDecode(dec, cps[1..], raw[1..]);
        assert [raw[0]] + raw[1..] == raw;
      }
    }

    lemma TokenOfEncoded(raw: Str)
      requires byteEncode && raw != [] && !HexForm(EncodeBytes(raw))
      ensures TokenBytes(EncodeBytes(raw)) == raw
    {
      hide Symbol, Decoder, HexForm;
      var dec, cps := Decoder(256), SplitUtf8(EncodeBytes(raw));
      SplitOfEncoded(raw);
      DecoderKnows();
      SymbolsDecode(dec, cps, raw);
      assert cps[0] == Symbol(raw[0]);
    }

    lemma DecoderKnows()
      ensures forall b: byte :: Symbol(b) in Decoder(256) && Decoder(256)[Symbol(b)] == b
    {
    }

    /** The token of some encoded bytes spells those bytes. */
    lemma EncodedTokenSpells(raw: Str)
      requires Loaded() && ByteLevel() && raw != [] && EncodeBytes(raw) in ids
      ensures Spells([ids[EncodeBytes(raw)]], raw)
    {
      hide Symbol, HexForm, TokenBytes;
      TokenOfEncoded(raw);
      SpellsOne(ids[EncodeBytes(raw)], raw);
    }

    lemma EncodeOne(b: byte)
      ensures EncodeBytes([b]) == Symbol(b)
    {
      hide Symbol;
      assert EncodeBytes([b][1..]) == [];
    }

    // Longest-match mode.

    lemma {:induction false} LongestSpells(raw: Str)
      requires Loaded() && ByteLevel() && ranks == map[]
      ensures Spells(LongestTokens(EncodeBytes(raw)), raw)
      decreases |raw|
    {
      hide *;
      if raw == [] {
        NoBytes(raw);
      } else {
        var n := FirstMatch(raw);
        var head, tail := [ids[EncodeBytes(raw[..n])]], LongestTokens(EncodeBytes(raw[n..]));
        LongestSpells(raw[n..]);
        EncodedTokenSpells(raw[..n]);
        SpellsAppend(head, raw[..n], tail, raw[n..]);
        assert raw[..n] + raw[n..] == raw;
      }
    }

    lemma NoBytes(raw: Str)
      requires raw == []
      ensures Spells(LongestTokens(EncodeBytes(raw)), raw)
    {
    }

    /** The first match is the token of the first few bytes, and the rest is encoded on its own. */
    lemma FirstMatch(raw: Str) returns (n: nat)
      requires Loaded() && ByteLevel() && ranks == map[] && raw != []
      ensures 0 < n <= |raw| && EncodeBytes(raw[..n]) in ids
      ensures LongestTokens(EncodeBytes(raw)) == [ids[EncodeBytes(raw[..n])]] + LongestTokens(EncodeBytes(raw[n..]))
    {
      hide EncodeBytes, Loaded, ByteLevel, Whole, MatchLen;
      SomeMatch(raw);
      n := WholePrefix(raw, MatchLen(EncodeBytes(raw)));
    }

    /** The first symbol is always a candidate, so some match is found, and it ends at a codepoint. */
    lemma SomeMatch(raw: Str)
      requires Loaded() && ByteLevel() && ranks == map[] && raw != []
      ensures var rest := EncodeBytes(raw);
              rest != [] && MatchLen(rest) > 0 && rest[..MatchLen(rest)] in ids && Whole(rest[..MatchLen(rest)])
    {
      hide Symbol, HexForm, Whole;
      var rest, sym := EncodeBytes(raw), Symbol(raw[0]);
      assert rest[..|sym|] == sym;
      assert sym in ids;
    }

    // Byte-pair mode.

    lemma {:induction false} LookupSpells(raw: Str)
      requires Loaded() && ByteLevel()
      ensures Spells(LookupAll(SplitUtf8(EncodeBytes(raw))), raw)
    {
      if raw == [] {
        SpellsNone();
      } else {
        var sym, rest := Symbol(raw[0]), EncodeBytes(raw[1..]);
        SymbolWhole(raw[0]);
        SplitAppend(sym, rest);
        EncodeOne(raw[0]);
        LookupSpells(raw[1..]);
        EncodedTokenSpells([raw[0]]);
        LookupCons(sym, SplitUtf8(rest));
        hide *;
        SpellsAppend([ids[sym]], [raw[0]], LookupAll(SplitUtf8(rest)), raw[1..]);
        assert [raw[0]] + raw[1..] == raw;
      }
    }

    lemma LookupCons(sym: Str, rest: seq<Str>)
      requires sym in ids
      ensures LookupAll([sym] + rest) == [ids[sym]] + LookupAll(rest)
    {
      assert ([sym] + rest)[0] == sym && ([sym] + rest)[1..] == rest;
    }

    lemma SymbolSpells(raw: Str)
      requires Loaded() && ByteLevel() && raw != []
      ensures Spells(SymbolTokens(EncodeBytes(raw)), raw)
    {
      if EncodeBytes(raw) in ids {
        EncodedTokenSpells(raw);
      } else {
        LookupSpells(raw);
      }
    }

    lemma {:induction false} SymbolsSpell(symbols: seq<Str>, raw: Str)
      requires Loaded() && ByteLevel() && AllWhole(symbols) && Concat(symbols) == EncodeBytes(raw)
      ensures Spells(SymbolsTokens(symbols), raw)
      decreases |symbols|
    {
      hide *;
      if symbols == [] {
        NoSymbols(symbols, raw);
      } else {
        SymbolsHead(symbols);
        var head, tail := SymbolTokens(symbols[0]), SymbolsTokens(symbols[1..]);
        var n := FirstSymbol(symbols, raw);
        SymbolsSpell(symbols[1..], raw[n..]);
        SymbolSpells(raw[..n]);
        SpellsAppend(head, raw[..n], tail, raw[n..]);
        assert raw[..n] + raw[n..] == raw;
      }
    }

    lemma SymbolsHead(symbols: seq<Str>)
      requires symbols != [] && AllWhole(symbols)
      ensures AllWhole(symbols[1..])
      ensures SymbolsTokens(symbols) == SymbolTokens(symbols[0]) + SymbolsTokens(symbols[1..])
    {
    }

    /** The first symbol encodes the first few bytes, and the others the rest. */
    lemma FirstSymbol(symbols: seq<Str>, raw: Str) returns (n: nat)
      requires symbols != [] && AllWhole(symbols) && Concat(symbols) == EncodeBytes(raw)
      ensures 0 < n <= |raw| && symbols[0] == EncodeBytes(raw[..n]) && Concat(symbols[1..]) == EncodeBytes(raw[n..])
    {
      hide EncodeBytes, Concat, Whole;
      var head, tail := symbols[0], symbols[1..];
      assert symbols == [head] + tail;
      ConcatCons(head, tail);
      assert EncodeBytes(raw)[..|head|] == head && EncodeBytes(raw)[|head|..] == Concat(tail);
      n := WholePrefix(raw, |head|);
    }

    lemma NoSymbols(symbols: seq<Str>, raw: Str)
      requires symbols == [] && Concat(symbols) == EncodeBytes(raw)
      ensures Spells(SymbolsTokens(symbols), raw)
    {
    }

    // Pieces, segments, text.

    lemma PieceSpells(raw: Str)
      requires Loaded() && ByteLevel()
      ensures Spells(PieceTokens(raw), raw)
    {
      hide Loaded, Spells, EncodeBytes, Concat, Merged;
      var piece := EncodeBytes(raw);
      if ranks == map[] {
        LongestSpells(raw);
      } else {
        SplitIsWhole(raw);
        SplitPartitions(piece);
        MergedKeeps(ranks, SplitUtf8(piece));
        SymbolsSpell(Merged(ranks, SplitUtf8(piece)), raw);
      }
    }

    lemma SplitIsWhole(raw: Str)
      ensures AllWhole(SplitUtf8(EncodeBytes(raw)))
    {
      hide Symbol, Whole;
      SplitOfEncoded(raw);
      forall i | 0 <= i < |raw| ensures Whole(Symbol(raw[i])) {
        SymbolWhole(raw[i]);
      }
    }

    lemma {:induction false} PiecesSpell(pieces: seq<Str>)
      requires Loaded() && ByteLevel()
      ensures Spells(PiecesTokens(pieces), Concat(pieces))
    {
      if pieces == [] {
        SpellsNone();
      } else {
        hide Loaded, ByteLevel, Spells, Concat, PieceTokens;
        assert pieces == [pieces[0]] + pieces[1..];
        ConcatCons(pieces[0], pieces[1..]);
        PieceSpells(pieces[0]);
        PiecesSpell(pieces[1..]);
        SpellsAppend(PieceTokens(pieces[0]), pieces[0], PiecesTokens(pieces[1..]), Concat(pieces[1..]));
      }
    }

    /** A special token made of ASCII decodes to its own text. */
    lemma SpecialSpells(sp: Special)
      requires Loaded() && ByteLevel() && sp in specials
      ensures Spells([sp.id], sp.text)
    {
      hide Symbol, HexForm, Decoder;
      assert sp.text in vocab;
      AsciiSplit(sp.text);
      AsciiDecodes(SplitUtf8(sp.text), sp.text);
      AsciiSymbol(sp.text[0]);
      assert TokenBytes(sp.text) == sp.text;
      SpellsOne(sp.id, sp.text);
    }

    lemma {:induction false} AsciiSplit(t: Str)
      requires forall i | 0 <= i < |t| :: t[i] < 128
      ensures |SplitUtf8(t)| == |t| && forall i | 0 <= i < |t| :: SplitUtf8(t)[i] == [t[i]]
    {
      if t != [] {
        AsciiSplit(t[1..]);
      }
    }

    lemma AsciiSymbol(c: byte)
      requires c < 128
      ensures Printable(c) ==> [c] in Decoder(256)
      ensures [c] in Decoder(256) ==> Decoder(256)[[c]] == c
    {
      if Printable(c) {
        assert Symbol(c) == [c];
      }
    }

    lemma {:induction false} AsciiDecodes(cps: seq<Str>, t: Str)
      requires |cps| == |t| && forall i | 0 <= i < |t| :: t[i] < 128 && cps[i] == [t[i]]
      ensures CodepointsBytes(Decoder(256), cps) == t
    {
      hide Decoder;
      if t != [] {
        AsciiSymbol(t[0]);
        AsciiDecodes(cps[1..], t[1..]);
        assert [t[0]] + t[1..] == t;
      }
    }

    lemma SegmentSpells(text: Str, seg: Segment)
      requires Loaded() && ByteLevel() && ProperSegment(text, seg)
      ensures Spells(SegmentTokens(text, seg), SegmentText(text, seg))
    {
      match seg
      case Marker(sp) =>
        SpecialSpells(sp);
      case Plain(a, b) =>
        hide Loaded, ByteLevel, Spells, StartsAt;
        PiecesPartition(text[a..b], 0);
        PiecesSpell(Pieces(text[a..b], 0));
        assert text[a..b][0..] == text[a..b];
    }

    lemma {:induction false} SegmentsSpell(text: Str, segs: seq<Segment>)
      requires Loaded() && ByteLevel() && forall seg | seg in segs :: ProperSegment(text, seg)
      ensures Spells(SegmentsTokens(text, segs), SegmentsText(text, segs))
    {
      if segs == [] {
        SpellsNone();
      } else {
        hide Loaded, ByteLevel, Spells, ProperSegment, SegmentTokens, SegmentText;
        SegmentSpells(text, segs[0]);
        SegmentsSpell(text, segs[1..]);
        SpellsAppend(SegmentTokens(text, segs[0]), SegmentText(text, segs[0]), SegmentsTokens(text, segs[1..]), SegmentsText(text, segs[1..]));
      }
    }

    /** The tokens of any text spell that text. */
    lemma BodySpells(text: Str)
      requires Loaded() && ByteLevel()
      ensures Spells(Body(text), text)
    {
      hide Spells, Segments, SegmentsText, SegmentsTokens, ByteLevel;
      SegmentsPartition(text, 0);
      SegmentsProper(text, 0);
      SegmentsSpell(text, Segments(text, 0));
      assert text[0..] == text;
    }

    /** The list decoder loses bytes exactly when bos or eos is among the tokens. */
    lemma {:induction false} DecodedSpelling(tokens: seq<int>, raw: Str)
      requires Spells(tokens, raw)
      ensures |Decoded(tokens)| <= |raw|
      ensures Decoded(tokens) == raw <==> bos !in tokens && eos !in tokens
      decreases |tokens|
    {
      hide DecodedId, InVocab;
      if tokens != [] {
        var rest := Surface(tokens[1..]);
        DecodedSpelling(tokens[1..], rest);
        assert raw == DecodedId(tokens[0]) + rest;
        assert tokens[0] in tokens;
        assert forall id :: id in tokens <==> id == tokens[0] || id in tokens[1..];
        if tokens[0] != bos && tokens[0] != eos {
          assert raw[|DecodedId(tokens[0])|..] == rest;
          assert Decoded(tokens)[|DecodedId(tokens[0])|..] == Decoded(tokens[1..]);
        }
      }
    }

    lemma {:induction false} DecodedAppend(a: seq<int>, b: seq<int>)
      ensures Decoded(a + b) == Decoded(a) + Decoded(b)
    {
      hide DecodedId;
      if a == [] {
        assert a + b == b;
      } else {
        assert (a + b)[0] == a[0] && (a + b)[1..] == a[1..] + b;
        DecodedAppend(a[1..], b);
      }
    }

    lemma MarkersVanish(text: Str)
      requires Loaded()
      ensures Decoded(Encoded(text)) == Decoded(Body(text))
    {
      hide Body, DecodedId;
      var front, back := if addBos then [bos] else [], if addEos then [eos] else [];
      MarkerVanishes(bos);
      MarkerVanishes(eos);
      hide Decoded;
      DecodedAppend(front + Body(text), back);
      DecodedAppend(front, Body(text));
    }

    lemma MarkerVanishes(id: int)
      requires id == bos || id == eos
      ensures Decoded([id]) == [] && Decoded([]) == []
    {
      assert [id][1..] == [];
    }

    /** Decoding undoes encoding exactly for the texts whose own tokens include neither bos nor eos. */
    lemma RoundTrip(text: Str)
      requires Loaded() && ByteLevel()
      ensures Decoded(Encoded(text)) == text <==> bos !in Body(text) && eos !in Body(text)
    {
      hide Spells, Body, Encoded, ByteLevel;
      BodySpells(text);
      MarkersVanish(text);
      DecodedSpelling(Body(text), text);
    }

    ghost predicate Occurs(text: Str, s: Str) { exists p: nat :: StartsAt(text, p, s) }

    lemma {:induction false} TokenOccurs(tokens: seq<int>, raw: Str, id: int)
      requires Surface(tokens) == raw && id in tokens
      ensures Occurs(raw, DecodedId(id))
      decreases |tokens|
    {
      hide DecodedId;
      var head, rest := DecodedId(tokens[0]), Surface(tokens[1..]);
      if id == tokens[0] {
        assert StartsAt(raw, 0, head);
      } else {
        TokenOccurs(tokens[1..], rest, id);
        var p: nat :| StartsAt(rest, p, DecodedId(id));
        assert raw[|head| + p..|head| + p + |DecodedId(id)|] == rest[p..p + |DecodedId(id)|];
        assert StartsAt(raw, |head| + p, DecodedId(id));
      }
    }

    /** In particular every text that shows neither marker survives. */
    lemma PlainTextSurvives(text: Str)
      requires Loaded() && ByteLevel()
      requires InVocab(bos) ==> !Occurs(text, DecodedId(bos))
      requires InVocab(eos) ==> !Occurs(text, DecodedId(eos))
      ensures Decoded(Encoded(text)) == text
    {
      hide Body, Encoded, ByteLevel, Occurs, DecodedId;
      BodySpells(text);
      RoundTrip(text);
      if bos in Body(text) {
        TokenOccurs(Body(text), text, bos);
      }
      if eos in Body(text) {
        TokenOccurs(Body(text), text, eos);
      }
    }

    /** A text that is the bos token itself is lost, whatever the vocabulary. */
    lemma MarkerTextIsLost(sp: Special)
      requires Loaded() && sp.id == bos && SpecialAt(sp.text, 0) == Some(sp)
      ensures Decoded(Encoded(sp.text)) == [] != sp.text
    {
      MarkersVanish(sp.text);
      var segs := Segments(sp.text, 0);
      assert sp in specials && sp.text != [];
      assert Segments(sp.text, |sp.text|) == [];
      assert segs == [Marker(sp)] && segs[1..] == [];
      SegmentsTokensCons(sp.text, Marker(sp), []);
      assert [Marker(sp)] + [] == segs;
      assert Body(sp.text) == [bos];
      MarkerVanishes(bos);
    }

    // ---- Which tokens a text gets ----

    /** The tokens of the listed strings that have one, in order: nothing else, and nothing twice. */
    lemma {:induction false} LookupLaw(a: seq<Str>, b: seq<Str>, s: Str)
      ensures LookupAll(a + b) == LookupAll(a) + LookupAll(b)
      ensures LookupAll([s]) == if s in ids then [ids[s]] else []
    {
      assert [s][1..] == [];
      if a == [] {
        assert a + b == b;
      } else {
        assert (a + b)[0] == a[0] && (a + b)[1..] == a[1..] + b;
        LookupLaw(a[1..], b, s);
      }
    }

    /** A symbol with a token of its own gets that token; only one without is spelled by its codepoints. */
    ghost predicate SymbolLaw(sym: Str, part: seq<int>) {
      if sym in ids then part == [ids[sym]] else part == LookupAll(SplitUtf8(sym))
    }

    /** One part for each symbol. */
    ghost predicate MergedLaw(symbols: seq<Str>, tokens: seq<int>) {
      exists parts: seq<seq<int>> :: SymbolParts(symbols, tokens, parts)
    }

    ghost predicate SymbolParts(symbols: seq<Str>, tokens: seq<int>, parts: seq<seq<int>>) {
      |parts| == |symbols| && Concat(parts) == tokens && forall i | 0 <= i < |symbols| :: SymbolLaw(symbols[i], parts[i])
    }

    lemma {:induction false} SymbolsLaw(symbols: seq<Str>) returns (parts: seq<seq<int>>)
      ensures SymbolParts(symbols, SymbolsTokens(symbols), parts)
    {
      parts := [];
      if symbols != [] {
        var rest := SymbolsLaw(symbols[1..]);
        var part := SymbolTokens(symbols[0]);
        ConcatCons(part, rest);
        assert SymbolLaw(symbols[0], part);
        hide SymbolLaw, Concat;
        parts := [part] + rest;
      }
    }

    /** When every symbol has a token there is exactly one token for each. */
    lemma {:induction false} OneTokenEach(symbols: seq<Str>)
      requires forall s | s in symbols :: s in ids
      ensures |SymbolsTokens(symbols)| == |symbols|
      ensures forall i | 0 <= i < |symbols| :: SymbolsTokens(symbols)[i] == ids[symbols[i]]
    {
      if symbols != [] {
        OneTokenEach(symbols[1..]);
      }
    }

    /** Each token is the longest one the rest of the piece starts with; a codepoint no token fits is skipped. */
    ghost predicate GreedyLaw(rest: Str, tokens: seq<int>)
      decreases |rest|
    {
      if rest == [] then tokens == []
      else if exists l | 0 < l <= |rest| :: rest[..l] in ids then
        tokens != [] && exists l | 0 < l <= |rest| :: LongestAt(rest, l) && tokens[0] == ids[rest[..l]] && GreedyLaw(rest[l..], tokens[1..])
      else GreedyLaw(rest[HeadLen(rest)..], tokens)
    }

    ghost predicate LongestAt(rest: Str, l: nat)
      requires l <= |rest|
    {
      rest[..l] in ids && forall k | l < k <= |rest| :: rest[..k] !in ids
    }

    lemma {:induction false} LongestTokensLaw(rest: Str)
      requires Loaded()
      ensures GreedyLaw(rest, LongestTokens(rest))
      decreases |rest|
    {
      if rest != [] {
        var l := MatchLen(rest);
        MatchIsLongest(rest);
        hide MatchLen, LongestAt, Loaded;
        if l > 0 {
          assert LongestTokens(rest)[1..] == LongestTokens(rest[l..]);
          LongestTokensLaw(rest[l..]);
        } else {
          LongestTokensLaw(rest[HeadLen(rest)..]);
        }
      }
    }

    lemma MatchIsLongest(rest: Str)
      requires Loaded()
      ensures var l := MatchLen(rest);
              if l > 0 then rest[..l] in ids && LongestAt(rest, l) else forall k | 0 < k <= |rest| :: rest[..k] !in ids
    {
      forall k | MatchLen(rest) < k <= |rest| ensures rest[..k] !in ids {
        var candidate := rest[..k];
        assert candidate in ids ==> |candidate| <= maxTokenLen;
      }
    }

    ghost predicate PieceLaw(raw: Str, tokens: seq<int>) {
      var piece := if byteEncode then EncodeBytes(raw) else raw;
      if ranks == map[] then GreedyLaw(piece, tokens) else MergedLaw(Merged(ranks, SplitUtf8(piece)), tokens)
    }

    ghost predicate PlainLaw(plain: Str, tokens: seq<int>) {
      exists parts: seq<seq<int>> :: PieceParts(Pieces(plain, 0), tokens, parts)
    }

    ghost predicate PieceParts(pieces: seq<Str>, tokens: seq<int>, parts: seq<seq<int>>) {
      |parts| == |pieces| && Concat(parts) == tokens && forall i | 0 <= i < |pieces| :: PieceLaw(pieces[i], parts[i])
    }

    lemma PieceTokensLaw(raw: Str)
      requires Loaded()
      ensures PieceLaw(raw, PieceTokens(raw))
    {
      hide GreedyLaw, EncodeBytes, SplitUtf8, Merged, SymbolParts, LongestTokens, SymbolsTokens;
      var piece := if byteEncode then EncodeBytes(raw) else raw;
      if ranks == map[] {
        LongestTokensLaw(piece);
      } else {
        var parts := SymbolsLaw(Merged(ranks, SplitUtf8(piece)));
      }
    }

    lemma {:induction false} PiecesLaw(pieces: seq<Str>) returns (parts: seq<seq<int>>)
      requires Loaded()
      ensures PieceParts(pieces, PiecesTokens(pieces), parts)
    {
      parts := [];
      if pieces != [] {
        hide PieceLaw, PieceTokens, Loaded;
        var rest := PiecesLaw(pieces[1..]);
        PieceTokensLaw(pieces[0]);
        ConcatCons(PieceTokens(pieces[0]), rest);
        hide Concat;
        parts := [PieceTokens(pieces[0])] + rest;
      }
    }

    ghost predicate SegmentLaw(text: Str, seg: Segment, tokens: seq<int>) {
      match seg
      case Marker(sp) => tokens == [sp.id]
      case Plain(a, b) => a <= b <= |text| && PlainLaw(text[a..b], tokens)
    }

    ghost predicate SegmentParts(text: Str, segs: seq<Segment>, tokens: seq<int>, parts: seq<seq<int>>) {
      |parts| == |segs| && Concat(parts) == tokens && forall i | 0 <= i < |segs| :: SegmentLaw(text, segs[i], parts[i])
    }

    lemma {:induction false} SegmentsLaw(text: Str, segs: seq<Segment>) returns (parts: seq<seq<int>>)
      requires Loaded() && forall seg | seg in segs :: ProperSegment(text, seg)
      ensures SegmentParts(text, segs, SegmentsTokens(text, segs), parts)
    {
      hide SegmentLaw, SegmentTokens, ProperSegment, Loaded;
      parts := [];
      if segs != [] {
        var rest := SegmentsLaw(text, segs[1..]);
        SegmentTokensLaw(text, segs[0]);
        ConcatCons(SegmentTokens(text, segs[0]), rest);
        SegmentPartsCons(text, segs, rest);
        parts := [SegmentTokens(text, segs[0])] + rest;
      }
    }

    lemma SegmentPartsCons(text: Str, segs: seq<Segment>, rest: seq<seq<int>>)
      requires segs != [] && SegmentParts(text, segs[1..], SegmentsTokens(text, segs[1..]), rest)
      requires SegmentLaw(text, segs[0], SegmentTokens(text, segs[0]))
      requires Concat([SegmentTokens(text, segs[0])] + rest) == SegmentTokens(text, segs[0]) + Concat(rest)
      ensures SegmentParts(text, segs, SegmentsTokens(text, segs), [SegmentTokens(text, segs[0])] + rest)
    {
      hide SegmentLaw, SegmentTokens, Concat;
    }

    lemma SegmentTokensLaw(text: Str, seg: Segment)
      requires Loaded() && ProperSegment(text, seg)
      ensures SegmentLaw(text, seg, SegmentTokens(text, seg))
    {
      match seg
      case Marker(sp) =>
      case Plain(a, b) =>
        hide Loaded, Pieces, PieceParts, StartsAt;
        var parts := PiecesLaw(Pieces(text[a..b], 0));
    }

    /**
     What encoding a text gives, on the tokens alone: bos and eos where configured; between them one
     token for each special token of the text, and for each word of the plain runs the tokens of its
     merged symbols, or its greedy matches when there is no merge table.
     */
    ghost predicate EncodingLaw(text: Str, tokens: seq<int>)
      requires Loaded()
    {
      exists body: seq<int>, parts: seq<seq<int>> :: EncodingParts(text, tokens, body, parts)
    }

    ghost predicate EncodingParts(text: Str, tokens: seq<int>, body: seq<int>, parts: seq<seq<int>>)
      requires Loaded()
    {
      && SegmentParts(text, Segments(text, 0), body, parts)
      && tokens == (if addBos then [bos] else []) + body + (if addEos then [eos] else [])
    }

    lemma EncodedLaw(text: Str)
      requires Loaded()
      ensures EncodingLaw(text, Encoded(text))
    {
      hide Segments, SegmentParts, SegmentsTokens;
      SegmentsProper(text, 0);
      var parts := SegmentsLaw(text, Segments(text, 0));
      assert EncodingParts(text, Encoded(text), Body(text), parts);
    }

    // ---- The encoder ----

    method LongestMatch(piece: Str) returns (tokens: seq<int>)
      requires Loaded()
      ensures tokens == LongestTokens(piece) && GreedyLaw(piece, tokens)
    {
      hide Loaded, LongestTokens, MatchLen, GreedyLaw;
      tokens := [];
      var pos := 0;
      while pos < |piece|
        invariant pos <= |piece|
        invariant tokens + LongestTokens(piece[pos..]) == LongestTokens(piece)
        decreases |piece| - pos
      {
        var bestLen := FindLongest(piece, pos);
        LongestStep(piece, pos);
        if bestLen > 0 {
          tokens := tokens + [ids[piece[pos..pos + bestLen]]];
          pos := pos + bestLen;
        } else {
          var len := Utf8Len(piece[pos]);
          if pos + len > |piece| {
            len := 1;
          }
          pos := pos + len;
        }
      }
      NothingLeft(piece, pos);
      LongestTokensLaw(piece);
    }

    lemma LongestStep(piece: Str, pos: nat)
      requires pos < |piece|
      ensures var l, n := MatchLen(piece[pos..]), HeadLen(piece[pos..]);
              && pos + l <= |piece| && pos + n <= |piece|
              && (l > 0 ==> piece[pos..pos + l] in ids
                            && LongestTokens(piece[pos..]) == [ids[piece[pos..pos + l]]] + LongestTokens(piece[pos + l..]))
              && (l == 0 ==> LongestTokens(piece[pos..]) == LongestTokens(piece[pos + n..]))
    {
      hide MatchLen, HeadLen;
      var rest := piece[pos..];
      var l, n := MatchLen(rest), HeadLen(rest);
      assert rest[l..] == piece[pos + l..] && rest[..l] == piece[pos..pos + l] && rest[n..] == piece[pos + n..];
    }

    lemma NothingLeft(piece: Str, pos: nat)
      requires pos == |piece|
      ensures LongestTokens(piece[pos..]) == []
    {
    }

    method FindLongest(piece: Str, pos: nat) returns (bestLen: nat)
      requires pos < |piece|
      ensures bestLen == MatchLen(piece[pos..])
    {
      var rest := piece[pos..];
      var len := Min(maxTokenLen, |piece| - pos);
      while len >= 1
        invariant 0 <= len <= |rest| && LongestLen(rest, len) == MatchLen(rest)
      {
        assert rest[..len] == piece[pos..pos + len];
        if piece[pos..pos + len] in ids {
          return len;
        }
        len := len - 1;
      }
      bestLen := 0;
    }

    method Fallback(sym: Str) returns (tokens: seq<int>)
      ensures tokens == LookupAll(SplitUtf8(sym))
    {
      hide SplitUtf8, LookupAll;
      tokens := [];
      var pos := 0;
      assert sym[pos..] == sym;
      while pos < |sym|
        invariant pos <= |sym|
        invariant tokens + LookupAll(SplitUtf8(sym[pos..])) == LookupAll(SplitUtf8(sym))
        decreases |sym| - pos
      {
        var len := Utf8Len(sym[pos]);
        if pos + len > |sym| {
          len := 1;
        }
        FallbackStep(sym, pos, len);
        var part := sym[pos..pos + len];
        if part in ids {
          tokens := tokens + [ids[part]];
        }
        pos := pos + len;
      }
      assert sym[pos..] == [];
      NoParts();
    }

    lemma FallbackStep(sym: Str, pos: nat, len: nat)
      requires pos < |sym| && len == HeadLen(sym[pos..])
      ensures pos + len <= |sym|
      ensures LookupAll(SplitUtf8(sym[pos..])) == Lookup(sym[pos..pos + len]) + LookupAll(SplitUtf8(sym[pos + len..]))
    {
      hide SplitUtf8, HeadLen;
      SplitFrom(sym, pos);
      var part, later := sym[pos..pos + len], SplitUtf8(sym[pos + len..]);
      assert ([part] + later)[0] == part && ([part] + later)[1..] == later;
    }

    lemma NoParts()
      ensures LookupAll(SplitUtf8([])) == []
    {
    }

    method BpeTokens(piece: Str) returns (tokens: seq<int>)
      ensures tokens == SymbolsTokens(Merged(ranks, SplitUtf8(piece)))
      ensures MergedLaw(Merged(ranks, SplitUtf8(piece)), tokens)
      ensures (forall s | s in Merged(ranks, SplitUtf8(piece)) :: s in ids) ==>
                |tokens| == |Merged(ranks, SplitUtf8(piece))|
                && forall i | 0 <= i < |tokens| :: tokens[i] == ids[Merged(ranks, SplitUtf8(piece))[i]]
    {
      hide Merged, SplitUtf8, SymbolTokens, SymbolParts;
      var split := SplitUtf8Symbols(piece);
      var symbols := MergeSymbols(ranks, split);
      tokens := [];
      for i := 0 to |symbols|
        invariant tokens + SymbolsTokens(symbols[i..]) == SymbolsTokens(symbols)
      {
        assert symbols[i..][0] == symbols[i] && symbols[i..][1..] == symbols[i + 1..];
        var t := OneSymbol(symbols[i]);
        tokens := tokens + t;
      }
      ghost var parts := SymbolsLaw(symbols);
      if forall s | s in symbols :: s in ids {
        OneTokenEach(symbols);
      }
    }

    method OneSymbol(sym: Str) returns (tokens: seq<int>)
      ensures tokens == SymbolTokens(sym)
    {
      if sym in ids {
        return [ids[sym]];
      }
      tokens := Fallback(sym);
    }

    method EncodePlain(plain: Str) returns (tokens: seq<int>)
      requires Loaded()
      ensures tokens == PiecesTokens(Pieces(plain, 0)) && PlainLaw(plain, tokens)
    {
      hide Loaded, Pieces, PieceParts, PieceTokens, PieceLaw;
      var pieces := PretokenizeAscii(plain);
      tokens := [];
      for i := 0 to |pieces|
        invariant tokens + PiecesTokens(pieces[i..]) == PiecesTokens(pieces)
      {
        assert pieces[i..][0] == pieces[i] && pieces[i..][1..] == pieces[i + 1..];
        var t := EncodePiece(pieces[i]);
        tokens := tokens + t;
      }
      ghost var parts := PiecesLaw(pieces);
    }

    method EncodePiece(raw: Str) returns (tokens: seq<int>)
      requires Loaded()
      ensures tokens == PieceTokens(raw) && PieceLaw(raw, tokens)
    {
      hide Loaded, PieceLaw, LongestTokens, SymbolsTokens, Merged, SplitUtf8, EncodeBytes;
      var piece := raw;
      if byteEncode {
        piece := EncodeBytesGpt2(piece);
      }
      if ranks == map[] {
        tokens := LongestMatch(piece);
      } else {
        tokens := BpeTokens(piece);
      }
      PieceTokensLaw(raw);
    }

    method FindSpecial(text: Str, p: nat) returns (s: Option<Special>)
      ensures s == SpecialAt(text, p)
    {
      for k := 0 to |specials|
        invariant SpecialFrom(text, p, k) == SpecialAt(text, p)
      {
        if StartsAt(text, p, specials[k].text) {
          return Some(specials[k]);
        }
      }
      s := None;
    }

    method Encode(text: Str) returns (tokens: seq<int>)
      requires Loaded()
      ensures tokens == Encoded(text) && EncodingLaw(text, tokens)
    {
      hide SegmentTokens, Segments, Loaded, SpecialAt, EncodingLaw;
      tokens := if addBos then [bos] else [];
      ghost var front := tokens;
      var pos := 0;
      while pos < |text|
        invariant pos <= |text|
        invariant tokens + SegmentsTokens(text, Segments(text, pos)) == front + Body(text)
        decreases |text| - pos
      {
        var t, next := EncodeSegment(text, pos);
        tokens := tokens + t;
        pos := next;
      }
      NoSegments(text);
      if addEos {
        tokens := tokens + [eos];
      }
      EncodedLaw(text);
    }

    /** One turn of the segment loop: a special token here, or the plain run up to the next one. */
    method EncodeSegment(text: Str, pos: nat) returns (tokens: seq<int>, next: nat)
      requires Loaded() && pos < |text|
      ensures pos < next <= |text|
      ensures SegmentsTokens(text, Segments(text, pos)) == tokens + SegmentsTokens(text, Segments(text, next))
    {
      hide *;
      var special := FindSpecial(text, pos);
      if special.Some? {
        tokens := [special.value.id];
        next := SpecialEnd(text, pos, special.value);
        MarkerHere(text, pos, special.value);
      } else {
        next := FindNextSpecial(text, pos + 1);
        tokens := EncodePlain(text[pos..next]);
        PlainHere(text, pos, next);
      }
    }

    lemma MarkerHere(text: Str, pos: nat, sp: Special)
      requires Loaded() && pos < |text| && SpecialAt(text, pos) == Some(sp) && pos < pos + |sp.text| <= |text|
      ensures SegmentsTokens(text, Segments(text, pos)) == [sp.id] + SegmentsTokens(text, Segments(text, pos + |sp.text|))
    {
      hide SpecialAt, SegmentsTokens, Loaded;
      SegmentsTokensCons(text, Marker(sp), Segments(text, pos + |sp.text|));
    }

    lemma PlainHere(text: Str, pos: nat, next: nat)
      requires Loaded() && pos < |text| && SpecialAt(text, pos).None? && next == NextSpecial(text, pos + 1)
      ensures pos < next <= |text|
      ensures SegmentsTokens(text, Segments(text, pos))
           == PiecesTokens(Pieces(text[pos..next], 0)) + SegmentsTokens(text, Segments(text, next))
    {
      hide SpecialAt, SegmentsTokens, Loaded, Pieces, PiecesTokens;
      SegmentsTokensCons(text, Plain(pos, next), Segments(text, next));
    }

    method SpecialEnd(text: Str, pos: nat, sp: Special) returns (next: nat)
      requires Loaded() && SpecialAt(text, pos) == Some(sp)
      ensures pos < next <= |text| && next == pos + |sp.text|
    {
      next := pos + |sp.text|;
    }

    method FindNextSpecial(text: Str, start: nat) returns (next: nat)
      requires start <= |text|
      ensures next == NextSpecial(text, start)
    {
      var scan := start;
      while scan < |text|
        invariant scan <= |text| && NextSpecial(text, scan) == NextSpecial(text, start)
      {
        var s := FindSpecial(text, scan);
        if s.Some? {
          return scan;
        }
        scan := scan + 1;
      }
      next := |text|;
    }

    lemma SegmentsTokensCons(text: Str, seg: Segment, rest: seq<Segment>)
      ensures SegmentsTokens(text, [seg] + rest) == SegmentTokens(text, seg) + SegmentsTokens(text, rest)
    {
      assert ([seg] + rest)[0] == seg && ([seg] + rest)[1..] == rest;
    }

    lemma NoSegments(text: Str)
      requires Loaded()
      ensures SegmentsTokens(text, Segments(text, |text|)) == []
    {
    }

    // ---- The decoder ----

    method DecodeId(id: int) returns (out: Str)
      ensures out == DecodedId(id)
      ensures !InVocab(id) ==> out == []
      ensures InVocab(id) && |vocab[id]| == 6 && vocab[id][..3] == [60, 48, 120] && scanHex(vocab[id]).Some? ==>
                out == [scanHex(vocab[id]).value]
      ensures InVocab(id) && !(|vocab[id]| == 6 && vocab[id][..3] == [60, 48, 120]) && !byteEncode ==> out == vocab[id]
    {
      hide Decoder, SplitUtf8, HexForm;
      out := [];
      if !InVocab(id) {
        return;
      }
      var tok := vocab[id];
      HexFormIs(tok);
      if HexForm(tok) {
        var v := scanHex(tok);
        if v.Some? {
          return [v.value];
        }
      }
      if !byteEncode {
        return tok;
      }
      out := DecodeSymbols(tok);
    }

    lemma HexFormIs(tok: Str)
      ensures HexForm(tok) <==> |tok| == 6 && tok[..3] == [60, 48, 120]
    {
    }

    /** What is left to decode from position pos on. */
    function BytesFrom(dec: map<Str, byte>, tok: Str, pos: nat): Str {
      if pos <= |tok| then CodepointsBytes(dec, SplitUtf8(tok[pos..])) else []
    }

    predicate FirstKnown(dec: map<Str, byte>, tok: Str) {
      var cps := SplitUtf8(tok);
      cps == [] || cps[0] in dec
    }

    method DecodeSymbols(tok: Str) returns (out: Str)
      requires byteEncode && !(HexForm(tok) && scanHex(tok).Some?)
      ensures out == TokenBytes(tok)
    {
      hide Decoder, HexForm, TokenBytes, HeadLen, BytesFrom, FirstKnown, SplitUtf8, CodepointsBytes, Utf8Len;
      var dec := ByteDecoder();
      TokenIsItsCodepoints(tok);
      var pos := 0;
      var decodedAny := false;
      out := [];
      while pos < |tok|
        invariant pos <= |tok| && (decodedAny <==> pos > 0)
        invariant out + BytesFrom(dec, tok, pos) == BytesFrom(dec, tok, 0)
        invariant pos > 0 ==> FirstKnown(dec, tok)
        decreases |tok| - pos
      {
        var cp := NextCodepoint(tok, pos);
        CodepointStep(dec, tok, pos, |cp|);
        Regroup(out, CodepointBytes(dec, cp), BytesFrom(dec, tok, pos + |cp|));
        if cp !in dec {
          if !decodedAny {
            return tok;
          }
          out := out + cp;
        } else {
          out := out + [dec[cp]];
          decodedAny := true;
        }
        pos := pos + |cp|;
      }
    }

    lemma Regroup(a: Str, b: Str, c: Str)
      ensures a + (b + c) == (a + b) + c
    {
    }

    method NextCodepoint(tok: Str, pos: nat) returns (cp: Str)
      requires pos < |tok|
      ensures |cp| == HeadLen(tok[pos..]) && pos + |cp| <= |tok| && cp == tok[pos..pos + |cp|]
    {
      var len := Utf8Len(tok[pos]);
      if pos + len > |tok| {
        len := 1;
      }
      cp := tok[pos..pos + len];
    }

    lemma TokenIsItsCodepoints(tok: Str)
      requires byteEncode && !(HexForm(tok) && scanHex(tok).Some?)
      ensures TokenBytes(tok) == if FirstKnown(Decoder(256), tok) then BytesFrom(Decoder(256), tok, 0) else tok
      ensures BytesFrom(Decoder(256), tok, |tok|) == []
    {
      hide Decoder, HexForm;
      assert tok[0..] == tok && tok[|tok|..] == [];
    }

    lemma CodepointStep(dec: map<Str, byte>, tok: Str, pos: nat, len: nat)
      requires pos < |tok| && len == HeadLen(tok[pos..])
      ensures pos + len <= |tok|
      ensures BytesFrom(dec, tok, pos) == CodepointBytes(dec, tok[pos..pos + len]) + BytesFrom(dec, tok, pos + len)
      ensures pos == 0 ==> (FirstKnown(dec, tok) <==> tok[pos..pos + len] in dec)
    {
      hide SplitUtf8, HeadLen, CodepointsBytes;
      SplitFrom(tok, pos);
      CodepointsCons(dec, tok[pos..pos + len], SplitUtf8(tok[pos + len..]));
      assert pos == 0 ==> tok[pos..] == tok;
    }

    lemma CodepointsCons(dec: map<Str, byte>, cp: Str, rest: seq<Str>)
      ensures CodepointsBytes(dec, [cp] + rest) == CodepointBytes(dec, cp) + CodepointsBytes(dec, rest)
      ensures ([cp] + rest)[0] == cp
    {
      assert ([cp] + rest)[1..] == rest;
    }

    method Decode(tokens: seq<int>) returns (result: Str)
      ensures result == Decoded(tokens)
    {
      hide DecodedId, Decoded;
      result := [];
      NoneDecoded();
      assert tokens[0..] == tokens && tokens[|tokens|..] == [];
      for i := 0 to |tokens|
        invariant result + Decoded(tokens[i..]) == Decoded(tokens)
      {
        DecodedStep(tokens, i);
        if tokens[i] != bos && tokens[i] != eos {
          var part := DecodeId(tokens[i]);
          result := result + part;
        }
      }
    }

    lemma NoneDecoded()
      ensures Decoded([]) == []
    {
    }

    lemma DecodedStep(tokens: seq<int>, i: nat)
      requires i < |tokens|
      ensures var rest := Decoded(tokens[i + 1..]);
              Decoded(tokens[i..]) == if tokens[i] != bos && tokens[i] != eos then DecodedId(tokens[i]) + rest else rest
    {
      hide DecodedId;
      assert tokens[i..][0] == tokens[i] && tokens[i..][1..] == tokens[i + 1..];
    }

    /** Running the encoder and then the decoder on any text that shows neither marker gives it back. */
    method EncodeThenDecode(text: Str) returns (back: Str)
      requires Loaded() && ByteLevel()
      ensures back == text <==> bos !in Body(text) && eos !in Body(text)
    {
      hide *;
      var tokens := Encode(text);
      back := Decode(tokens);
      RoundTrip(text);
    }
  }

  // ---- The tables the loader builds ----

  const THINK_OPEN: Str := [60, 116, 104, 105, 110, 107, 62]
  const THINK_CLOSE: Str := [60, 47, 116, 104, 105, 110, 107, 62]

  /** <|...|>, <think> or </think>. */
  predicate SpecialForm(tok: Str) {
    && |tok| >= 5
    && ((tok[..2] == [60, 124] && tok[|tok| - 2..] == [124, 62]) || tok == THINK_OPEN || tok == THINK_CLOSE)
  }

  predicate Descending(sps: seq<Special>) {
    forall j, k | 0 <= j < k < |sps| :: |sps[j].text| >= |sps[k].text|
  }

  /** The special tokens of the first n entries, longest first. */
  ghost predicate SpecialsOf(vocab: seq<Str>, n: nat, sps: seq<Special>)
    requires n <= |vocab|
  {
    && Descending(sps)
    && forall sp :: sp in sps <==> 0 <= sp.id < n && sp.text == vocab[sp.id] && SpecialForm(sp.text)
  }

  method InsertByLength(sps: seq<Special>, sp: Special) returns (r: seq<Special>)
    requires Descending(sps)
    ensures Descending(r) && forall x :: x in r <==> x == sp || x in sps
  {
    var k := 0;
    while k < |sps| && |sps[k].text| >= |sp.text|
      invariant k <= |sps| && forall j | 0 <= j < k :: |sps[j].text| >= |sp.text|
    {
      k := k + 1;
    }
    r := sps[..k] + [sp] + sps[k..];
    forall x ensures x in r <==> x == sp || x in sps {
      assert x in sps <==> x in sps[..k] || x in sps[k..];
    }
  }

  /** Every entry gets an id, the last of equal ones winning; the limit covers every entry. */
  method BuildIds(vocab: seq<Str>) returns (ids: map<Str, int>, maxTokenLen: nat)
    ensures forall s :: s in ids <==> s in vocab
    ensures forall s | s in ids :: 0 <= ids[s] < |vocab| && vocab[ids[s]] == s && |s| <= maxTokenLen
  {
    ids, maxTokenLen := map[], 0;
    for i := 0 to |vocab|
      invariant forall s :: s in ids <==> s in vocab[..i]
      invariant forall s | s in ids :: 0 <= ids[s] < i && vocab[ids[s]] == s && |s| <= maxTokenLen
    {
      assert vocab[..i + 1] == vocab[..i] + [vocab[i]];
      ids := ids[vocab[i] := i];
      maxTokenLen := Max(maxTokenLen, |vocab[i]|);
    }
    assert vocab[..|vocab|] == vocab;
  }

  method BuildSpecials(vocab: seq<Str>) returns (specials: seq<Special>)
    ensures SpecialsOf(vocab, |vocab|, specials)
  {
    hide SpecialForm, Descending;
    specials := [];
    NoSpecials();
    for i := 0 to |vocab|
      invariant SpecialsOf(vocab, i, specials)
    {
      if SpecialForm(vocab[i]) {
        specials := InsertByLength(specials, Special(vocab[i], i));
      }
    }
  }

  lemma NoSpecials()
    ensures Descending([])
  {
  }

  /** The tables of any vocabulary satisfy what encoding and decoding rely on. */
  method Load(vocab: seq<Str>, ranks: Ranks, byteEncode: bool, bos: int, eos: int, addBos: bool, addEos: bool,
              scanHex: Str -> Option<byte>) returns (t: Tokenizer)
    ensures t.Loaded() && t.LongestFirst() && t.vocab == vocab && t.ranks == ranks
    ensures forall s :: s in t.ids <==> s in vocab
    ensures SpecialsOf(vocab, |vocab|, t.specials)
  {
    var ids, maxTokenLen := BuildIds(vocab);
    var specials := BuildSpecials(vocab);
    t := Tokenizer(vocab, ids, specials, ranks, maxTokenLen, byteEncode, bos, eos, addBos, addEos, scanHex);
    forall k | 0 <= k < |specials|
      ensures specials[k].text != [] && t.InVocab(specials[k].id) && vocab[specials[k].id] == specials[k].text
    {
      assert specials[k] in specials;
    }
  }
}
