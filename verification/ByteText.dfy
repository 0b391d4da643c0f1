/**
 Text as bytes: UTF-8 (section 3 of RFC 3629), the byte-to-codepoint alphabet of byte-level BPE,
 and cutting a byte string into codepoints by their lead bytes.

 The bit operations of the source are written as the divisions and remainders they equal.
 */
module ByteText {
  import opened Common

  type Str = seq<byte>

  const BLANK: byte := 32

  // ---- UTF-8 ----

  function Utf8(cp: nat): (s: Str)
    requires cp < 0x20_0000
    ensures 1 <= |s| <= 4
  {
    if cp <= 0x7F then [cp]
    else if cp <= 0x7FF then [0xC0 + cp / 64, 0x80 + cp % 64]
    else if cp <= 0xFFFF then [0xE0 + cp / 4096, 0x80 + cp / 64 % 64, 0x80 + cp % 64]
    else [0xF0 + cp / 262144, 0x80 + cp / 4096 % 64, 0x80 + cp / 64 % 64, 0x80 + cp % 64]
  }

  function Utf8Len(lead: byte): (n: nat)
    ensures 1 <= n <= 4
  {
    if lead < 0x80 then 1
    else if 0xC0 <= lead < 0xE0 then 2
    else if 0xE0 <= lead < 0xF0 then 3
    else if 0xF0 <= lead < 0xF8 then 4
    else 1
  }

  /** The codepoint a sequence of one to four bytes stands for. */
  function Codepoint(s: Str): int
    requires 1 <= |s| <= 4
  {
    if |s| == 1 then s[0]
    else if |s| == 2 then Bits(s[0], 0xC0) * 64 + Bits(s[1], 0x80)
    else if |s| == 3 then Bits(s[0], 0xE0) * 4096 + Bits(s[1], 0x80) * 64 + Bits(s[2], 0x80)
    else Bits(s[0], 0xF0) * 262144 + Bits(s[1], 0x80) * 4096 + Bits(s[2], 0x80) * 64 + Bits(s[3], 0x80)
  }

  /** What a byte carries below its marker bits. */
  function Bits(b: int, marker: int): int { b - marker }

  /** An encoded codepoint can be read back, and its first byte tells its length. */
  lemma Utf8RoundTrip(cp: nat)
    requires cp < 0x20_0000
    ensures Codepoint(Utf8(cp)) == cp
    ensures Utf8Len(Utf8(cp)[0]) == |Utf8(cp)|
  {
    if cp <= 0x7F {
    } else if cp <= 0x7FF {
      assert cp / 64 < 32;
    } else if cp <= 0xFFFF {
      DivModUnique(cp, 4096, cp / 64 / 64, cp / 64 % 64 * 64 + cp % 64);
    } else {
      DivModUnique(cp, 4096, cp / 64 / 64, cp / 64 % 64 * 64 + cp % 64);
      DivModUnique(cp, 262144, cp / 4096 / 64, cp / 4096 % 64 * 4096 + cp % 4096);
    }
  }

  // ---- The byte alphabet ----

  predicate Printable(b: int) { 0x21 <= b <= 0x7E || 0xA1 <= b <= 0xAC || 0xAE <= b <= 0xFF }

  /** How many of the bytes below b are not printable. */
  function Rank(b: nat): (n: nat)
    ensures n <= b
  {
    if b == 0 then 0 else Rank(b - 1) + (if Printable(b - 1) then 0 else 1)
  }

  /** Printable bytes stand for themselves; the others take the codepoints from 256, in order. */
  function ByteCodepoint(b: byte): (cp: nat)
    ensures cp < 512
  {
    if Printable(b) then b else 256 + Rank(b)
  }

  function Symbol(b: byte): (s: Str)
    ensures 1 <= |s| <= 2
  {
    Utf8(ByteCodepoint(b))
  }

  lemma {:induction false} RankGrows(a: nat, b: nat)
    requires a <= b
    ensures Rank(a) <= Rank(b)
    ensures a < b && !Printable(a) ==> Rank(a) < Rank(b)
    decreases b
  {
    if a < b {
      RankGrows(a, b - 1);
    }
  }

  lemma {:induction false} RankTable(b: nat)
    requires b <= 256
    ensures Rank(b) == if b <= 33 then b else if b <= 127 then 33 else if b <= 161 then b - 94 else if b <= 173 then 67 else 68
  {
    if b > 0 {
      RankTable(b - 1);
    }
  }

  /** The alphabet in closed form: its codepoints, and the one or two bytes of each symbol. */
  lemma AlphabetTable(b: byte)
    ensures ByteCodepoint(b)
         == if b <= 32 then 256 + b else if b <= 126 then b else if b <= 160 then 162 + b else if b == 173 then 323 else b
    ensures Symbol(b)
         == if 33 <= b <= 126 then [b] else [0xC0 + ByteCodepoint(b) / 64, 0x80 + ByteCodepoint(b) % 64]
  {
    RankTable(b);
    hide Rank;
  }

  /** Two bytes never share a symbol, and a symbol is one whole codepoint. */
  lemma SymbolInjective(a: byte, b: byte)
    ensures Symbol(a) == Symbol(b) <==> a == b
    ensures Utf8Len(Symbol(a)[0]) == |Symbol(a)|
  {
    hide Utf8, Codepoint;
    Utf8RoundTrip(ByteCodepoint(a));
    Utf8RoundTrip(ByteCodepoint(b));
    if a < b {
      RankGrows(a, b);
    } else {
      RankGrows(b, a);
    }
  }

  /** The table as the source builds it: printable bytes first, then the rest with fresh codepoints. */
  method ByteEncoder() returns (table: array<Str>)
    ensures fresh(table) && table.Length == 256
    ensures forall b: byte :: table[b] == Symbol(b)
  {
    hide Utf8, ByteCodepoint;
    var bs, cs := AlphabetOrder();
    table := new Str[256](_ => []);
    for i := 0 to |bs|
      invariant forall j | 0 <= j < i :: table[bs[j]] == Symbol(bs[j])
    {
      table[bs[i]] := Utf8(cs[i]);
    }
    forall b: byte ensures table[b] == Symbol(b) {
      assert b in bs;
    }
  }

  method AlphabetOrder() returns (bs: seq<byte>, cs: seq<nat>)
    ensures |bs| == |cs| && forall b: byte :: b in bs
    ensures forall i | 0 <= i < |bs| :: cs[i] == ByteCodepoint(bs[i])
  {
    bs := PushRange([], 0x21, 0x7E);
    bs := PushRange(bs, 0xA1, 0xAC);
    bs := PushRange(bs, 0xAE, 0xFF);
    cs := bs;
    var n := 0;
    for b := 0 to 256
      invariant |bs| == |cs| && n == Rank(b)
      invariant forall x: byte :: x in bs <==> Printable(x) || x < b
      invariant forall i | 0 <= i < |bs| :: cs[i] == ByteCodepoint(bs[i])
    {
      if b !in bs {
        bs := bs + [b];
        cs := cs + [256 + n];
        n := n + 1;
      }
    }
  }

  method PushRange(bs: seq<byte>, lo: byte, hi: byte) returns (r: seq<byte>)
    requires lo <= hi
    ensures forall x: byte :: x in r <==> x in bs || lo <= x <= hi
  {
    r := bs;
    for b := lo to hi as int + 1
      invariant forall x: byte :: x in r <==> x in bs || lo <= x < b
    {
      r := r + [b];
    }
  }

  /** The inverse table over the first n bytes. */
  function Decoder(n: nat): (m: map<Str, byte>)
    requires n <= 256
    ensures forall b: byte | b < n :: Symbol(b) in m && m[Symbol(b)] == b
    ensures forall s | s in m :: m[s] < n && Symbol(m[s]) == s
  {
    if n == 0 then map[]
    else
      SymbolsDiffer(n - 1);
      Decoder(n - 1)[Symbol(n - 1) := n - 1]
  }

  lemma SymbolsDiffer(n: byte)
    ensures forall b: byte | b < n :: Symbol(b) != Symbol(n)
  {
    forall b: byte | b < n ensures Symbol(b) != Symbol(n) {
      SymbolInjective(b, n);
    }
  }

  /** The inverse table knows exactly the 256 symbols. */
  method ByteDecoder() returns (dec: map<Str, byte>)
    ensures dec == Decoder(256)
    ensures forall s :: s in dec <==> exists b: byte :: Symbol(b) == s
  {
    var enc := ByteEncoder();
    dec := map[];
    for i := 0 to 256
      invariant dec == Decoder(i)
    {
      dec := dec[enc[i] := i];
    }
  }

  function EncodeBytes(raw: Str): Str {
    if raw == [] then [] else Symbol(raw[0]) + EncodeBytes(raw[1..])
  }

  // ---- Cutting at lead bytes ----

  function HeadLen(s: Str): (n: nat)
    requires s != []
    ensures 1 <= n <= |s|
  {
    var len := Utf8Len(s[0]);
    if len > |s| then 1 else len
  }

  function SplitUtf8(s: Str): (out: seq<Str>) {
    if s == [] then [] else [s[..HeadLen(s)]] + SplitUtf8(s[HeadLen(s)..])
  }

  method SplitUtf8Symbols(text: Str) returns (out: seq<Str>)
    ensures out == SplitUtf8(text)
  {
    hide SplitUtf8;
    out := [];
    var i := 0;
    EmptySplit();
    while i < |text|
      invariant i <= |text|
      invariant out + SplitUtf8(text[i..]) == SplitUtf8(text)
    {
      var len := Utf8Len(text[i]);
      if i + len > |text| {
        len := 1;
      }
      SplitFrom(text, i);
      assert out + SplitUtf8(text[i..]) == out + [text[i..i + len]] + SplitUtf8(text[i + len..]);
      out := out + [text[i..i + len]];
      i := i + len;
    }
    assert text[i..] == [];
  }

  lemma EmptySplit()
    ensures SplitUtf8([]) == []
  {
  }

  lemma SplitFrom(text: Str, i: nat)
    requires i < |text|
    ensures var n := HeadLen(text[i..]);
            i + n <= |text| && SplitUtf8(text[i..]) == [text[i..i + n]] + SplitUtf8(text[i + n..])
  {
    hide HeadLen;
    var n := HeadLen(text[i..]);
    assert text[i..][..n] == text[i..i + n] && text[i..][n..] == text[i + n..];
  }

  /** Every piece is as long as its lead byte asks for, except single bytes whose codepoint the text cuts short. */
  lemma {:induction false} CutsByLead(s: Str, i: nat)
    requires i < |SplitUtf8(s)|
    ensures var rest := SplitUtf8(s)[i..];
            && rest[0] != []
            && |rest[0]| == if Utf8Len(rest[0][0]) <= |Concat(rest)| then Utf8Len(rest[0][0]) else 1
    decreases |s|
  {
    hide Utf8Len, Concat;
    SplitPartitions(s);
    if i > 0 {
      CutsByLead(s[HeadLen(s)..], i - 1);
      assert SplitUtf8(s)[i..] == SplitUtf8(s[HeadLen(s)..])[i - 1..];
    } else {
      assert SplitUtf8(s)[0..] == SplitUtf8(s);
    }
  }

  /** No codepoint of s is cut short by its end. */
  predicate Whole(s: Str)
    decreases |s|
  {
    s == [] || (Utf8Len(s[0]) <= |s| && Whole(s[Utf8Len(s[0])..]))
  }

  /** The pieces are nonempty and put the text back together. */
  lemma {:induction false} SplitPartitions(s: Str)
    ensures Concat(SplitUtf8(s)) == s
    ensures forall p | p in SplitUtf8(s) :: p != []
    decreases |s|
  {
    if s != [] {
      hide HeadLen;
      var head, tail := s[..HeadLen(s)], s[HeadLen(s)..];
      assert s == head + tail && SplitUtf8(s) == [head] + SplitUtf8(tail);
      hide SplitUtf8, Concat;
      SplitPartitions(tail);
      ConcatCons(head, SplitUtf8(tail));
    }
  }

  /** Cutting a whole string and its continuation together cuts each on its own. */
  lemma {:induction false} SplitAppend(a: Str, b: Str)
    requires Whole(a)
    ensures SplitUtf8(a + b) == SplitUtf8(a) + SplitUtf8(b)
    decreases |a|
  {
    if a == [] {
      assert a + b == b;
    } else {
      HeadOfAppend(a, b);
      var n := HeadLen(a);
      hide HeadLen, Utf8Len, Whole;
      SplitAppend(a[n..], b);
      ConsAppend(a[..n], SplitUtf8(a[n..]), SplitUtf8(b));
    }
  }

  lemma ConsAppend(first: Str, rest: seq<Str>, more: seq<Str>)
    ensures [first] + (rest + more) == ([first] + rest) + more
  {
  }

  lemma HeadOfAppend(a: Str, b: Str)
    requires a != [] && Whole(a)
    ensures var n := HeadLen(a);
            HeadLen(a + b) == n && (a + b)[..n] == a[..n] && (a + b)[n..] == a[n..] + b && Whole(a[n..])
  {
  }

  lemma {:induction false} WholeAppend(a: Str, b: Str)
    requires Whole(a)
    ensures Whole(a + b) <==> Whole(b)
    decreases |a|
  {
    if a == [] {
      assert a + b == b;
    } else {
      var n := Utf8Len(a[0]);
      assert (a + b)[n..] == a[n..] + b;
      WholeAppend(a[n..], b);
    }
  }

  /** Byte-encoded text is whole, and cutting it gives one symbol per original byte. */
  lemma {:induction false} SplitOfEncoded(raw: Str)
    ensures Whole(EncodeBytes(raw)) && |SplitUtf8(EncodeBytes(raw))| == |raw|
    ensures forall i | 0 <= i < |raw| :: SplitUtf8(EncodeBytes(raw))[i] == Symbol(raw[i])
  {
    if raw != [] {
      hide Symbol;
      SplitOfEncoded(raw[1..]);
      SymbolWhole(raw[0]);
      SplitAppend(Symbol(raw[0]), EncodeBytes(raw[1..]));
      WholeAppend(Symbol(raw[0]), EncodeBytes(raw[1..]));
    }
  }

  lemma SymbolWhole(b: byte)
    ensures Whole(Symbol(b)) && SplitUtf8(Symbol(b)) == [Symbol(b)]
  {
    SymbolInjective(b, b);
    var s := Symbol(b);
    assert s[|s|..] == [] && s[..|s|] == s;
  }

  /** A whole prefix of byte-encoded text encodes a prefix of the bytes, and what follows encodes the rest. */
  lemma {:induction false} WholePrefix(raw: Str, l: nat) returns (n: nat)
    requires l <= |EncodeBytes(raw)| && Whole(EncodeBytes(raw)[..l])
    ensures n <= |raw| && (l > 0 ==> n > 0)
    ensures EncodeBytes(raw)[..l] == EncodeBytes(raw[..n]) && EncodeBytes(raw)[l..] == EncodeBytes(raw[n..])
  {
    if l == 0 {
      n := 0;
      assert raw[0..] == raw;
    } else {
      hide Symbol, Whole;
      var sym, rest := Symbol(raw[0]), EncodeBytes(raw[1..]);
      FirstSymbolFits(raw, l);
      var k := l - |sym|;
      assert (sym + rest)[..l] == sym + rest[..k] && (sym + rest)[l..] == rest[k..];
      SymbolWhole(raw[0]);
      WholeAppend(sym, rest[..k]);
      var n' := WholePrefix(raw[1..], k);
      n := n' + 1;
      assert raw[..n][0] == raw[0] && raw[..n][1..] == raw[1..][..n'] && raw[n..] == raw[1..][n'..];
    }
  }

  lemma FirstSymbolFits(raw: Str, l: nat)
    requires raw != [] && 0 < l <= |EncodeBytes(raw)| && Whole(EncodeBytes(raw)[..l])
    ensures |Symbol(raw[0])| <= l
  {
    hide Symbol;
    SymbolInjective(raw[0], raw[0]);
    var s := EncodeBytes(raw)[..l];
    assert s[0] == Symbol(raw[0])[0];
  }

  method EncodeBytesGpt2(text: Str) returns (out: Str)
    ensures out == EncodeBytes(text)
  {
    var enc := ByteEncoder();
    out := [];
    for i := 0 to |text|
      invariant out + EncodeBytes(text[i..]) == EncodeBytes(text)
    {
      assert text[i..][1..] == text[i + 1..];
      out := out + enc[text[i]];
    }
  }
}
