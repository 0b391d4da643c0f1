/** Cutting text into words before byte-pair merging: contractions, and runs of one character class. */
module Pretokenizer {
  import opened Common
  import opened ByteText

  datatype Class = Space | Alpha | Digit | Other

  /** The "C" locale's isspace, isalpha and isdigit. */
  function ClassOf(c: byte): Class {
    if 9 <= c <= 13 || c == 32 then Space
    else if 65 <= c <= 90 || 97 <= c <= 122 then Alpha
    else if 48 <= c <= 57 then Digit
    else Other
  }

  const APOSTROPHE: byte := 39

  /** s, t, re, ve, m, ll, d, in the order they are tried. */
  const CONTRACTIONS: seq<Str> := [[115], [116], [114, 101], [118, 101], [109], [108, 108], [100]]

  /** The classes and the contractions, in characters. */
  lemma CharacterClasses(c: char, k: nat, j: nat)
    requires c as int < 256
    ensures ClassOf(c as int) == Alpha <==> 'a' <= c <= 'z' || 'A' <= c <= 'Z'
    ensures ClassOf(c as int) == Digit <==> '0' <= c <= '9'
    ensures ClassOf(c as int) == Space <==> c == ' ' || '\t' <= c <= '\r'
    ensures k < 7 ==> |CONTRACTIONS[k]| == |["s", "t", "re", "ve", "m", "ll", "d"][k]|
    ensures k < 7 && j < |CONTRACTIONS[k]| ==> CONTRACTIONS[k][j] == ["s", "t", "re", "ve", "m", "ll", "d"][k][j] as int
  {
  }

  predicate StartsAt(text: Str, p: nat, s: Str) { p + |s| <= |text| && text[p..p + |s|] == s }

  // ---- What a piece is ----

  predicate HasContraction(text: Str, i: nat)
    requires i < |text|
  {
    text[i] == APOSTROPHE && exists k | 0 <= k < |CONTRACTIONS| :: StartsAt(text, i + 1, CONTRACTIONS[k])
  }

  /** One blank belongs to the word after it. */
  function WordStart(text: Str, i: nat): (start: nat)
    requires i < |text|
    ensures i <= start < |text|
  {
    if text[i] == BLANK && i + 1 < |text| && ClassOf(text[i + 1]) != Space then i + 1 else i
  }

  /** text[i..e] is the piece that starts at i: a contraction, or the longest run of one class. */
  predicate IsPiece(text: Str, i: nat, e: nat)
    requires i < |text|
  {
    if HasContraction(text, i) then i + 1 <= e <= |text| && text[i + 1..e] in CONTRACTIONS
    else
      var start := if text[i] == 32 && i + 1 < |text| && ClassOf(text[i + 1]) != Space then i + 1 else i;
      && start < e <= |text|
      && (forall k | start <= k < e :: ClassOf(text[k]) == ClassOf(text[start]))
      && (e < |text| ==> ClassOf(text[e]) != ClassOf(text[start]))
  }

  /** At most one contraction fits, so the order they are tried in does not matter. */
  lemma ContractionUnique(text: Str, p: nat, j: nat, k: nat)
    requires j < |CONTRACTIONS| && k < |CONTRACTIONS|
    requires StartsAt(text, p, CONTRACTIONS[j]) && StartsAt(text, p, CONTRACTIONS[k])
    ensures j == k
  {
    FirstLetter(text, p, j);
    FirstLetter(text, p, k);
    assert text[p] == [115, 116, 114, 118, 109, 108, 100][j];
  }

  lemma FirstLetter(text: Str, p: nat, k: nat)
    requires k < |CONTRACTIONS| && StartsAt(text, p, CONTRACTIONS[k])
    ensures p < |text| && text[p] == [115, 116, 114, 118, 109, 108, 100][k]
  {
    assert text[p] == text[p..p + |CONTRACTIONS[k]|][0] == CONTRACTIONS[k][0];
  }

  lemma PieceUnique(text: Str, i: nat, e: nat, e': nat)
    requires i < |text| && IsPiece(text, i, e) && IsPiece(text, i, e')
    ensures e == e'
  {
    if HasContraction(text, i) {
      var j :| 0 <= j < |CONTRACTIONS| && CONTRACTIONS[j] == text[i + 1..e];
      var k :| 0 <= k < |CONTRACTIONS| && CONTRACTIONS[k] == text[i + 1..e'];
      ContractionUnique(text, i + 1, j, k);
    }
  }

  // ---- Where a piece ends ----

  /** The first contraction from the k-th on that follows position i, as an end position; i when none does. */
  function ContractionEnd(text: Str, i: nat, k: nat): (e: nat)
    requires i < |text| && k <= |CONTRACTIONS|
    ensures i <= e <= |text|
    decreases |CONTRACTIONS| - k
  {
    if k == |CONTRACTIONS| then i
    else if StartsAt(text, i + 1, CONTRACTIONS[k]) then i + 1 + |CONTRACTIONS[k]|
    else ContractionEnd(text, i, k + 1)
  }

  function RunEnd(text: Str, i: nat, c: Class): (e: nat)
    requires i <= |text|
    ensures i <= e <= |text|
    ensures forall k | i <= k < e :: ClassOf(text[k]) == c
    ensures e < |text| ==> ClassOf(text[e]) != c
    decreases |text| - i
  {
    if i < |text| && ClassOf(text[i]) == c then RunEnd(text, i + 1, c) else i
  }

  function PieceEnd(text: Str, i: nat): (e: nat)
    requires i < |text|
    ensures i < e <= |text|
  {
    var e := ContractionEnd(text, i, 0);
    if text[i] == APOSTROPHE && e > i then e
    else RunEnd(text, WordStart(text, i), ClassOf(text[WordStart(text, i)]))
  }

  lemma {:induction false} ContractionEndIs(text: Str, i: nat, k: nat)
    requires i < |text| && k <= |CONTRACTIONS|
    ensures ContractionEnd(text, i, k) > i <==> exists j | k <= j < |CONTRACTIONS| :: StartsAt(text, i + 1, CONTRACTIONS[j])
    ensures ContractionEnd(text, i, k) > i ==> text[i + 1..ContractionEnd(text, i, k)] in CONTRACTIONS
    decreases |CONTRACTIONS| - k
  {
    if k < |CONTRACTIONS| {
      hide StartsAt;
      ContractionEndIs(text, i, k + 1);
      if StartsAt(text, i + 1, CONTRACTIONS[k]) {
        StartIs(text, i + 1, k);
      }
    }
  }

  lemma StartIs(text: Str, p: nat, k: nat)
    requires k < |CONTRACTIONS| && StartsAt(text, p, CONTRACTIONS[k])
    ensures p + |CONTRACTIONS[k]| <= |text| && text[p..p + |CONTRACTIONS[k]|] in CONTRACTIONS && |CONTRACTIONS[k]| > 0
  {
  }

  /** The scan stops exactly at the end of the piece. */
  lemma PieceEndIsPiece(text: Str, i: nat, e: nat)
    requires i < |text|
    ensures IsPiece(text, i, e) <==> e == PieceEnd(text, i)
  {
    hide CONTRACTIONS, StartsAt;
    ContractionEndIs(text, i, 0);
    assert IsPiece(text, i, PieceEnd(text, i));
    if IsPiece(text, i, e) {
      PieceUnique(text, i, e, PieceEnd(text, i));
    }
  }

  function Pieces(text: Str, i: nat): seq<Str>
    requires i <= |text|
    decreases |text| - i
  {
    if i == |text| then [] else [text[i..PieceEnd(text, i)]] + Pieces(text, PieceEnd(text, i))
  }

  /** Every piece is nonempty, and together they are the text. */
  lemma {:induction false} PiecesPartition(text: Str, i: nat)
    requires i <= |text|
    ensures Concat(Pieces(text, i)) == text[i..]
    ensures forall p | p in Pieces(text, i) :: p != []
    decreases |text| - i
  {
    if i < |text| {
      var e := PieceEnd(text, i);
      assert Pieces(text, i) == [text[i..e]] + Pieces(text, e);
      hide *;
      PiecesPartition(text, e);
      ConcatCons(text[i..e], Pieces(text, e));
      assert text[i..e] + text[e..] == text[i..];
    }
  }

  /** ps cuts text[i..] into pieces, one after the other. */
  ghost predicate ArePieces(text: Str, i: nat, ps: seq<Str>)
    requires i <= |text|
    decreases |ps|
  {
    if ps == [] then i == |text|
    else
      var e := i + |ps[0]|;
      i < e <= |text| && text[i..e] == ps[0] && IsPiece(text, i, e) && ArePieces(text, e, ps[1..])
  }

  lemma {:induction false} PiecesArePieces(text: Str, i: nat)
    requires i <= |text|
    ensures ArePieces(text, i, Pieces(text, i))
    decreases |text| - i
  {
    if i < |text| {
      hide IsPiece, ArePieces, PieceEnd;
      var e := PieceEnd(text, i);
      PieceEndIsPiece(text, i, e);
      PiecesArePieces(text, e);
      ArePiecesCons(text, i, e, Pieces(text, e));
    }
  }

  lemma ArePiecesCons(text: Str, i: nat, e: nat, rest: seq<Str>)
    requires i < e <= |text| && IsPiece(text, i, e) && ArePieces(text, e, rest)
    ensures ArePieces(text, i, [text[i..e]] + rest)
  {
    hide IsPiece;
    assert ([text[i..e]] + rest)[1..] == rest;
  }

  /** There is one way to cut a text into pieces. */
  lemma {:induction false} CutsAgree(text: Str, i: nat, ps: seq<Str>, qs: seq<Str>)
    requires i <= |text| && ArePieces(text, i, ps) && ArePieces(text, i, qs)
    ensures ps == qs
    decreases |ps|
  {
    hide IsPiece;
    if ps != [] && qs != [] {
      PieceUnique(text, i, i + |ps[0]|, i + |qs[0]|);
      CutsAgree(text, i + |ps[0]|, ps[1..], qs[1..]);
      HeadTail(ps);
      HeadTail(qs);
    }
  }

  lemma HeadTail(ps: seq<Str>)
    requires ps != []
    ensures ps == [ps[0]] + ps[1..]
  {
  }

  // ---- The scan ----

  method SkipRun(text: Str, start: nat, c: Class) returns (i: nat)
    requires start <= |text|
    ensures i == RunEnd(text, start, c)
  {
    i := start;
    while i < |text| && ClassOf(text[i]) == c
      invariant i <= |text| && RunEnd(text, i, c) == RunEnd(text, start, c)
    {
      i := i + 1;
    }
  }

  method MatchContraction(text: Str, i: nat) returns (e: nat)
    requires i < |text|
    ensures e == ContractionEnd(text, i, 0)
  {
    for k := 0 to |CONTRACTIONS|
      invariant ContractionEnd(text, i, k) == ContractionEnd(text, i, 0)
    {
      var n := |CONTRACTIONS[k]|;
      if i + 1 + n <= |text| && text[i + 1..i + 1 + n] == CONTRACTIONS[k] {
        return i + n + 1;
      }
    }
    e := i;
  }

  method NextPiece(text: Str, start: nat) returns (i: nat)
    requires start < |text|
    ensures i == PieceEnd(text, start)
  {
    i := start;
    if text[i] == APOSTROPHE && i + 1 < |text| {
      var e := MatchContraction(text, i);
      if e > i {
        return e;
      }
    }
    if text[i] == BLANK && i + 1 < |text| && ClassOf(text[i + 1]) != Space {
      i := i + 1;
    }
    if ClassOf(text[i]).Alpha? {
      i := SkipRun(text, i, Alpha);
    } else if ClassOf(text[i]).Digit? {
      i := SkipRun(text, i, Digit);
    } else if !ClassOf(text[i]).Space? {
      i := SkipRun(text, i, Other);
    } else {
      i := SkipRun(text, i, Space);
    }
  }

  method PretokenizeAscii(text: Str) returns (out: seq<Str>)
    ensures out == Pieces(text, 0)
  {
    hide PieceEnd;
    out := [];
    var i := 0;
    while i < |text|
      invariant i <= |text|
      invariant out + Pieces(text, i) == Pieces(text, 0)
      decreases |text| - i
    {
      var e := NextPiece(text, i);
      assert out + Pieces(text, i) == out + [text[i..e]] + Pieces(text, e);
      out := out + [text[i..e]];
      i := e;
    }
  }
}
