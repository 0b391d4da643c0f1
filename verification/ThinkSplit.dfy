/**
 The streaming splitter of `<think>reasoning</think>answer` output.

 `Split` says, from the chunk list alone, what must come out. The incremental matcher keeps at most
 eight characters back and is proved to produce exactly that.
 */
module ThinkSplits {
  import opened Common

  /** An opening and a closing tag; the splitter's proofs hold for any two nonempty ones. */
  datatype Tags = Tags(open_: string, close_: string)

  const THINK := Tags("<think>", "</think>")

  datatype Mode = Init | Thinking | Content

  datatype Segment = Segment(isReasoning: bool, text: string)

  // ---- The specification ----

  predicate OccursAt(tag: string, s: string, p: int) { 0 <= p && p + |tag| <= |s| && s[p..p + |tag|] == tag }

  /** Index of the first occurrence of the tag at or after `from`, or -1. */
  function FindFrom(tag: string, s: string, from: nat): (p: int)
    requires from <= |s|
    ensures p == -1 || from <= p <= |s| - |tag|
    decreases |s| - from
  {
    if OccursAt(tag, s, from) then from
    else if from == |s| then -1
    else FindFrom(tag, s, from + 1)
  }

  function Find(tag: string, s: string): (p: int)
    ensures p == -1 || 0 <= p <= |s| - |tag|
  {
    FindFrom(tag, s, 0)
  }

  ghost predicate IsFirst(tag: string, s: string, from: nat, p: int) {
    if p == -1 then forall q | from <= q :: !OccursAt(tag, s, q)
    else from <= p && OccursAt(tag, s, p) && forall q | from <= q < p :: !OccursAt(tag, s, q)
  }

  lemma {:induction false} FindFromIsFirst(tag: string, s: string, from: nat)
    requires from <= |s|
    ensures IsFirst(tag, s, from, FindFrom(tag, s, from))
    decreases |s| - from
  {
    if !OccursAt(tag, s, from) && from < |s| {
      FindFromIsFirst(tag, s, from + 1);
    }
  }

  /** `Find` is the one index that is first. */
  lemma FindIs(tag: string, s: string, p: int)
    ensures IsFirst(tag, s, 0, Find(tag, s))
    ensures p >= -1 && IsFirst(tag, s, 0, p) ==> Find(tag, s) == p
  {
    FindFromIsFirst(tag, s, 0);
  }

  predicate IsSeparator(c: char) { c == '\n' || c == ' ' }

  /** Length of the run of separators a string starts with. */
  function Run(s: string): (n: nat)
    ensures n <= |s|
  {
    if s == "" || !IsSeparator(s[0]) then 0 else 1 + Run(s[1..])
  }

  lemma {:induction false} RunSpec(s: string)
    ensures forall i | 0 <= i < Run(s) :: IsSeparator(s[i])
    ensures Run(s) < |s| ==> !IsSeparator(s[Run(s)])
  {
    if s != "" && IsSeparator(s[0]) {
      RunSpec(s[1..]);
    }
  }

  /** End of the chunk that delivers the n-th character of the stream. */
  function ChunkEnd(chunks: seq<string>, n: nat): (e: nat)
    requires n <= |Concat(chunks)|
    ensures n <= e <= |Concat(chunks)|
  {
    if chunks == [] then 0
    else
      var front := chunks[..|chunks| - 1];
      if n <= |Concat(front)| then ChunkEnd(front, n) else |Concat(chunks)|
  }

  datatype Parts = Parts(reasoning: string, content: string)

  /** A string without the separators it starts with. */
  function Strip(s: string): string {
    if s != "" && IsSeparator(s[0]) then Strip(s[1..]) else s
  }

  lemma {:induction false} StripDropsRun(s: string)
    ensures Strip(s) == s[Run(s)..]
  {
    if s != "" && IsSeparator(s[0]) {
      StripDropsRun(s[1..]);
    }
  }

  /**
   The parts of a stream with its first closing tag at p, completed by the chunk ending at `end`:
   separators after the tag are dropped as far as that chunk reaches.
   */
  function PartsUpTo(tag: string, rest: string, p: nat, end: nat): Parts
    requires p + |tag| <= end <= |rest|
  {
    Parts(rest[..p], Strip(rest[p + |tag|..end]) + rest[end..])
  }

  /** Where the chunk that completes the tag at p ends, counted from after the opening tag. */
  function TagEnd(g: Tags, chunks: seq<string>, p: nat): (end: int)
    requires |g.open_| + p + |g.close_| <= |Concat(chunks)|
    ensures p + |g.close_| <= end <= |Concat(chunks)| - |g.open_|
  {
    ChunkEnd(chunks, |g.open_| + p + |g.close_|) - |g.open_|
  }

  /** What a list of chunks must be split into. */
  function Split(g: Tags, chunks: seq<string>): Parts {
    var t := Concat(chunks);
    if !(g.open_ <= t) then Parts("", t)
    else
      var rest := t[|g.open_|..];
      var p := Find(g.close_, rest);
      if p == -1 then Parts(rest, "") else PartsUpTo(g.close_, rest, p, TagEnd(g, chunks, p))
  }

  predicate EndsInRun(tag: string, rest: string, p: nat, end: int)
    requires p + |tag| <= |rest|
  {
    end < p + |tag| + Run(rest[p + |tag|..])
  }

  /** The chunk that completes the closing tag ends inside the run of separators after it. */
  predicate SeparatorCut(g: Tags, chunks: seq<string>) {
    var t := Concat(chunks);
    g.open_ <= t &&
    var rest := t[|g.open_|..];
    var p := Find(g.close_, rest);
    p != -1 && EndsInRun(g.close_, rest, p, TagEnd(g, chunks, p))
  }

  // ---- Chunk independence ----

  lemma RunOfPrefix(s: string, k: nat)
    requires k <= |s|
    ensures Run(s[..k]) == if k < Run(s) then k else Run(s)
  {
    var a, b := Run(s[..k]), Run(s);
    RunSpec(s);
    RunSpec(s[..k]);
    if a < k {
      assert !IsSeparator(s[..k][a]) && s[..k][a] == s[a];
    }
    if b < k {
      assert !IsSeparator(s[b]) && s[..k][b] == s[b];
    }
  }

  lemma ChunkEndOne(t: string, n: nat)
    requires 0 < n <= |t|
    ensures |Concat([t])| == |t| && ChunkEnd([t], n) == |t|
  {
    ConcatOne(t);
    var none: seq<string> := [t][..0];
    assert Concat(none) == "";
  }

  /**
   Cutting a stream into chunks never changes the reasoning, and changes the content exactly when
   the chunk completing the tag ends inside the separators that follow it.
   */
  lemma ChunkIndependence(g: Tags, chunks: seq<string>)
    requires g.close_ != ""
    ensures Split(g, chunks).reasoning == Split(g, [Concat(chunks)]).reasoning
    ensures Split(g, chunks) == Split(g, [Concat(chunks)]) <==> !SeparatorCut(g, chunks)
  {
    SplitWhole(g, Concat(chunks));
    SplitAgainstWhole(g, chunks);
  }

  /** The parts of a stream, all separators after the tag dropped. */
  function WholeParts(g: Tags, t: string): Parts {
    if !(g.open_ <= t) then Parts("", t)
    else
      var rest := t[|g.open_|..];
      var p := Find(g.close_, rest);
      if p == -1 then Parts(rest, "") else PartsUpTo(g.close_, rest, p, |rest|)
  }

  /** A stream delivered in one chunk loses the whole run of separators. */
  lemma SplitWhole(g: Tags, t: string)
    requires g.close_ != ""
    ensures Split(g, [t]) == WholeParts(g, t)
  {
    ConcatOne(t);
    if g.open_ <= t {
      var p := Find(g.close_, t[|g.open_|..]);
      if p != -1 {
        ChunkEndOne(t, |g.open_| + p + |g.close_|);
      }
    }
  }

  lemma SplitAgainstWhole(g: Tags, chunks: seq<string>)
    ensures Split(g, chunks).reasoning == WholeParts(g, Concat(chunks)).reasoning
    ensures Split(g, chunks) == WholeParts(g, Concat(chunks)) <==> !SeparatorCut(g, chunks)
  {
    var t := Concat(chunks);
    if g.open_ <= t {
      var rest := t[|g.open_|..];
      var p := Find(g.close_, rest);
      if p != -1 {
        EatenDecides(g.close_, rest, p, TagEnd(g, chunks, p));
      }
    }
  }

  lemma EatenDecides(tag: string, rest: string, p: nat, end: nat)
    requires p + |tag| <= end <= |rest|
    ensures PartsUpTo(tag, rest, p, end).reasoning == PartsUpTo(tag, rest, p, |rest|).reasoning
    ensures PartsUpTo(tag, rest, p, end) == PartsUpTo(tag, rest, p, |rest|) <==> !EndsInRun(tag, rest, p, end)
  {
    var tail, k := rest[p + |tag|..], end - p - |tag|;
    assert rest[p + |tag|..end] == tail[..k] && rest[p + |tag|..|rest|] == tail;
    assert rest[end..] == tail[k..] && rest[|rest|..] == "";
    StripUpTo(tail, k);
  }

  lemma StripUpTo(tail: string, k: nat)
    requires k <= |tail|
    ensures Strip(tail[..k]) + tail[k..] == Strip(tail) + "" <==> k >= Run(tail)
  {
    hide Strip, Run, IsSeparator;
    StripDropsRun(tail);
    StripDropsRun(tail[..k]);
    RunOfPrefix(tail, k);
    var r := Run(tail);
    RunCut(tail, k, r);
  }

  lemma RunCut(tail: string, k: nat, r: nat)
    requires k <= |tail| && r <= |tail|
    ensures tail[r..] + "" == tail[r..] && tail[..k][k..] + tail[k..] == tail[k..]
    ensures r <= k ==> tail[..k][r..] + tail[k..] == tail[r..]
    ensures r > k ==> tail[k..] != tail[r..]
  {
    if r > k {
      assert |tail[k..]| != |tail[r..]|;
    }
  }

  /** The failing family is inhabited: a separator arriving after the chunk that closes the tag stays. */
  lemma SeparatorCutExample()
    ensures SeparatorCut(THINK, [THINK.open_ + "a" + THINK.close_, "\nb"])
  {
    var first := THINK.open_ + "a" + THINK.close_;
    var cut := [first, "\nb"];
    assert cut[..1] == [first];
    ConcatOne(first);
    var t := first + "\nb";
    assert Concat(cut) == t;
    var rest := "a" + THINK.close_ + "\nb";
    assert t == THINK.open_ + rest;
    assert t[|THINK.open_|..] == rest;
    assert rest[1..1 + |THINK.close_|] == THINK.close_ && rest[0] == 'a' && THINK.close_[0] == '<';
    assert OccursAt(THINK.close_, rest, 1);
    assert !OccursAt(THINK.close_, rest, 0);
    FindIs(THINK.close_, rest, 1);
    ChunkEndOne(first, |first|);
    assert ChunkEnd(cut, |first|) == |first|;
    assert rest[1 + |THINK.close_|..] == "\nb" && Run("\nb") >= 1;
  }

  /**
   On the text itself: after the opening tag comes the reasoning r, then the first closing tag, then
   newlines and blanks that are dropped, then the answer.
   */
  lemma WholeStreamLaw(g: Tags, r: string, seps: string, answer: string)
    requires g.close_ != ""
    requires forall q | 0 <= q < |r| :: !OccursAt(g.close_, r + g.close_ + seps + answer, q)
    requires forall i | 0 <= i < |seps| :: seps[i] == '\n' || seps[i] == ' '
    requires answer == "" || (answer[0] != '\n' && answer[0] != ' ')
    ensures Split(g, [g.open_ + r + g.close_ + seps + answer]) == Parts(r, answer)
  {
    hide Split, Find, OccursAt, Strip;
    var rest := r + g.close_ + seps + answer;
    var t := g.open_ + r + g.close_ + seps + answer;
    StreamSlices(g.open_, r, g.close_, seps + answer);
    assert t == g.open_ + (r + g.close_ + (seps + answer)) && rest == r + g.close_ + (seps + answer);
    TagHere(g.close_, rest, |r|);
    FindIs(g.close_, rest, |r|);
    SplitWhole(g, t);
    StripSeparators(seps, answer);
  }

  /** Only the completing chunk's own newlines and blanks are dropped: a later chunk is answer in full. */
  lemma LaterChunkLaw(g: Tags, r: string, seps: string, later: string)
    requires g.close_ != ""
    requires forall q | 0 <= q < |r| :: !OccursAt(g.close_, r + g.close_ + (seps + later), q)
    requires forall i | 0 <= i < |seps| :: seps[i] == '\n' || seps[i] == ' '
    ensures Split(g, [g.open_ + (r + g.close_ + seps), later]) == Parts(r, later)
  {
    hide Split, Find, OccursAt, Strip, ChunkEnd;
    var first := g.open_ + (r + g.close_ + seps);
    var rest := r + g.close_ + (seps + later);
    var t := g.open_ + rest;
    StreamSlices(g.open_, r, g.close_, seps + later);
    TwoChunks(first, later, |g.open_| + |r| + |g.close_|);
    assert first + later == t;
    TagHere(g.close_, rest, |r|);
    FindIs(g.close_, rest, |r|);
    SplitClosed(g, [first, later], |r|);
    LaterSlices(r, g.close_, seps, later);
    StripSeparators(seps, "");
  }

  lemma LaterSlices(r: string, tag: string, seps: string, later: string)
    ensures var rest, end := r + tag + (seps + later), |r| + |tag| + |seps|;
            rest[|r| + |tag|..end] == seps + "" && rest[end..] == later && rest[..|r|] == r && "" + later == later
  {
  }

  lemma SplitClosed(g: Tags, chunks: seq<string>, p: nat)
    requires g.open_ <= Concat(chunks) && Find(g.close_, Concat(chunks)[|g.open_|..]) == p
    ensures Split(g, chunks) == PartsUpTo(g.close_, Concat(chunks)[|g.open_|..], p, TagEnd(g, chunks, p))
  {
  }

  lemma TwoChunks(a: string, b: string, n: nat)
    requires 0 < n <= |a|
    ensures Concat([a, b]) == a + b && ChunkEnd([a, b], n) == |a|
  {
    assert [a, b][..1] == [a];
    ConcatOne(a);
    ChunkEndOne(a, n);
  }

  lemma StreamSlices(front: string, r: string, tag: string, tail: string)
    ensures var rest := r + tag + tail;
            && (front + rest)[|front|..] == rest && rest[|r|..|r| + |tag|] == tag
            && rest[|r| + |tag|..|rest|] == tail && rest[|rest|..] == "" && rest[..|r|] == r
  {
  }

  lemma TagHere(tag: string, s: string, p: nat)
    requires p + |tag| <= |s| && s[p..p + |tag|] == tag
    ensures OccursAt(tag, s, p)
  {
  }

  lemma {:induction false} StripSeparators(seps: string, answer: string)
    requires forall i | 0 <= i < |seps| :: seps[i] == '\n' || seps[i] == ' '
    requires answer == "" || (answer[0] != '\n' && answer[0] != ' ')
    ensures Strip(seps + answer) == answer
  {
    if seps == "" {
      assert seps + answer == answer;
    } else {
      assert (seps + answer)[1..] == seps[1..] + answer;
      StripSeparators(seps[1..], answer);
    }
  }

  /** A stream that never closes its reasoning is all reasoning; one that does not open it is all answer. */
  lemma UnclosedLaw(g: Tags, chunks: seq<string>, r: string)
    requires forall q | 0 <= q :: !OccursAt(g.close_, r, q)
    ensures Concat(chunks) == g.open_ + r ==> Split(g, chunks) == Parts(r, "")
    ensures !(g.open_ <= Concat(chunks)) ==> Split(g, chunks) == Parts("", Concat(chunks))
  {
    FindIs(g.close_, r, -1);
    assert (g.open_ + r)[|g.open_|..] == r;
  }

  // ---- The incremental matcher ----

  function Joined(segs: seq<Segment>, reasoning: bool): string {
    if segs == [] then ""
    else
      var last := segs[|segs| - 1];
      Joined(segs[..|segs| - 1], reasoning) + (if last.isReasoning == reasoning then last.text else "")
  }

  /** No reasoning follows content. */
  ghost predicate Ordered(segs: seq<Segment>) {
    forall i, j | 0 <= i < j < |segs| :: segs[j].isReasoning ==> segs[i].isReasoning
  }

  ghost predicate AllReasoning(segs: seq<Segment>) {
    forall i | 0 <= i < |segs| :: segs[i].isReasoning
  }

  /** The tag is in `s` exactly where it is in the tail of `s` that starts at n. */
  ghost predicate OnlyIn(tag: string, s: string, tail: string, n: nat) {
    Find(tag, s) == (if Find(tag, tail) == -1 then -1 else n + Find(tag, tail))
  }

  /** With no tag so far, and all but the last |tag| - 1 characters let go, new tags start in the buffer. */
  lemma FindInBuffer(tag: string, sent: string, buf: string, chunk: string)
    requires tag != "" && Find(tag, sent + buf) == -1
    requires sent != "" ==> |buf| >= |tag| - 1
    ensures OnlyIn(tag, sent + (buf + chunk), buf + chunk, |sent|)
  {
    var now, rest := buf + chunk, sent + (buf + chunk);
    FindIs(tag, sent + buf, -1);
    forall q | 0 <= q < |sent| ensures !OccursAt(tag, rest, q) {
      if OccursAt(tag, rest, q) {
        assert (sent + buf)[q..q + |tag|] == rest[q..q + |tag|];
        assert OccursAt(tag, sent + buf, q);
      }
    }
    FindShift(tag, sent, now);
  }

  lemma FindShift(tag: string, front: string, tail: string)
    requires forall q | 0 <= q < |front| :: !OccursAt(tag, front + tail, q)
    ensures OnlyIn(tag, front + tail, tail, |front|)
  {
    var s, n := front + tail, |front|;
    forall q | 0 <= q ensures OccursAt(tag, tail, q) <==> OccursAt(tag, s, n + q) {
      if q + |tag| <= |tail| {
        assert s[n + q..n + q + |tag|] == tail[q..q + |tag|];
      }
    }
    var p := Find(tag, tail);
    FindIs(tag, tail, p);
    var p' := if p == -1 then -1 else n + p;
    forall q | 0 <= q && OccursAt(tag, s, q) ensures q >= n && OccursAt(tag, tail, q - n) {
      if q >= n {
        assert OccursAt(tag, tail, q - n) <==> OccursAt(tag, s, n + (q - n));
      }
    }
    assert IsFirst(tag, s, 0, p');
    FindIs(tag, s, p');
  }

  /** A tag already complete is still the first one after more text. */
  lemma SameTag(tag: string, s: string, more: string)
    requires Find(tag, s) != -1
    ensures Find(tag, s + more) == Find(tag, s)
  {
    var p := Find(tag, s);
    FindIs(tag, s, p);
    forall q | 0 <= q <= p ensures OccursAt(tag, s + more, q) <==> OccursAt(tag, s, q) {
      assert (s + more)[q..q + |tag|] == s[q..q + |tag|];
    }
    FindIs(tag, s + more, p);
  }

  /** A tag that appears only now ends in the new text. */
  lemma LaterTag(tag: string, s: string, more: string)
    requires Find(tag, s) == -1
    ensures Find(tag, s + more) != -1 ==> Find(tag, s + more) + |tag| > |s|
  {
    var p := Find(tag, s + more);
    FindIs(tag, s + more, p);
    FindIs(tag, s, -1);
    if p != -1 && p + |tag| <= |s| {
      assert (s + more)[p..p + |tag|] == s[p..p + |tag|];
      assert OccursAt(tag, s, p);
    }
  }

  /** The matcher's state as a statement about all the text fed so far. */
  datatype View = View(fed: string, buf: string, reasoning: string, answer: string, closedAt: nat)

  ghost predicate InThinking(g: Tags, v: View) {
    && g.open_ <= v.fed && v.fed[|g.open_|..] == v.reasoning + v.buf && v.answer == ""
  }

  /** Nothing closed yet, and enough kept back to recognise a tag cut in two. */
  ghost predicate Waiting(g: Tags, v: View) {
    && InThinking(g, v) && Find(g.close_, v.fed[|g.open_|..]) == -1
    && |v.buf| <= |g.close_| && (v.reasoning != "" ==> |v.buf| >= |g.close_| - 1)
  }

  /** The tag, if it is there at all, lies in the buffer and ends after the first `before` characters. */
  ghost predicate Searching(g: Tags, v: View, before: nat) {
    && InThinking(g, v) && OnlyIn(g.close_, v.fed[|g.open_|..], v.buf, |v.reasoning|)
    && var p := Find(g.close_, v.fed[|g.open_|..]);
       p != -1 ==> |g.open_| + p + |g.close_| > before
  }

  /** The closing tag is in `rest`; `end` is where the chunk that completed it ended. */
  ghost predicate ClosedParts(tag: string, rest: string, reasoning: string, content: string, end: int) {
    var p := Find(tag, rest);
    p != -1 && p + |tag| <= end <= |rest| && Parts(reasoning, content) == PartsUpTo(tag, rest, p, end)
  }

  /** Closed, or never opened: all content so far is the answer and the buffer. */
  ghost predicate Answering(g: Tags, v: View) {
    if !(g.open_ <= v.fed) then v.reasoning == "" && v.answer + v.buf == v.fed && !(v.fed <= g.open_)
    else ClosedParts(g.close_, v.fed[|g.open_|..], v.reasoning, v.answer + v.buf, v.closedAt - |g.open_|)
  }

  lemma ThinkingGrows(g: Tags, v: View, chunk: string)
    requires g.close_ != "" && Waiting(g, v)
    ensures Searching(g, v.(fed := v.fed + chunk, buf := v.buf + chunk), |v.fed|)
  {
    FindInBuffer(g.close_, v.reasoning, v.buf, chunk);
    DropGrows(g.open_, v.fed, chunk);
    Reassociate(v.reasoning, v.buf, chunk);
    LaterTag(g.close_, v.fed[|g.open_|..], chunk);
  }

  lemma AnswerGrows(g: Tags, v: View, chunk: string)
    requires Answering(g, v)
    ensures Answering(g, v.(fed := v.fed + chunk, buf := v.buf + chunk))
  {
    hide ClosedParts;
    Reassociate(v.answer, v.buf, chunk);
    if g.open_ <= v.fed {
      DropGrows(g.open_, v.fed, chunk);
      ClosedGrows(g.close_, v.fed[|g.open_|..], v.reasoning, v.answer + v.buf, v.closedAt - |g.open_|, chunk);
    } else {
      NotOpenedGrows(g.open_, v.fed, chunk);
    }
  }

  lemma Reassociate(a: string, b: string, c: string)
    ensures a + (b + c) == a + b + c
  {
  }

  lemma DropGrows(front: string, s: string, more: string)
    requires front <= s
    ensures front <= s + more && (s + more)[|front|..] == s[|front|..] + more
  {
  }

  lemma NotOpenedGrows(open_: string, fed: string, chunk: string)
    requires !(open_ <= fed) && !(fed <= open_)
    ensures !(open_ <= fed + chunk) && !(fed + chunk <= open_)
  {
    var k := if |open_| < |fed| then |open_| else |fed|;
    assert (fed + chunk)[..k] == fed[..k];
    assert open_[..k] != fed[..k];
  }

  lemma ClosedGrows(tag: string, rest: string, reasoning: string, content: string, end: int, chunk: string)
    requires ClosedParts(tag, rest, reasoning, content, end)
    ensures ClosedParts(tag, rest + chunk, reasoning, content + chunk, end)
  {
    hide Find, Strip;
    var p := Find(tag, rest);
    SameTag(tag, rest, chunk);
    CutsGrow(rest, chunk, p, p + |tag|, end);
    Reassociate(Strip(rest[p + |tag|..end]), rest[end..], chunk);
  }

  lemma CutsGrow(s: string, more: string, p: nat, q: nat, end: nat)
    requires p <= q <= end <= |s|
    ensures (s + more)[..p] == s[..p] && (s + more)[q..end] == s[q..end] && (s + more)[end..] == s[end..] + more
  {
  }

  /** Finding the tag at `pos` of the buffer ends the reasoning there. */
  lemma TagFound(g: Tags, v: View, before: nat, pos: nat, kept: string)
    requires Searching(g, v, before) && pos == Find(g.close_, v.buf)
    requires kept == Strip(v.buf[pos + |g.close_|..])
    ensures Answering(g, View(v.fed, kept, v.reasoning + v.buf[..pos], "", |v.fed|))
  {
    hide Strip, Find, PartsUpTo, Answering, ClosedParts;
    TagInBuffer(g.close_, v.reasoning, v.buf, pos);
    EmptyAnswer(g, v.fed, kept, v.reasoning + v.buf[..pos]);
  }

  lemma TagPlace(g: Tags, v: View, before: nat, pos: nat)
    requires Searching(g, v, before) && pos == Find(g.close_, v.buf)
    ensures g.open_ <= v.fed && v.answer == "" && before < |g.open_| + Find(g.close_, v.fed[|g.open_|..]) + |g.close_|
  {
    hide Find;
  }

  lemma EmptyTail(a: string, s: string)
    ensures a + s[..0] == a
  {
  }

  lemma EmptyAnswer(g: Tags, fed: string, kept: string, reasoning: string)
    requires g.open_ <= fed && ClosedParts(g.close_, fed[|g.open_|..], reasoning, kept, |fed[|g.open_|..]|)
    ensures Answering(g, View(fed, kept, reasoning, "", |fed|))
  {
    assert "" + kept == kept;
  }

  lemma TagInBuffer(tag: string, sent: string, buf: string, pos: nat)
    requires OnlyIn(tag, sent + buf, buf, |sent|) && pos == Find(tag, buf)
    ensures ClosedParts(tag, sent + buf, sent + buf[..pos], Strip(buf[pos + |tag|..]), |sent + buf|)
  {
    var rest, p := sent + buf, |sent| + pos;
    assert rest[p + |tag|..|rest|] == buf[pos + |tag|..];
    assert rest[..p] == sent + buf[..pos];
    assert rest[|rest|..] == "" && Strip(buf[pos + |tag|..]) + "" == Strip(buf[pos + |tag|..]);
  }

  /** Without a tag, letting all but the last |tag| - 1 characters go keeps the matcher waiting. */
  lemma TagNotFound(g: Tags, v: View, before: nat, safe: nat)
    requires Searching(g, v, before) && Find(g.close_, v.buf) == -1
    requires safe == if |v.buf| > |g.close_| then |v.buf| - (|g.close_| - 1) else 0
    requires g.close_ != "" && (v.reasoning != "" && safe == 0 ==> |v.buf| >= |g.close_| - 1)
    ensures Waiting(g, v.(reasoning := v.reasoning + v.buf[..safe], buf := v.buf[safe..]))
  {
    assert v.buf[..safe] + v.buf[safe..] == v.buf;
    assert v.reasoning + v.buf[..safe] + v.buf[safe..] == v.reasoning + v.buf;
  }

  /** Handing the buffer over as content keeps the matcher answering, whether or not it is empty. */
  lemma ContentDelivered(g: Tags, v: View)
    requires Answering(g, v)
    ensures Answering(g, View(v.fed, "", v.reasoning, v.answer + v.buf, v.closedAt))
    ensures v.buf == "" ==> v.answer + v.buf == v.answer
  {
    assert v.answer + v.buf + "" == v.answer + v.buf;
  }

  /** At the end of the stream the buffer belongs to the kind of the current mode. */
  lemma FlushedParts(g: Tags, v: View, mode: Mode)
    requires mode == Init ==> v.fed == v.buf && v.buf < g.open_ && v.reasoning == v.answer == ""
    requires mode == Thinking ==> Waiting(g, v)
    requires mode == Content ==> Answering(g, v) && v.buf == ""
    ensures FinalParts(g, v.(buf := "", reasoning := if mode == Thinking then v.reasoning + v.buf else v.reasoning,
                             answer := if mode == Thinking then v.answer else v.answer + v.buf))
    ensures v.buf == "" ==> v.reasoning + v.buf == v.reasoning && v.answer + v.buf == v.answer
  {
    hide Find, PartsUpTo;
    if mode == Init {
      assert "" + v.buf == v.buf;
    }
  }

  class ThinkSplit {
    const g: Tags
    var mode: Mode
    var buf: string
    /** The segments handed to the callback, in order. */
    var emitted: seq<Segment>
    ghost var fed: string
    ghost var closedAt: nat   // |fed| at the end of the feed that completed the closing tag

    constructor (g: Tags)
      requires g.open_ != "" && g.close_ != ""
      ensures Valid() && fed == "" && emitted == [] && this.g == g && mode == Init
    {
      this.g := g;
      mode, buf, emitted, fed, closedAt := Init, "", [], "", 0;
    }

    ghost function Now(): View
      reads this
    {
      View(fed, buf, Joined(emitted, true), Joined(emitted, false), closedAt)
    }

    ghost predicate Valid()
      reads this
    {
      && g.open_ != "" && g.close_ != "" && Ordered(emitted)
      && (mode == Init ==> fed == buf && buf < g.open_ && emitted == [])
      && (mode == Thinking ==> Waiting(g, Now()) && AllReasoning(emitted))
      && (mode == Content ==> Answering(g, Now()) && buf == "")
    }

    /** In the middle of a feed that started with `before` characters already fed. */
    ghost predicate Pending(before: nat)
      reads this
    {
      && g.open_ != "" && g.close_ != "" && Ordered(emitted)
      && (mode == Init ==> fed == buf && emitted == [] && before < |g.open_|)
      && (mode == Thinking ==> Searching(g, Now(), before) && (Now().reasoning != "" ==> |buf| >= |g.close_| - 1))
      && (mode == Thinking ==> AllReasoning(emitted))
      && (mode == Content ==> Answering(g, Now()))
    }

    method Emit(isReasoning: bool, text: string)
      requires Ordered(emitted) && (isReasoning ==> AllReasoning(emitted))
      modifies this`emitted
      ensures Ordered(emitted) && (isReasoning ==> AllReasoning(emitted))
      ensures emitted == old(emitted) + [Segment(isReasoning, text)]
      ensures Joined(emitted, isReasoning) == Joined(old(emitted), isReasoning) + text
      ensures Joined(emitted, !isReasoning) == Joined(old(emitted), !isReasoning)
    {
      emitted := emitted + [Segment(isReasoning, text)];
      assert emitted[..|emitted| - 1] == old(emitted);
      assert Joined(old(emitted), !isReasoning) + "" == Joined(old(emitted), !isReasoning);
    }

    /** Opening tag or not: the first decision, as soon as the text allows it. */
    method FeedInit(ghost before: nat) returns (wait: bool)
      requires mode == Init && Pending(before)
      modifies this`mode, this`buf
      ensures wait ==> Valid() && mode == Init
      ensures !wait ==> mode != Init && Pending(before)
      ensures !wait && mode == Content ==> !(g.open_ <= fed)
    {
      if |buf| < |g.open_| && buf <= g.open_ {
        return true;
      }
      if g.open_ <= buf {
        buf := buf[|g.open_|..];
        mode := Thinking;
        assert "" + buf == buf;
        return false;
      }
      mode := Content;
      assert "" + buf == buf;
      return false;
    }

    /** Looks for the closing tag; without one, lets go of everything that cannot be part of it. */
    method FeedThinking(ghost before: nat) returns (wait: bool)
      requires mode == Thinking && Pending(before)
      modifies this`mode, this`buf, this`emitted, this`closedAt
      ensures old(emitted) <= emitted
      ensures wait ==> Valid() && mode == Thinking
      ensures !wait ==> mode == Content && Pending(before) && closedAt == |fed| && g.open_ <= fed
      ensures !wait ==> |g.open_| + Find(g.close_, fed[|g.open_|..]) + |g.close_| > before
    {
      var pos := Find(g.close_, buf);
      if pos != -1 {
        CloseAt(pos, before);
        return false;
      }
      LetGo(before);
      return true;
    }

    method CloseAt(pos: nat, ghost before: nat)
      requires mode == Thinking && Pending(before) && pos == Find(g.close_, buf)
      modifies this`mode, this`buf, this`emitted, this`closedAt
      ensures old(emitted) <= emitted && mode == Content && Ordered(emitted) && Answering(g, Now())
      ensures g.open_ <= fed && ClosedBy(before)
    {
      hide Searching, Answering, Find, Joined, Strip, Ordered, AllReasoning;
      ghost var v := Now();
      TagFound(g, v, before, pos, Strip(buf[pos + |g.close_|..]));
      TagPlace(g, v, before, pos);
      if pos > 0 {
        Emit(true, buf[..pos]);
      }
      EmptyTail(v.reasoning, v.buf);
      buf := buf[pos + |g.close_|..];
      EatSeparators();
      mode, closedAt := Content, |fed|;
    }

    method LetGo(ghost before: nat)
      requires mode == Thinking && Pending(before) && Find(g.close_, buf) == -1
      modifies this`buf, this`emitted
      ensures old(emitted) <= emitted && Valid()
    {
      ghost var v := Now();
      var safe := if |buf| > |g.close_| then |buf| - (|g.close_| - 1) else 0;
      TagNotFound(g, v, before, safe);
      if |buf| > |g.close_| {
        Emit(true, buf[..safe]);
        buf := buf[safe..];
      } else {
        assert v.buf[0..] == v.buf && v.reasoning + v.buf[..0] == v.reasoning;
      }
    }

    method EatSeparators()
      modifies this`buf
      ensures buf == Strip(old(buf))
    {
      while buf != "" && IsSeparator(buf[0])
        invariant Strip(buf) == Strip(old(buf))
        decreases |buf|
      {
        buf := buf[1..];
      }
    }

    /** The chunk joins the buffer. */
    method Append(chunk: string)
      requires Valid()
      modifies this`buf, this`fed
      ensures fed == old(fed) + chunk && Pending(|old(fed)|)
    {
      ghost var v := Now();
      if mode == Thinking {
        ThinkingGrows(g, v, chunk);
      } else if mode == Content {
        AnswerGrows(g, v, chunk);
      }
      buf, fed := buf + chunk, fed + chunk;
    }

    /** Takes the next chunk. The matcher keeps back at most as many characters as the closing tag has. */
    method Feed(chunk: string)
      requires Valid()
      modifies this
      ensures Valid() && fed == old(fed) + chunk && old(emitted) <= emitted
      ensures mode == Thinking ==> |buf| <= |g.close_|
      ensures mode == Init ==> |buf| < |g.open_|
      ensures mode == Content ==> buf == ""
      ensures old(mode) == Content ==> mode == Content && closedAt == old(closedAt)
      ensures mode == Content && old(mode) != Content && g.open_ <= fed ==> ClosedBy(|old(fed)|)
    {
      ghost var before := |fed|;
      Append(chunk);
      while true
        invariant Pending(before) && fed == old(fed) + chunk && old(emitted) <= emitted
        invariant old(mode) == Content ==> mode == Content && closedAt == old(closedAt)
        invariant mode == Content && old(mode) != Content && g.open_ <= fed ==> ClosedBy(before)
        decreases Rank(mode)
      {
        var wait := Advance(before);
        if wait { return; }
      }
    }

    function Rank(m: Mode): nat {
      match m case Init => 2 case Thinking => 1 case Content => 0
    }

    /** One turn of the feed loop: true when the loop must wait for more text. */
    method Advance(ghost before: nat) returns (wait: bool)
      requires Pending(before)
      modifies this`mode, this`buf, this`emitted, this`closedAt
      ensures old(emitted) <= emitted
      ensures wait ==> Valid() && mode == old(mode)
      ensures !wait ==> Pending(before) && Rank(mode) < Rank(old(mode))
      ensures old(mode) == Content ==> mode == Content && closedAt == old(closedAt)
      ensures mode == Content && old(mode) != Content && g.open_ <= fed ==> ClosedBy(before)
    {
      if mode == Init {
        wait := FeedInit(before);
        return;
      }
      if mode == Thinking {
        wait := FeedThinking(before);
        return;
      }
      ContentDelivered(g, Now());
      Deliver();
      return true;
    }

    /** Content goes out at once. */
    method Deliver()
      requires Ordered(emitted)
      modifies this`buf, this`emitted
      ensures old(emitted) <= emitted && Ordered(emitted) && buf == ""
      ensures Now() == View(fed, "", old(Now()).reasoning, old(Now()).answer + old(buf), closedAt)
    {
      if buf != "" {
        Emit(false, buf);
        buf := "";
      } else {
        assert Now().answer + buf == Now().answer;
      }
    }

    /** This feed completed the tag: it ends after the characters fed before. */
    ghost predicate ClosedBy(before: nat)
      reads this
      requires g.open_ <= fed
    {
      closedAt == |fed| && before < |g.open_| + Find(g.close_, fed[|g.open_|..]) + |g.close_|
    }

    /** Once closed, `closedAt` is the end of the chunk that completed the tag. */
    ghost predicate TagIn(chunks: seq<string>)
      reads this
    {
      mode == Content && g.open_ <= fed ==> closedAt == TagChunkEnd(g, chunks)
    }

    lemma NothingFed(none: seq<string>)
      requires none == [] && fed == "" && mode == Init
      ensures fed == Concat(none) && TagIn(none)
    {
    }

    lemma TagKnown(chunks: seq<string>)
      requires Valid() && TagIn(chunks) && fed == Concat(chunks)
      ensures TagChunkEnd(g, chunks) != -1 ==> closedAt == TagChunkEnd(g, chunks)
    {
    }

    method FeedNext(chunks: seq<string>, i: nat)
      requires Valid() && i < |chunks| && fed == Concat(chunks[..i]) && TagIn(chunks[..i])
      modifies this
      ensures Valid() && fed == Concat(chunks[..i + 1]) && TagIn(chunks[..i + 1])
    {
      ConcatStep(chunks, i);
      ghost var v, was := Now(), mode;
      Feed(chunks[i]);
      if mode == Content && g.open_ <= fed {
        if was == Content {
          if g.open_ <= v.fed {
            TagChunkStays(g, chunks, i);
          } else {
            NotOpenedGrows(g.open_, v.fed, chunks[i]);
          }
        } else {
          TagChunkNow(g, chunks, i);
        }
      }
    }

    /** The end of the stream: what is still held back goes out under its own kind. */
    method Flush()
      requires Valid()
      modifies this
      ensures fed == old(fed) && closedAt == old(closedAt) && old(emitted) <= emitted && Ordered(emitted) && buf == ""
      ensures FinalParts(g, Now())
    {
      FlushedParts(g, Now(), mode);
      if buf == "" { return; }
      Emit(mode == Thinking, buf);
      buf := "";
    }
  }

  /** What the callback has received once the stream is over. */
  ghost predicate FinalParts(g: Tags, v: View) {
    if !(g.open_ <= v.fed) then v.reasoning == "" && v.answer == v.fed
    else if Find(g.close_, v.fed[|g.open_|..]) == -1 then v.reasoning == v.fed[|g.open_|..] && v.answer == ""
    else ClosedParts(g.close_, v.fed[|g.open_|..], v.reasoning, v.answer, v.closedAt - |g.open_|)
  }

  /** End of the chunk that completes the first closing tag, or -1 if there is none. */
  ghost function TagChunkEnd(g: Tags, chunks: seq<string>): int {
    var t := Concat(chunks);
    if g.open_ <= t && Find(g.close_, t[|g.open_|..]) != -1
    then TagEnd(g, chunks, Find(g.close_, t[|g.open_|..])) + |g.open_| else -1
  }

  lemma ConcatStep(chunks: seq<string>, i: nat)
    requires i < |chunks|
    ensures Concat(chunks[..i + 1]) == Concat(chunks[..i]) + chunks[i]
    ensures forall n: nat | n <= |Concat(chunks[..i])| :: ChunkEnd(chunks[..i + 1], n) == ChunkEnd(chunks[..i], n)
  {
    assert chunks[..i + 1][..i] == chunks[..i];
  }

  /** A later chunk does not move the end of the chunk that completed the tag. */
  lemma TagChunkStays(g: Tags, chunks: seq<string>, i: nat)
    requires i < |chunks| && TagChunkEnd(g, chunks[..i]) != -1
    ensures TagChunkEnd(g, chunks[..i + 1]) == TagChunkEnd(g, chunks[..i])
  {
    ConcatStep(chunks, i);
    var front := Concat(chunks[..i]);
    assert (front + chunks[i])[|g.open_|..] == front[|g.open_|..] + chunks[i];
    SameTag(g.close_, front[|g.open_|..], chunks[i]);
  }

  /** A tag that ends after all earlier chunks is completed by this one. */
  lemma TagChunkNow(g: Tags, chunks: seq<string>, i: nat)
    requires i < |chunks| && TagChunkEnd(g, chunks[..i + 1]) != -1
    requires var t := Concat(chunks[..i + 1]);
             |Concat(chunks[..i])| < |g.open_| + Find(g.close_, t[|g.open_|..]) + |g.close_|
    ensures TagChunkEnd(g, chunks[..i + 1]) == |Concat(chunks[..i + 1])|
  {
    ConcatStep(chunks, i);
    assert chunks[..i + 1][..i] == chunks[..i];
  }

  /** Any stream, however it is cut: the callback sees exactly the specified parts, in order. */
  method SplitStream(g: Tags, chunks: seq<string>) returns (segments: seq<Segment>)
    requires g.open_ != "" && g.close_ != ""
    ensures Ordered(segments)
    ensures Parts(Joined(segments, true), Joined(segments, false)) == Split(g, chunks)
  {
    hide Split, Concat, FinalParts, TagChunkEnd, Joined, ThinkSplit.Valid, ThinkSplit.TagIn;
    var splitter := new ThinkSplit(g);
    splitter.NothingFed(chunks[..0]);
    for i := 0 to |chunks|
      invariant splitter.Valid() && splitter.g == g && splitter.fed == Concat(chunks[..i]) && fresh(splitter)
      invariant splitter.TagIn(chunks[..i])
    {
      splitter.FeedNext(chunks, i);
    }
    assert chunks[..|chunks|] == chunks;
    splitter.TagKnown(chunks);
    splitter.Flush();
    FinalIsSplit(g, splitter.Now(), chunks);
    segments := splitter.emitted;
  }

  lemma FinalIsSplit(g: Tags, v: View, chunks: seq<string>)
    requires FinalParts(g, v) && v.fed == Concat(chunks)
    requires TagChunkEnd(g, chunks) != -1 ==> v.closedAt == TagChunkEnd(g, chunks)
    ensures Parts(v.reasoning, v.answer) == Split(g, chunks)
  {
  }
}
