/** What reaches a client when an answer is written in several calls (`src/server.c`). */
module Sending {
  import opened Toolbox
  import opened Subprocess
  import opened HttpTypes
  import opened RequestParsing
  import opened Http
  import opened HttpRoundTrip

  // ---------------------------------------------------------------------------
  // As written
  // ---------------------------------------------------------------------------

  function Sum(counts: seq<nat>): nat {
    if counts == [] then 0 else Sum(counts[..|counts| - 1]) + counts[|counts| - 1]
  }

  /** The bytes received after some calls to `write`, each one given the beginning of the same
      buffer and accepting some number of bytes. */
  function Sent(buffer: string, counts: seq<nat>): string {
    if counts == [] then ""
    else Sent(buffer, counts[..|counts| - 1]) + Kept(buffer, counts[|counts| - 1])
  }

  lemma SentMore(buffer: string, counts: seq<nat>, n: nat)
    ensures Sent(buffer, counts + [n]) == Sent(buffer, counts) + Kept(buffer, n)
    ensures Sum(counts + [n]) == Sum(counts) + n
  {
    assert (counts + [n])[..|counts|] == counts;
  }

  /** No call accepted more than `limit` bytes. */
  ghost predicate AtMost(counts: seq<nat>, limit: nat) {
    forall k | 0 <= k < |counts| :: counts[k] <= limit
  }

  /** The number of bytes received is right in all cases. */
  lemma {:induction false} SentLength(buffer: string, counts: seq<nat>)
    requires AtMost(counts, |buffer|)
    ensures |Sent(buffer, counts)| == Sum(counts)
    decreases |counts|
  {
    if counts != [] {
      SentLength(buffer, counts[..|counts| - 1]);
    }
  }

  lemma {:induction false} NothingSent(buffer: string, counts: seq<nat>)
    requires Sum(counts) == 0
    ensures Sent(buffer, counts) == "" && AtMost(counts, 0)
    decreases |counts|
  {
    if counts != [] {
      NothingSent(buffer, counts[..|counts| - 1]);
    }
  }

  lemma {:induction false} SumAtLeast(counts: seq<nat>, k: nat)
    requires k < |counts|
    ensures counts[k] <= Sum(counts)
    decreases |counts|
  {
    if k < |counts| - 1 {
      SumAtLeast(counts[..|counts| - 1], k);
    }
  }

  lemma SumBoundsEach(counts: seq<nat>)
    ensures AtMost(counts, Sum(counts))
  {
    forall k | 0 <= k < |counts|
      ensures counts[k] <= Sum(counts)
    {
      SumAtLeast(counts, k);
    }
  }

  /** The call at position `k`, which gave the beginning of the text again, happened to give what
      the text has at the place where this arrived. */
  ghost predicate Fits(text: string, counts: seq<nat>, k: nat)
    requires k < |counts|
  {
    var start := Sum(counts[..k]);
    start + counts[k] <= |text| && text[start..start + counts[k]] == text[..counts[k]]
  }

  /** What was received is the beginning of the text exactly when each call fitted. */
  lemma {:induction false} PrefixIffFits(text: string, counts: seq<nat>)
    requires AtMost(counts, |text|)
    ensures Sent(text, counts) <= text <==> forall k | 0 <= k < |counts| :: Fits(text, counts, k)
    decreases |counts|
  {
    if counts != [] {
      var n := |counts| - 1;
      var earlier, last := Sent(text, counts[..n]), Kept(text, counts[n]);
      PrefixIffFits(text, counts[..n]);
      SentLength(text, counts[..n]);
      forall k | 0 <= k < n
        ensures Fits(text, counts[..n], k) <==> Fits(text, counts, k)
      {
        assert counts[..n][..k] == counts[..k];
      }
      PrefixOfJoin(earlier, last, text);
      assert Sent(text, counts) <= text <==> earlier <= text && Fits(text, counts, n);
    }
  }

  lemma PrefixOfJoin(a: string, b: string, text: string)
    ensures a + b <= text
       <==> a <= text && |a| + |b| <= |text| && text[|a|..|a| + |b|] == b
  {
    if a + b <= text {
      assert text[..|a| + |b|] == a + b;
      assert text[|a|..|a| + |b|] == (a + b)[|a|..];
    }
    if a <= text && |a| + |b| <= |text| && text[|a|..|a| + |b|] == b {
      assert text[..|a| + |b|] == text[..|a|] + text[|a|..|a| + |b|];
    }
  }

  /** Exactly when a text is received as it should be, every call giving its beginning again. */
  lemma ReceivedIffFits(text: string, counts: seq<nat>)
    requires AtMost(counts, |text|)
    ensures Sent(text, counts) == text
       <==> Sum(counts) == |text| && forall k | 0 <= k < |counts| :: Fits(text, counts, k)
  {
    SentLength(text, counts);
    PrefixIffFits(text, counts);
  }

  /** Some call accepted the whole buffer. */
  ghost predicate InOneWrite(buffer: string, counts: seq<nat>) {
    exists k :: 0 <= k < |counts| && counts[k] == |buffer|
  }

  /** One call accepted the whole buffer, and the others nothing. */
  ghost predicate OnlyOneWrite(buffer: string, counts: seq<nat>) {
    exists k :: 0 <= k < |counts| && counts[k] == |buffer| && OthersZero(counts, k)
  }

  ghost predicate OthersZero(counts: seq<nat>, k: nat) {
    forall j | 0 <= j < |counts| && j != k :: counts[j] == 0
  }

  lemma {:induction false} OneWriteSendsAll(buffer: string, counts: seq<nat>, k: nat)
    requires Sum(counts) == |buffer| && k < |counts| && counts[k] == |buffer|
    ensures Sent(buffer, counts) == buffer && OthersZero(counts, k)
    decreases |counts|
  {
    var n := |counts| - 1;
    if k == n {
      NothingSent(buffer, counts[..n]);
    } else {
      SumAtLeast(counts[..n], k);
      OneWriteSendsAll(buffer, counts[..n], k);
    }
    OthersZeroStep(counts, k);
  }

  lemma OthersZeroStep(counts: seq<nat>, k: nat)
    requires k < |counts|
    requires if k == |counts| - 1 then AtMost(counts[..k], 0)
             else counts[|counts| - 1] == 0 && OthersZero(counts[..|counts| - 1], k)
    ensures OthersZero(counts, k)
  {
    var n := |counts| - 1;
    forall j | 0 <= j < |counts| && j != k
      ensures counts[j] == 0
    {
      if j < n {
        assert counts[..n][j] == counts[j];
      }
    }
  }

  lemma {:induction false} OnlyOneIsSum(counts: seq<nat>, k: nat)
    requires k < |counts| && OthersZero(counts, k)
    ensures Sum(counts) == counts[k]
    decreases |counts|
  {
    var n := |counts| - 1;
    if k == n {
      ZerosAddUp(counts[..n]);
    } else {
      OnlyOneIsSum(counts[..n], k);
    }
  }

  lemma {:induction false} ZerosAddUp(counts: seq<nat>)
    requires AtMost(counts, 0)
    ensures Sum(counts) == 0
    decreases |counts|
  {
    if counts != [] {
      ZerosAddUp(counts[..|counts| - 1]);
    }
  }

  /** No proper beginning of the text is also an end of it. */
  ghost predicate Borderless(text: string) {
    forall n | 0 < n < |text| :: text[..n] != text[|text| - n..]
  }

  /** The last call sends the beginning of the buffer at the end of the stream. */
  lemma SentEnd(text: string, counts: seq<nat>)
    requires counts != [] && Sum(counts) == |text| && Sent(text, counts) == text
    ensures var last := counts[|counts| - 1];
            last <= |text| && text[|text| - last..] == text[..last]
  {
    var n := |counts| - 1;
    SumBoundsEach(counts);
    SentLength(text, counts[..n]);
    assert Sent(text, counts)[|text| - counts[n]..] == Kept(text, counts[n]);
  }

  lemma {:induction false} SentAllIsOneWrite(text: string, counts: seq<nat>)
    requires text != "" && Borderless(text) && Sum(counts) == |text| && Sent(text, counts) == text
    ensures InOneWrite(text, counts)
    decreases |counts|
  {
    var n := |counts| - 1;
    var last := counts[n];
    if last == |text| {
      assert counts[n] == |text|;
    } else if last == 0 {
      SentAllIsOneWrite(text, counts[..n]);
      var k :| 0 <= k < |counts[..n]| && counts[..n][k] == |text|;
      assert counts[k] == |text|;
    } else {
      SentEnd(text, counts);
      assert false;
    }
  }

  /** A text without such a repetition is received as it should be exactly when one call took all
      of it and the others nothing: in particular it must not be sent twice. */
  lemma ReceivedIffOnlyOneWrite(text: string, counts: seq<nat>)
    requires text != "" && Borderless(text) && AtMost(counts, |text|)
    ensures Sent(text, counts) == text <==> OnlyOneWrite(text, counts)
  {
    SentLength(text, counts);
    if Sent(text, counts) == text {
      SentAllIsOneWrite(text, counts);
      var k :| 0 <= k < |counts| && counts[k] == |text|;
      OneWriteSendsAll(text, counts, k);
    }
    if OnlyOneWrite(text, counts) {
      var k :| 0 <= k < |counts| && counts[k] == |text| && OthersZero(counts, k);
      OnlyOneIsSum(counts, k);
      OneWriteSendsAll(text, counts, k);
    }
  }

  lemma SentTwice(buffer: string, m: nat, n: nat)
    ensures Sent(buffer, [m]) == Kept(buffer, m) && Sent(buffer, [m, n]) == Kept(buffer, m) + Kept(buffer, n)
  {
    hide Kept, Sum;
    var one, two := [m], [m, n];
    assert one[..0] == [] && Sent(buffer, one[..0]) == "";
    assert Sent(buffer, one) == Sent(buffer, one[..0]) + Kept(buffer, m);
    assert two[..1] == one && two[1] == n;
  }

  /** A body accepted twice is received twice. */
  lemma BodySentTwice()
    ensures Borderless("ab") && Sent("ab", [2]) == "ab" && Sent("ab", [2, 2]) == "abab"
  {
    hide Sent;
    SentTwice("ab", 2, 2);
    var body := "ab";
    forall n | 0 < n < |body|
      ensures body[..n] != body[|body| - n..]
    {
      assert body[..n][0] == 'a' && body[|body| - n..][0] == 'b';
    }
  }

  /** A body which repeats itself may survive short writes. */
  lemma RepetitionHidesShortWrites()
    ensures Sent("aa", [1, 1]) == "aa" && !OnlyOneWrite("aa", [1, 1]) && !Borderless("aa")
  {
    hide Sent;
    SentTwice("aa", 1, 1);
    var body := "aa";
    assert body[..1] == body[|body| - 1..];
  }

  /** A text ending with its only double CRLF, and beginning with something else. */
  ghost predicate HeaderLike(text: string) {
    && 4 <= |text| && text[0] != '\r' && text[0] != '\n'
    && forall i :: BlankLineEndsAt(text, i) <==> i == |text| - 1
  }

  lemma NoBorder(text: string, n: nat)
    requires HeaderLike(text) && 0 < n < |text|
    ensures text[..n] != text[|text| - n..]
  {
    var start, end := text[..n], text[|text| - n..];
    assert BlankLineEndsAt(text, |text| - 1) && !BlankLineEndsAt(text, n - 1);
    assert start[0] == text[0] && end[0] == text[|text| - n];
    if 4 <= n {
      assert start[n - 4] == text[n - 4] && end[n - 4] == text[|text| - 4];
      assert start[n - 3] == text[n - 3] && end[n - 3] == text[|text| - 3];
      assert start[n - 2] == text[n - 2] && end[n - 2] == text[|text| - 2];
      assert start[n - 1] == text[n - 1] && end[n - 1] == text[|text| - 1];
    }
  }

  lemma HeaderIsBorderless(h: HttpHeader)
    requires CleanHeader(h)
    ensures Borderless(HeaderText(h)) && 4 <= |HeaderText(h)|
  {
    hide HeaderText, CleanHeader;
    var text := HeaderText(h);
    HeaderEndsOnce(h, |text| - 1);
    forall i
      ensures BlankLineEndsAt(text, i) <==> i == |text| - 1
    {
      HeaderEndsOnce(h, i);
    }
    forall n | 0 < n < |text|
      ensures text[..n] != text[|text| - n..]
    {
      NoBorder(text, n);
    }
  }

  /** Since every call starts again from the beginning of the buffer, a header sent in full is
      received as it should be exactly when one call accepted all of it: any short write
      corrupts it. */
  lemma HeaderReceivedIffOneWrite(h: HttpHeader, counts: seq<nat>)
    requires CleanHeader(h) && Sum(counts) == |HeaderText(h)|
    ensures Sent(HeaderText(h), counts) == HeaderText(h) <==> InOneWrite(HeaderText(h), counts)
  {
    hide HeaderText, CleanHeader;
    var text := HeaderText(h);
    HeaderIsBorderless(h);
    if Sent(text, counts) == text {
      SentAllIsOneWrite(text, counts);
    }
    if InOneWrite(text, counts) {
      var k :| 0 <= k < |counts| && counts[k] == |text|;
      OneWriteSendsAll(text, counts, k);
    }
  }

  lemma SumOfTwo(m: nat, n: nat)
    ensures Sum([m, n]) == m + n
  {
    var one, two := [m], [m, n];
    assert one[..0] == [] && Sum(one) == m;
    assert two[..1] == one;
  }

  /** For instance the header of this answer, taken in two writes. */
  lemma HeaderInTwoWrites()
    ensures var text := HeaderText(AnswerHeader(Http11, Http404));
            && |text| > 1 && Sum([1, |text| - 1]) == |text| && Sent(text, [1, |text| - 1]) != text
  {
    hide HeaderText, Sent, Sum;
    var h := AnswerHeader(Http11, Http404);
    var text := HeaderText(h);
    HeaderIsBorderless(h);
    SumOfTwo(1, |text| - 1);
    HeaderReceivedIffOneWrite(h, [1, |text| - 1]);
  }

  // ---------------------------------------------------------------------------
  // As meant
  // ---------------------------------------------------------------------------

  /** The state of an answer being sent, with the repairs: both offsets are advanced, and each
      call starts at the offset reached. */
  datatype Transfer = Transfer(
    header: string, body: string, headerOffset: nat, bodyOffset: nat, received: string, waiting: bool)
  {
    ghost predicate Valid() {
      && headerOffset <= |header| && bodyOffset <= |body|
      && (bodyOffset > 0 ==> headerOffset == |header|)
      && received == header[..headerOffset] + body[..bodyOffset]
      && (waiting <==> headerOffset == |header| && bodyOffset == |body|)
    }
  }

  function Start(header: string, body: string): Transfer {
    Transfer(header, body, 0, 0, "", false)
  }

  /** One write step of the repaired server: `n` header bytes are accepted and then, if the header
      is complete, `m` body bytes. */
  function WriteStep(t: Transfer, n: nat, m: nat): Transfer
    requires t.headerOffset <= |t.header| && t.bodyOffset <= |t.body|
  {
    var accepted := Min(n, |t.header| - t.headerOffset);
    var headerEnd := t.headerOffset + accepted;
    var received := t.received + t.header[t.headerOffset..headerEnd]; // repair: from the offset
    if headerEnd < |t.header| then
      t.(headerOffset := headerEnd, received := received)
    else
      var bodyEnd := t.bodyOffset + Min(m, |t.body| - t.bodyOffset);  // repair: the offset advances
      t.(headerOffset := headerEnd, bodyOffset := bodyEnd,
         received := received + t.body[t.bodyOffset..bodyEnd],          // repair: from the offset
         waiting := bodyEnd == |t.body|)
  }

  /** What one step does to the offsets and to the bytes received. */
  lemma StepEffect(t: Transfer, n: nat, m: nat)
    requires t.Valid() && !t.waiting
    ensures var r := WriteStep(t, n, m);
      && r.header == t.header && r.body == t.body
      && t.headerOffset <= r.headerOffset <= |t.header| && t.bodyOffset <= r.bodyOffset <= |t.body|
      && (t.bodyOffset < r.bodyOffset || t.bodyOffset > 0 ==> r.headerOffset == |t.header|)
      && (t.headerOffset < r.headerOffset ==> t.bodyOffset == 0)
      && (r.waiting <==> r.headerOffset == |t.header| && r.bodyOffset == |t.body|)
      && r.received == t.received + t.header[t.headerOffset..r.headerOffset] + t.body[t.bodyOffset..r.bodyOffset]
      && (n > 0 && m > 0 && !r.waiting ==> t.headerOffset + t.bodyOffset < r.headerOffset + r.bodyOffset)
  {
  }

  lemma StepKeepsValid(t: Transfer, n: nat, m: nat)
    requires t.Valid() && !t.waiting
    ensures WriteStep(t, n, m).Valid()
    ensures WriteStep(t, n, m).header == t.header && WriteStep(t, n, m).body == t.body
    ensures t.received <= WriteStep(t, n, m).received
    ensures n > 0 && m > 0 ==> WriteStep(t, n, m).waiting || |t.received| < |WriteStep(t, n, m).received|
  {
    hide WriteStep;
    StepEffect(t, n, m);
    var r := WriteStep(t, n, m);
    Grow(t.header, t.headerOffset, r.headerOffset);
    Grow(t.body, t.bodyOffset, r.bodyOffset);
    MergeTexts(t.header[..t.headerOffset], t.header[t.headerOffset..r.headerOffset],
               t.body[..t.bodyOffset], t.body[t.bodyOffset..r.bodyOffset]);
  }

  lemma Grow(s: string, i: nat, j: nat)
    requires i <= j <= |s|
    ensures s[..j] == s[..i] + s[i..j] && |s[i..j]| == j - i
  {
  }

  lemma MergeTexts(a: string, b: string, c: string, d: string)
    requires c == "" || b == ""
    ensures a + c + b + d == (a + b) + (c + d)
  {
  }

  /** Sending until the answer is complete, however the calls are cut. */
  function Run(t: Transfer, steps: seq<(nat, nat)>): Transfer
    requires t.Valid()
    ensures Run(t, steps).Valid()
    decreases |steps|
  {
    if steps == [] || t.waiting then t
    else
      StepKeepsValid(t, steps[0].0, steps[0].1);
      Run(WriteStep(t, steps[0].0, steps[0].1), steps[1..])
  }

  /** With the repairs the client receives the header then the body, in order, each byte once,
      and the server waits for the next request exactly when it has received them all. */
  lemma {:induction false} RepairedSending(header: string, body: string, steps: seq<(nat, nat)>)
    requires header != ""
    ensures Start(header, body).Valid()
    ensures var r := Run(Start(header, body), steps);
            && r.received <= header + body
            && (r.waiting <==> r.received == header + body)
  {
    var t := Start(header, body);
    RunKeepsTexts(t, steps);
    var r := Run(t, steps);
    assert header[..r.headerOffset] + body[..r.bodyOffset] <= header + body;
    if r.headerOffset == |header| && r.bodyOffset == |body| {
      assert header[..r.headerOffset] == header && body[..r.bodyOffset] == body;
    }
  }

  lemma {:induction false} RunKeepsTexts(t: Transfer, steps: seq<(nat, nat)>)
    requires t.Valid()
    ensures Run(t, steps).header == t.header && Run(t, steps).body == t.body
    decreases |steps|
  {
    if steps != [] && !t.waiting {
      StepKeepsValid(t, steps[0].0, steps[0].1);
      RunKeepsTexts(WriteStep(t, steps[0].0, steps[0].1), steps[1..]);
    }
  }

  /** When every call accepts something, the answer is complete after as many steps as it has
      bytes. */
  lemma {:induction false} RepairedSendingEnds(t: Transfer, steps: seq<(nat, nat)>)
    requires t.Valid()
    requires forall i | 0 <= i < |steps| :: steps[i].0 > 0 && steps[i].1 > 0
    requires |t.header| + |t.body| - |t.received| <= |steps|
    requires t.header != "" && (t.waiting || |t.received| < |t.header| + |t.body|)
    ensures Run(t, steps).waiting
    decreases |steps|
  {
    if !t.waiting {
      StepKeepsValid(t, steps[0].0, steps[0].1);
      var r := WriteStep(t, steps[0].0, steps[0].1);
      RepairedSendingEnds(r, steps[1..]);
    }
  }
}
