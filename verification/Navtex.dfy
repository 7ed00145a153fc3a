/** Framing of NAVTEX bulletins in the decoder's output: ZCZC <header> ... NNNN. */
module Navtex {
  import opened Numbers
  import opened Options
  import opened Text

  const MAX_BUFFER := 65536
  const MAX_MESSAGES := 16

  predicate IsLetter(c: char) {
    'a' <= c <= 'z' || 'A' <= c <= 'Z'
  }

  predicate IsDigit(c: char) {
    '0' <= c <= '9'
  }

  predicate IsZ(c: char) { c == 'Z' || c == 'z' }

  predicate IsC(c: char) { c == 'C' || c == 'c' }

  predicate IsN(c: char) { c == 'N' || c == 'n' }

  predicate StartMark(s: string, i: nat) {
    i + 4 <= |s| && IsZ(s[i]) && IsC(s[i+1]) && IsZ(s[i+2]) && IsC(s[i+3])
  }

  predicate EndMark(s: string, j: nat) {
    j + 4 <= |s| && IsN(s[j]) && IsN(s[j+1]) && IsN(s[j+2]) && IsN(s[j+3])
  }

  /** Two letters and two digits: station, subject, serial number. */
  predicate Identifier(s: string, k: nat) {
    k + 4 <= |s| && IsLetter(s[k]) && IsLetter(s[k+1]) && IsDigit(s[k+2]) && IsDigit(s[k+3])
  }

  function SkipSpaces(s: string, k: nat): (r: nat)
    ensures k <= r && (k <= |s| ==> r <= |s|) && (forall m :: k <= m < r ==> m < |s| && IsSpace(s[m]))
    ensures r < |s| ==> !IsSpace(s[r])
    decreases |s| - k
  {
    if k < |s| && IsSpace(s[k]) then SkipSpaces(s, k + 1) else k
  }

  /** Where a header that starts at i ends. */
  function HeaderEnd(s: string, i: nat): Option<nat> {
    if !StartMark(s, i) then None else
    var k := SkipSpaces(s, i + 4);
    if k > i + 4 && Identifier(s, k) then Some(k + 4) else None
  }

  function FindEnd(s: string, j: nat): (m: Option<nat>)
    ensures m.Some? ==> j <= m.value && EndMark(s, m.value) && forall k :: j <= k < m.value ==> !EndMark(s, k)
    ensures m.None? ==> forall k :: j <= k ==> !EndMark(s, k)
    decreases |s| - j
  {
    if j + 4 > |s| then None else if EndMark(s, j) then Some(j) else FindEnd(s, j + 1)
  }

  /** The end of the lazy match that starts at i. */
  function MatchAt(s: string, i: nat): Option<nat> {
    match HeaderEnd(s, i)
    case Some(e) => (match FindEnd(s, e) case Some(m) => Some(m + 4) case None => None)
    case None => None
  }

  function SearchFrom(s: string, i: nat): (r: Option<(nat, nat)>)
    ensures r.Some? ==> i <= r.value.0 < r.value.1 <= |s| && MatchAt(s, r.value.0) == Some(r.value.1)
    ensures r.Some? ==> forall k :: i <= k < r.value.0 ==> MatchAt(s, k).None?
    ensures r.None? ==> forall k :: i <= k < |s| ==> MatchAt(s, k).None?
    decreases |s| - i
  {
    if i >= |s| then None else match MatchAt(s, i) case Some(j) => Some((i, j)) case None => SearchFrom(s, i + 1)
  }

  function Search(s: string): Option<(nat, nat)> {
    SearchFrom(s, 0)
  }

  /** s[i..j] is in the language of the block expression, with k the start of the identifier. */
  ghost predicate InLanguage(s: string, i: nat, k: nat, j: nat) {
    && StartMark(s, i) && i + 4 < k && k <= |s| && (forall m :: i + 4 <= m < k ==> IsSpace(s[m]))
    && Identifier(s, k) && k + 8 <= j && EndMark(s, j - 4)
  }

  lemma LanguageIsMatched(s: string, i: nat, k: nat, j: nat)
    requires InLanguage(s, i, k, j)
    ensures i < |s| && MatchAt(s, i).Some? && MatchAt(s, i).value <= j
  {
    assert SkipSpaces(s, i + 4) == k;
    assert HeaderEnd(s, i) == Some(k + 4);
  }

  lemma MatchIsInLanguage(s: string, i: nat, j: nat)
    ensures MatchAt(s, i) == Some(j) ==> InLanguage(s, i, SkipSpaces(s, i + 4), j)
  {
  }

  /** From i on the text spells the word, in either case. */
  ghost predicate Spells(s: string, i: nat, upper: string, lower: string)
    requires |upper| == |lower|
  {
    i + |upper| <= |s| && forall n :: 0 <= n < |upper| ==> s[i+n] == upper[n] || s[i+n] == lower[n]
  }

  ghost predicate OneOf(c: char, from: char, to: char) {
    from <= c <= to
  }

  /** The text from i to j is a block: ZCZC, whitespace up to k, two letters and two digits, anything, and NNNN. */
  ghost predicate IsBlock(s: string, i: nat, k: nat, j: nat) {
    && i + 4 < k && k + 8 <= j <= |s| && Spells(s, i, "ZCZC", "zczc") && Spells(s, j - 4, "NNNN", "nnnn")
    && (forall m :: i + 4 <= m < k ==> IsSpace(s[m]))
    && (forall m :: k <= m < k + 2 ==> OneOf(s[m], 'A', 'Z') || OneOf(s[m], 'a', 'z'))
    && (forall m :: k + 2 <= m < k + 4 ==> OneOf(s[m], '0', '9'))
  }

  lemma SpellsFour(s: string, i: nat, upper: string, lower: string)
    requires |upper| == |lower| == 4
    ensures Spells(s, i, upper, lower) <==>
      && i + 4 <= |s| && (s[i] == upper[0] || s[i] == lower[0]) && (s[i+1] == upper[1] || s[i+1] == lower[1])
      && (s[i+2] == upper[2] || s[i+2] == lower[2]) && (s[i+3] == upper[3] || s[i+3] == lower[3])
  {
    if Spells(s, i, upper, lower) {
      assert s[i+0] == upper[0] || s[i+0] == lower[0];
    }
  }

  lemma BlockIff(s: string, i: nat, k: nat, j: nat)
    ensures InLanguage(s, i, k, j) <==> IsBlock(s, i, k, j)
  {
    hide Spells, IsSpace;
    SpellsFour(s, i, "ZCZC", "zczc");
    if j >= 4 {
      SpellsFour(s, j - 4, "NNNN", "nnnn");
    }
  }

  /** `search` gives the leftmost block, and of those the shortest. */
  lemma SearchIsLeftmostShortest(s: string)
    ensures match Search(s)
      case Some((i, j)) =>
        && (exists k :: IsBlock(s, i, k, j))
        && forall i': nat, k': nat, j': nat :: IsBlock(s, i', k', j') ==> i <= i' && (i' == i ==> j <= j')
      case None => forall i: nat, k: nat, j: nat :: !IsBlock(s, i, k, j)
  {
    hide InLanguage, IsBlock, MatchAt;
    forall i: nat, k: nat, j: nat | IsBlock(s, i, k, j)
      ensures i < |s| && MatchAt(s, i).Some? && MatchAt(s, i).value <= j
    {
      BlockIff(s, i, k, j);
      LanguageIsMatched(s, i, k, j);
    }
    if Search(s).Some? {
      var (i, j) := Search(s).value;
      MatchIsInLanguage(s, i, j);
      BlockIff(s, i, SkipSpaces(s, i + 4), j);
    }
  }

  function WithoutReturns(s: string): string {
    if s == [] then [] else (if s[0] == '\r' then [] else [s[0]]) + WithoutReturns(s[1..])
  }

  function Clean(block: string): string {
    Strip(WithoutReturns(block))
  }

  /** The extraction loop: the blocks, and the text kept for later. */
  function Extract(s: string): (seq<string>, string)
    decreases |s|
  {
    match Search(s)
    case Some((i, j)) => var (blocks, rest) := Extract(s[j..]); ([Clean(s[i..j])] + blocks, rest)
    case None => ([], s)
  }

  // ---------------------------------------------------------------- extraction commutes with appending

  // ---------------------------------------------------------------- the text of a message

  lemma {:induction false} WithoutReturnsAppend(a: string, b: string)
    ensures WithoutReturns(a + b) == WithoutReturns(a) + WithoutReturns(b)
  {
    if a == [] {
      assert a + b == b;
    } else {
      assert (a + b)[1..] == a[1..] + b;
      WithoutReturnsAppend(a[1..], b);
    }
  }

  lemma {:induction false} NoReturnsStay(s: string)
    ensures '\r' !in WithoutReturns(s)
    ensures '\r' !in s ==> WithoutReturns(s) == s
  {
    if s != [] {
      NoReturnsStay(s[1..]);
    }
  }

  /** Text without returns stays as it is, and a return between two texts vanishes. */
  lemma ReturnsVanish(a: string, b: string)
    ensures WithoutReturns(a + "\r" + b) == WithoutReturns(a) + WithoutReturns(b)
    ensures '\r' !in a ==> WithoutReturns(a) == a
  {
    assert WithoutReturns("\r") == [] + WithoutReturns([]);
    WithoutReturnsAppend(a + "\r", b);
    WithoutReturnsAppend(a, "\r");
    NoReturnsStay(a);
    hide WithoutReturns;
  }

  /** A message is a framed block without returns; there is never whitespace to strip. */
  ghost predicate IsMessage(m: string, block: string) {
    && m == WithoutReturns(block) && |m| >= 8 && StartMark(m, 0) && EndMark(m, |m| - 4) && '\r' !in m
  }

  lemma MarksHaveNoReturns(s: string, i: nat)
    ensures StartMark(s, i) || EndMark(s, i) ==> '\r' !in s[i..i+4]
  {
  }

  /** The marks survive the removal of returns. */
  lemma FrameStays(block: string)
    requires |block| >= 8 && StartMark(block, 0) && EndMark(block, |block| - 4)
    ensures exists middle :: WithoutReturns(block) == block[..4] + middle + block[|block|-4..]
  {
    hide StartMark, EndMark, WithoutReturns;
    var first, middle, last := block[..4], block[4..|block|-4], block[|block|-4..];
    MarksHaveNoReturns(block, 0);
    MarksHaveNoReturns(block, |block| - 4);
    NoReturnsStay(first);
    NoReturnsStay(last);
    assert block == first + middle + last && block[0..0+4] == first && block[|block|-4..|block|-4+4] == last;
    WithoutReturnsAppend(first + middle, last);
    WithoutReturnsAppend(first, middle);
    assert WithoutReturns(block) == block[..4] + WithoutReturns(middle) + block[|block|-4..];
  }

  lemma FramedMarks(block: string, middle: string)
    requires |block| >= 8 && StartMark(block, 0) && EndMark(block, |block| - 4)
    ensures var m := block[..4] + middle + block[|block|-4..];
      StartMark(m, 0) && EndMark(m, |m| - 4) && !IsSpace(m[0]) && !IsSpace(m[|m|-1])
  {
    var m := block[..4] + middle + block[|block|-4..];
    assert m[..4] == block[..4] && m[|m|-4..] == block[|block|-4..];
    assert forall k :: 0 <= k < 4 ==> m[..4][k] == m[k];
    assert forall k :: |m| - 4 <= k < |m| ==> m[k] == m[|m|-4..][k-(|m|-4)];
    assert forall k :: |block| - 4 <= k < |block| ==> block[k] == block[|block|-4..][k-(|block|-4)];
  }

  lemma BlockIsMessage(block: string)
    requires |block| >= 8 && StartMark(block, 0) && EndMark(block, |block| - 4)
    ensures IsMessage(Clean(block), block)
  {
    FrameStays(block);
    hide WithoutReturns, StartMark, EndMark, IsSpace, Strip;
    var m := WithoutReturns(block);
    var middle :| m == block[..4] + middle + block[|block|-4..];
    FramedMarks(block, middle);
    NoReturnsStay(block);
    StripIsIdentityIff(m);
  }

  /** Every message found is a framed block of the text, without its returns. */
  lemma {:induction false} MessagesAreBlocks(s: string)
    ensures forall m :: m in Extract(s).0 ==> exists i: nat, j: nat :: i <= j <= |s| && IsMessage(m, s[i..j])
    decreases |s|
  {
    hide IsMessage, Clean, Search;
    if Search(s).Some? {
      var (i, j) := Search(s).value;
      SearchFrame(s);
      BlockIsMessage(s[i..j]);
      MessagesAreBlocks(s[j..]);
      forall m | m in Extract(s[j..]).0 ensures exists a: nat, b: nat :: a <= b <= |s| && IsMessage(m, s[a..b]) {
        var a: nat, b: nat :| a <= b <= |s[j..]| && IsMessage(m, s[j..][a..b]);
        assert s[j..][a..b] == s[j+a..j+b];
      }
    }
  }

  lemma SearchFrame(s: string)
    requires Search(s).Some?
    ensures var (i, j) := Search(s).value;
      i + 8 <= j <= |s| && StartMark(s[i..j], 0) && EndMark(s[i..j], j - i - 4)
  {
    var (i, j) := Search(s).value;
    MatchIsInLanguage(s, i, j);
    var k :| InLanguage(s, i, k, j);
  }

  /** No start mark lies inside a header. */
  lemma HeadersDoNotOverlap(s: string, i: nat, k: nat)
    ensures HeaderEnd(s, i).Some? && StartMark(s, k) && i < k ==> HeaderEnd(s, i).value <= k
  {
  }

  lemma {:induction false} SkipSpacesInPrefix(a: string, b: string, k: nat)
    requires k <= |a| && SkipSpaces(a, k) < |a|
    ensures SkipSpaces(a + b, k) == SkipSpaces(a, k)
    decreases |a| - k
  {
    if IsSpace(a[k]) {
      SkipSpacesInPrefix(a, b, k + 1);
    }
  }

  lemma HeaderInPrefix(a: string, b: string, i: nat)
    ensures HeaderEnd(a, i).Some? ==> HeaderEnd(a + b, i) == HeaderEnd(a, i)
    ensures HeaderEnd(a + b, i).Some? && HeaderEnd(a + b, i).value <= |a| ==> HeaderEnd(a, i) == HeaderEnd(a + b, i)
  {
    if StartMark(a, i) {
      var k := SkipSpaces(a, i + 4);
      if k < |a| {
        SkipSpacesInPrefix(a, b, i + 4);
      }
    }
  }

  lemma MatchInPrefix(a: string, b: string, i: nat, j: nat)
    requires MatchAt(a, i) == Some(j)
    ensures MatchAt(a + b, i) == Some(j) && j >= 4 && EndMark(a, j - 4) && StartMark(a + b, i)
  {
    HeaderInPrefix(a, b, i);
    assert forall m: nat :: m + 4 <= |a| ==> EndMark(a + b, m) == EndMark(a, m);
    var e := HeaderEnd(a, i).value;
    hide HeaderEnd, EndMark;
    assert FindEnd(a + b, e) == FindEnd(a, e);
  }

  /** A start before an unfinished or unclosed header cannot match once more text arrives. */
  lemma NoEarlierMatch(a: string, b: string, i: nat, j: nat, k: nat)
    requires MatchAt(a, i) == Some(j) && MatchAt(a, k).None? && k < i
    ensures MatchAt(a + b, k).None?
  {
    MatchInPrefix(a, b, i, j);
    HeaderInPrefix(a, b, k);
    if HeaderEnd(a + b, k).Some? {
      HeadersDoNotOverlap(a + b, k, i);
      hide HeaderEnd, EndMark;
      assert false;
    }
  }

  /** A block found in a prefix of the stream is the block found in the stream. */
  lemma SearchInPrefix(a: string, b: string)
    requires Search(a).Some?
    ensures Search(a + b) == Search(a)
  {
    hide MatchAt;
    var (i, j) := Search(a).value;
    MatchInPrefix(a, b, i, j);
    forall k | 0 <= k < i ensures MatchAt(a + b, k).None? {
      NoEarlierMatch(a, b, i, j, k);
    }
  }

  lemma SearchBounds(s: string)
    ensures Search(s).Some? ==> 0 <= Search(s).value.0 < Search(s).value.1 <= |s|
  {
  }

  lemma {:induction false} ExtractAppend(a: string, b: string)
    ensures var (blocks, rest) := Extract(a);
      var (more, left) := Extract(rest + b);
      Extract(a + b) == (blocks + more, left)
    decreases |a|
  {
    hide Search, Clean;
    if Search(a).Some? {
      var (i, j) := Search(a).value;
      SearchBounds(a);
      SearchInPrefix(a, b);
      assert (a + b)[j..] == a[j..] + b && (a + b)[i..j] == a[i..j];
      ExtractAppend(a[j..], b);
      var (blocks, rest) := Extract(a[j..]);
      var more := Extract(rest + b).0;
      assert [Clean(a[i..j])] + (blocks + more) == ([Clean(a[i..j])] + blocks) + more;
    } else {
      assert [] + Extract(a + b).0 == Extract(a + b).0;
    }
  }

  // ---------------------------------------------------------------- drains

  /** What stays of the buffer after one chunk. */
  function Received(buffer: string, chunk: string): string {
    var all := buffer + chunk;
    if |all| <= MAX_BUFFER then all else all[|all|-MAX_BUFFER..]
  }

  function ReceivedAll(buffer: string, chunks: seq<string>): string {
    if chunks == [] then buffer else Received(ReceivedAll(buffer, chunks[..|chunks|-1]), chunks[|chunks|-1])
  }

  function Joined(texts: seq<string>): string {
    if texts == [] then "" else Joined(texts[..|texts|-1]) + texts[|texts|-1]
  }

  function Capped<T>(blocks: seq<T>): seq<T> {
    if |blocks| <= MAX_MESSAGES then blocks else blocks[..MAX_MESSAGES]
  }

  class Decoder {
    var textBuffer: string

    constructor ()
      ensures textBuffer == ""
    {
      textBuffer := "";
    }

    /** One `drain_output`, given the chunks that were ready. */
    method DrainOutput(chunks: seq<string>) returns (messages: seq<string>)
      modifies this
      ensures var (blocks, rest) := Extract(ReceivedAll(old(textBuffer), chunks));
        messages == Capped(blocks) && textBuffer == rest
    {
      for n := 0 to |chunks|
        invariant textBuffer == ReceivedAll(old(textBuffer), chunks[..n])
      {
        assert chunks[..n+1][..n] == chunks[..n];
        textBuffer := Received(textBuffer, chunks[n]);
      }
      assert chunks[..|chunks|] == chunks;
      ghost var all := textBuffer;
      messages := [];
      var found := Search(textBuffer);
      assert messages + Extract(all).0 == Extract(all).0;
      while found.Some?
        invariant found == Search(textBuffer)
        invariant Extract(all) == (messages + Extract(textBuffer).0, Extract(textBuffer).1)
        decreases |textBuffer|
      {
        var (start, end) := found.value;
        var block := Clean(textBuffer[start..end]);
        assert forall more: seq<string> :: messages + ([block] + more) == (messages + [block]) + more;
        textBuffer := textBuffer[end..];
        messages := messages + [block];
        found := Search(textBuffer);
      }
      messages := Capped(messages);
    }
  }

  /** The decoder over a sequence of drains: the blocks of each drain before the cap, and the buffer. */
  function Drains(drains: seq<seq<string>>): (seq<seq<string>>, string) {
    if drains == [] then ([], "") else
    var (found, buffer) := Drains(drains[..|drains|-1]);
    var (blocks, rest) := Extract(ReceivedAll(buffer, drains[|drains|-1]));
    (found + [blocks], rest)
  }

  function Stream(drains: seq<seq<string>>): string {
    if drains == [] then "" else Stream(drains[..|drains|-1]) + Joined(drains[|drains|-1])
  }

  function Flat(found: seq<seq<string>>): seq<string> {
    if found == [] then [] else Flat(found[..|found|-1]) + found[|found|-1]
  }

  function FlatCapped(found: seq<seq<string>>): seq<string> {
    if found == [] then [] else FlatCapped(found[..|found|-1]) + Capped(found[|found|-1])
  }

  /** No drain ever had to throw text away. */
  ghost predicate NeverOverflows(drains: seq<seq<string>>) {
    forall n :: 0 <= n < |drains| ==> |Drains(drains[..n]).1| + |Joined(drains[n])| <= MAX_BUFFER
  }

  lemma {:induction false} ReceivedIsJoined(buffer: string, chunks: seq<string>)
    requires |buffer| + |Joined(chunks)| <= MAX_BUFFER
    ensures ReceivedAll(buffer, chunks) == buffer + Joined(chunks)
  {
    if chunks != [] {
      ReceivedIsJoined(buffer, chunks[..|chunks|-1]);
    }
  }

  lemma ReceivedKeepsNewest(all: string, kept: string, chunk: string)
    requires |kept| == Min(|all|, MAX_BUFFER) && kept == all[|all|-|kept|..]
    ensures var more, next := all + chunk, Received(kept, chunk);
      |next| == Min(|more|, MAX_BUFFER) && next == more[|more|-|next|..]
  {
    var more, next := all + chunk, Received(kept, chunk);
    assert kept + chunk == more[|all|-|kept|..];
    assert next == more[|more|-|next|..];
  }

  lemma JoinedSnoc(buffer: string, chunks: seq<string>)
    requires chunks != []
    ensures var init, last := chunks[..|chunks|-1], chunks[|chunks|-1];
      && buffer + Joined(chunks) == buffer + Joined(init) + last
      && ReceivedAll(buffer, chunks) == Received(ReceivedAll(buffer, init), last)
  {
  }

  /** However the output is chunked, one drain leaves the newest 65,536 characters of what there was and what came. */
  lemma {:induction false} OverflowKeepsNewest(buffer: string, chunks: seq<string>)
    requires |buffer| <= MAX_BUFFER
    ensures var all, kept := buffer + Joined(chunks), ReceivedAll(buffer, chunks);
      |kept| == Min(|all|, MAX_BUFFER) && kept == all[|all|-|kept|..]
  {
    hide Received;
    if chunks == [] {
      assert buffer + Joined(chunks) == buffer;
    } else {
      var init, last := chunks[..|chunks|-1], chunks[|chunks|-1];
      OverflowKeepsNewest(buffer, init);
      JoinedSnoc(buffer, chunks);
      ReceivedKeepsNewest(buffer + Joined(init), ReceivedAll(buffer, init), last);
    }
  }

  lemma {:induction false} DrainsExtractStream(drains: seq<seq<string>>)
    requires NeverOverflows(drains)
    ensures Extract(Stream(drains)) == (Flat(Drains(drains).0), Drains(drains).1)
  {
    hide Extract;
    if drains == [] {
      NothingToExtract();
    } else {
      var init, last := drains[..|drains|-1], drains[|drains|-1];
      assert forall n :: 0 <= n <= |init| ==> init[..n] == drains[..n];
      assert forall n :: 0 <= n < |init| ==> init[n] == drains[n];
      DrainsExtractStream(init);
      var (found, buffer) := Drains(init);
      assert |Drains(drains[..|init|]).1| + |Joined(drains[|init|])| <= MAX_BUFFER;
      ReceivedIsJoined(buffer, last);
      ExtractAppend(Stream(init), Joined(last));
      var blocks := Extract(buffer + Joined(last)).0;
      assert (found + [blocks])[..|found|] == found;
    }
  }

  lemma NothingToExtract()
    ensures Extract("") == ([], "")
  {
  }

  lemma {:induction false} CapsLoseNothingIff(found: seq<seq<string>>)
    ensures |FlatCapped(found)| <= |Flat(found)|
    ensures FlatCapped(found) == Flat(found) <==> forall n :: 0 <= n < |found| ==> |found[n]| <= MAX_MESSAGES
  {
    if found != [] {
      var init, last := found[..|found|-1], found[|found|-1];
      CapsLoseNothingIff(init);
      if |last| <= MAX_MESSAGES && FlatCapped(init) != Flat(init) {
        if FlatCapped(init) + last == Flat(init) + last {
          AppendCancels(FlatCapped(init), Flat(init), last);
        }
      }
    }
  }

  lemma AppendCancels<T>(a: seq<T>, b: seq<T>, c: seq<T>)
    requires a + c == b + c
    ensures a == b
  {
    assert |a| == |b|;
    assert forall k :: 0 <= k < |a| ==> a[k] == (a + c)[k] && b[k] == (b + c)[k];
  }

  /**
   * Chunk independence: while no drain overflows the buffer, the messages are those of one pass over the whole
   * stream exactly when no drain found more than sixteen blocks.
   */
  lemma ChunkingIsInvisibleIff(drains: seq<seq<string>>)
    requires NeverOverflows(drains)
    ensures |Drains(drains).0| == |drains|
    ensures FlatCapped(Drains(drains).0) == Extract(Stream(drains)).0
       <==> forall n :: 0 <= n < |drains| ==> |Drains(drains).0[n]| <= MAX_MESSAGES
  {
    DrainsExtractStream(drains);
    CapsLoseNothingIff(Drains(drains).0);
    OneListPerDrain(drains);
  }

  lemma {:induction false} OneListPerDrain(drains: seq<seq<string>>)
    ensures |Drains(drains).0| == |drains|
  {
    if drains != [] {
      OneListPerDrain(drains[..|drains|-1]);
    }
  }

  // ---------------------------------------------------------------- a burst

  /** The shortest bulletin there is. */
  const BULLETIN := "ZCZC AA01 NNNN"

  function Bulletins(n: nat): string {
    if n == 0 then "" else Bulletins(n - 1) + BULLETIN
  }

  lemma OneBulletin()
    ensures |Extract(BULLETIN).0| == 1 && Extract(BULLETIN).1 == ""
  {
    var s := BULLETIN;
    assert StartMark(s, 0) && IsSpace(s[4]) && !IsSpace(s[5]) && Identifier(s, 5);
    assert SkipSpaces(s, 4) == 5;
    assert HeaderEnd(s, 0) == Some(9);
    assert !EndMark(s, 9) && EndMark(s, 10);
    assert MatchAt(s, 0) == Some(14) && Search(s) == Some((0, 14));
    assert s[14..] == "";
    hide Clean;
    NothingToExtract();
  }

  lemma {:induction false} BulletinsExtract(n: nat)
    ensures |Extract(Bulletins(n)).0| == n && Extract(Bulletins(n)).1 == "" && |Bulletins(n)| == 14 * n
  {
    hide Extract;
    if n == 0 {
      NothingToExtract();
    } else {
      BulletinsExtract(n - 1);
      ExtractAppend(Bulletins(n - 1), BULLETIN);
      assert "" + BULLETIN == BULLETIN;
      OneBulletin();
    }
  }

  /** Seventeen short bulletins in one chunk: the last is taken from the buffer and never reported. */
  lemma BurstIsCut()
    ensures var drains := [[Bulletins(17)]];
      && NeverOverflows(drains) && Drains(drains).1 == "" && |Extract(Stream(drains)).0| == 17
      && |FlatCapped(Drains(drains).0)| == 16
  {
    hide Extract, Bulletins;
    var chunk := Bulletins(17);
    var drains := [[chunk]];
    BulletinsExtract(17);
    assert drains[..0] == [] && [chunk][..0] == [] && "" + chunk == chunk;
    assert Joined([chunk]) == chunk && Stream(drains) == chunk && ReceivedAll("", [chunk]) == chunk;
    var found := Drains(drains).0;
    assert found == [] + [Extract(chunk).0] && found[..0] == [];
    assert FlatCapped(found) == [] + Capped(found[0]);
  }
}
